/**
 What a module loader makes of the codemod's output.  The codemod reads specifiers with its
 own resolver; a loader takes some of the specifiers it writes for something else.
 */
module UnbarrelLoader {
  import opened Options
  import opened ModulePaths
  import opened Unbarrel
  import opened UnbarrelReader

  function LoadedBinding(file: Path, s: Statement, i: nat): Binding
    requires i < |s.specifiers|
  {
    DirectBinding(file, s, i).(module_ := LoaderModule(file, s.from))
  }

  function Loaded(file: Path, s: Statement): seq<Binding> {
    seq(|s.specifiers|, i requires 0 <= i < |s.specifiers| => LoadedBinding(file, s, i))
  }

  /** What statements bind as a loader reads them. */
  function LoadedAll(file: Path, statements: seq<Statement>): seq<Binding> {
    if statements == [] then [] else Loaded(file, statements[0]) + LoadedAll(file, statements[1..])
  }

  /** Every module the statement takes a name from can be loaded by the specifier written for it. */
  predicate TakesLoadable(file: Path, barrel: Barrel, s: StatementNode)
    requires IsBarrel(barrel) && Known(barrel, s.specifiers)
  {
    forall k :: 0 <= k < |s.specifiers| ==> IsLoadable(file, barrel[s.specifiers[k].specifier.taken].module_)
  }

  lemma {:induction false} SameWhenLoadable(file: Path, statements: seq<Statement>)
    requires forall i :: 0 <= i < |statements| ==>
      LoaderModule(file, statements[i].from) == ModuleOf(file, statements[i].from)
    ensures LoadedAll(file, statements) == DirectAll(file, statements)
  {
    if statements != [] {
      SameWhenLoadable(file, statements[1..]);
      assert Loaded(file, statements[0]) == Direct(file, statements[0]);
    }
  }

  lemma {:induction false} LoadedFrom(file: Path, statements: seq<Statement>, b: Binding) returns (i: nat)
    requires b in LoadedAll(file, statements)
    ensures i < |statements| && b.module_ == LoaderModule(file, statements[i].from)
  {
    if b in Loaded(file, statements[0]) {
      i := 0;
    } else {
      i := LoadedFrom(file, statements[1..], b);
      i := i + 1;
    }
  }

  /** No specifier written for another module is loaded as a file that its own is not loaded as. */
  lemma LoadedAsItself(file: Path, m: Module, other: Module)
    requires IsModule(m) && IsModule(other) && m.File?
    requires LoaderModule(file, SpecifierTo(file, other)) == m
    ensures other == m && IsLoadable(file, m)
  {
    ModuleRoundTrip(file, other);
    LoadableIff(file, other);
    assert ModuleOf(file, SpecifierTo(file, other)) == m;
  }

  lemma LoadableSuffices(file: Path, barrel: Barrel, s: StatementNode, groups: seq<Group>)
    requires IsBarrel(barrel) && Known(barrel, s.specifiers) && TakesLoadable(file, barrel, s)
    requires s.specifiers[..|s.specifiers|] == s.specifiers && groups == GroupsOf(file, barrel, s, |s.specifiers|)
    requires forall j :: 0 <= j < |groups| ==> groups[j].names != []
    ensures LoadedAll(file, ToStatements(s.keyword, groups)) == DirectAll(file, ToStatements(s.keyword, groups))
  {
    forall j | 0 <= j < |groups| ensures LoaderModule(file, groups[j].target) == ModuleOf(file, groups[j].target) {
      GroupsHold(file, barrel, s, |s.specifiers|, groups[j].target, groups[j].names[0]);
      var k :| 0 <= k < |s.specifiers| && Takes(file, barrel, s, k, groups[j].target, groups[j].names[0]);
      var m := barrel[s.specifiers[k].specifier.taken].module_;
      LoadableIff(file, m);
      ModuleRoundTrip(file, m);
    }
    SameWhenLoadable(file, ToStatements(s.keyword, groups));
  }

  lemma LoadableIsNeeded(file: Path, barrel: Barrel, s: StatementNode, groups: seq<Group>, k: nat)
    requires IsBarrel(barrel) && Known(barrel, s.specifiers) && k < |s.specifiers|
    requires forall j :: 0 <= j < |groups| ==> IsGroup(file, barrel, groups[j])
    requires !IsLoadable(file, barrel[s.specifiers[k].specifier.taken].module_)
    ensures Through(barrel, s.typeOnly, s.specifiers)[k] !in LoadedAll(file, ToStatements(s.keyword, groups))
  {
    var b := Through(barrel, s.typeOnly, s.specifiers)[k];
    if b in LoadedAll(file, ToStatements(s.keyword, groups)) {
      var i := LoadedFrom(file, ToStatements(s.keyword, groups), b);
      var name :| name in barrel && groups[i].target == SpecifierTo(file, barrel[name].module_);
      LoadedAsItself(file, b.module_, barrel[name].module_);
    }
  }

  lemma LoadedIff(file: Path, barrel: Barrel, s: StatementNode)
    requires IsBarrel(barrel) && !IsSkipped(barrel, s)
    ensures OutcomeOf(file, barrel, s).Rewritten? && Known(barrel, s.specifiers)
    ensures var groups := OutcomeOf(file, barrel, s).groups;
      (multiset(LoadedAll(file, ToStatements(s.keyword, groups))) == multiset(Through(barrel, s.typeOnly, s.specifiers))
            <==> TakesLoadable(file, barrel, s))
  {
    OutcomeMeans(file, barrel, s);
    var groups := OutcomeOf(file, barrel, s).groups;
    var loaded, through := LoadedAll(file, ToStatements(s.keyword, groups)), Through(barrel, s.typeOnly, s.specifiers);
    assert s.specifiers[..|s.specifiers|] == s.specifiers;
    forall j | 0 <= j < |groups| ensures groups[j].names != [] { assert IsGroup(file, barrel, groups[j]); }
    if TakesLoadable(file, barrel, s) {
      LoadableSuffices(file, barrel, s, groups);
    } else {
      var k :| 0 <= k < |s.specifiers| && !IsLoadable(file, barrel[s.specifiers[k].specifier.taken].module_);
      LoadableIsNeeded(file, barrel, s, groups, k);
      assert through[k] in multiset(through) && through[k] !in multiset(loaded);
    }
  }

  /** A replacement that can be written down binds what the statement bound, as a loader reads it,
      exactly when the loader takes every specifier written for the module meant. */
  lemma ReplacementLoadsIff(file: Path, barrel: Barrel, s: StatementNode)
    requires IsBarrel(barrel) && !IsSkipped(barrel, s)
    ensures Known(barrel, s.specifiers) && OutcomeOf(file, barrel, s).Rewritten?
    ensures IsWritable(file, barrel, s) ==>
      var read := ReadStatements(OutcomeOf(file, barrel, s).text);
      && read.Some?
      && (multiset(LoadedAll(file, read.value)) == multiset(Through(barrel, s.typeOnly, s.specifiers))
            <==> TakesLoadable(file, barrel, s))
  {
    OutcomeMeans(file, barrel, s);
    ReplacementReadsBack(file, barrel, s);
    LoadedIff(file, barrel, s);
  }

  /** A module under `.gen/` beside the importer: the replacement can be read back, and a loader takes it
      for a package. */
  lemma DotEntryDoesNotLoad()
    ensures var barrel := map["T" := Origin(File(["repo", ".gen", "b.ts"]), "T", false)];
      && IsBarrel(barrel) && !IsSkipped(barrel, TAKES_T) && Known(barrel, TAKES_T.specifiers)
      && IsWritable(["repo", "a.ts"], barrel, TAKES_T) && !TakesLoadable(["repo", "a.ts"], barrel, TAKES_T)
      && LoaderModule(["repo", "a.ts"], ".gen/b.ts") == Bare(".gen/b.ts")
  {
    var barrel := map["T" := Origin(File(["repo", ".gen", "b.ts"]), "T", false)];
    DotEntryExample();
    KnownIff(barrel, TAKES_T.specifiers);
    assert IsIdentifier("T");
    RelativeSpellingIff(["repo", "a.ts"], ["repo", ".gen", "b.ts"]);
    assert barrel[TAKES_T.specifiers[0].specifier.taken].module_ == File(["repo", ".gen", "b.ts"]);
  }
}
