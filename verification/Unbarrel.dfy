/**
 The codemod of `scripts/unbarrel.ts`: an `import` or `export … from` of the barrel is
 replaced by statements that take each name from the module defining it.

 Two readings are compared.  `Through` says what a statement binds by way of the barrel;
 `Direct` says what statements bind by themselves.  `UnbarrelReader` reads the replacement's
 text back into statements.
 */
module Unbarrel {
  import opened Options
  import opened Text
  import opened ModulePaths

  datatype Keyword = Import | Export

  datatype Origin = Origin(module_: Module, name: string, typeOnly: bool)

  type Barrel = map<string, Origin>

  /** `{ type taken as bound }` in an import; in an export, `taken` is the local name. */
  datatype Specifier = Specifier(taken: string, bound: string, typeOnly: bool)

  datatype SpecifierNode = Named(specifier: Specifier) | TakesWhole

  /** A statement as parsed; `commented`: a comment lies inside it. */
  datatype StatementNode = StatementNode(
    keyword: Keyword, typeOnly: bool, specifiers: seq<SpecifierNode>, commented: bool)

  /** A statement whose specifiers are all named. */
  datatype Statement = Statement(keyword: Keyword, from: string, typeOnly: bool, specifiers: seq<Specifier>)

  datatype Binding = Binding(bound: string, module_: Module, name: string, typeOnly: bool)

  datatype RewrittenName = RewrittenName(name: string, bound: string, typeOnly: bool)

  /** An entry of the `groups` map, which keeps the order in which targets were first seen. */
  datatype Group = Group(target: string, names: seq<RewrittenName>)

  datatype Skip = SideEffect | WholeBarrel | CommentInside | NotExported(name: string)

  datatype Outcome = Skipped(reason: Skip) | Rewritten(groups: seq<Group>, text: string)

  // ----- What statements bind -----

  function DirectBinding(file: Path, s: Statement, i: nat): Binding
    requires i < |s.specifiers|
  {
    var x := s.specifiers[i];
    Binding(x.bound, ModuleOf(file, s.from), x.taken, s.typeOnly || x.typeOnly)
  }

  function Direct(file: Path, s: Statement): seq<Binding> {
    seq(|s.specifiers|, i requires 0 <= i < |s.specifiers| => DirectBinding(file, s, i))
  }

  function DirectAll(file: Path, statements: seq<Statement>): seq<Binding> {
    if statements == [] then [] else Direct(file, statements[0]) + DirectAll(file, statements[1..])
  }

  predicate Known(barrel: Barrel, nodes: seq<SpecifierNode>) {
    forall i :: 0 <= i < |nodes| ==> nodes[i].Named? && nodes[i].specifier.taken in barrel
  }

  function ThroughBinding(barrel: Barrel, typeOnly: bool, x: Specifier): Binding
    requires x.taken in barrel
  {
    var origin := barrel[x.taken];
    Binding(x.bound, origin.module_, origin.name, typeOnly || x.typeOnly || origin.typeOnly)
  }

  /** What a statement binds by way of the barrel: the barrel gives each taken name its module
      and name there, and type-only anywhere makes it type-only. */
  function Through(barrel: Barrel, typeOnly: bool, nodes: seq<SpecifierNode>): seq<Binding>
    requires Known(barrel, nodes)
  {
    seq(|nodes|, i requires 0 <= i < |nodes| => ThroughBinding(barrel, typeOnly, nodes[i].specifier))
  }

  // ----- Reading the barrel -----

  datatype ExportItem = ExportName(local: string, exported: string, typeOnly: bool) | ExportWhole

  datatype BarrelStatement = ExportFrom(from: string, typeOnly: bool, items: seq<ExportItem>) | OtherStatement

  datatype ParsedBarrel = Refused | Parsed(barrel: Barrel)

  predicate OnlyNamedExports(statements: seq<BarrelStatement>) {
    forall i :: 0 <= i < |statements| ==>
      && statements[i].ExportFrom?
      && forall j :: 0 <= j < |statements[i].items| ==> statements[i].items[j].ExportName?
  }

  /** A barrel whose origins can be named again from any file. */
  predicate IsBarrel(barrel: Barrel) {
    forall name :: name in barrel ==> IsModule(barrel[name].module_)
  }

  predicate IsModule(m: Module) {
    match m
    case File(path) => IsPath(path)
    case Bare(text) => !StartsWith(text, ".")
  }

  /** The origin the codemod records for an item. */
  function OriginOf(barrelPath: Path, s: BarrelStatement, item: ExportItem): Origin
    requires s.ExportFrom? && item.ExportName?
  {
    Origin(ModuleOf(barrelPath, s.from), item.local, s.typeOnly || item.typeOnly)
  }

  /** Read as an export statement of its own, the item binds `name` to this origin. */
  predicate ItemExports(barrelPath: Path, s: BarrelStatement, item: ExportItem, name: string, origin: Origin)
    requires s.ExportFrom?
  {
    && item.ExportName?
    && var alone := Statement(Export, s.from, s.typeOnly, [Specifier(item.local, item.exported, item.typeOnly)]);
       DirectBinding(barrelPath, alone, 0) == Binding(name, origin.module_, origin.name, origin.typeOnly)
  }

  /** `name` is exported with this origin by an item of `s`. */
  ghost predicate ExportedIn(barrelPath: Path, s: BarrelStatement, name: string, origin: Origin) {
    s.ExportFrom? && exists j :: 0 <= j < |s.items| && ItemExports(barrelPath, s, s.items[j], name, origin)
  }

  ghost predicate Exported(barrelPath: Path, statements: seq<BarrelStatement>, name: string, origin: Origin) {
    exists i :: 0 <= i < |statements| && ExportedIn(barrelPath, statements[i], name, origin)
  }

  /** Every name `s` exports is in the map. */
  predicate Covers(barrel: Barrel, s: BarrelStatement) {
    s.ExportFrom? ==> forall j :: 0 <= j < |s.items| && s.items[j].ExportName? ==> s.items[j].exported in barrel
  }

  lemma {:induction false} ResolveIsPath(base: Path, segments: seq<string>)
    requires IsPath(base) && forall i :: 0 <= i < |segments| ==> '/' !in segments[i]
    ensures IsPath(Resolve(base, segments))
    decreases segments
  {
    if segments != [] {
      ResolveIsPath(Enter(base, segments[0]), segments[1..]);
    }
  }

  method AddItems(barrelPath: Path, s: BarrelStatement, before: Barrel) returns (r: ParsedBarrel)
    requires s.ExportFrom?
    ensures r.Refused? <==> exists j :: 0 <= j < |s.items| && !s.items[j].ExportName?
    ensures r.Parsed? ==> before.Keys <= r.barrel.Keys && Covers(r.barrel, s)
    ensures r.Parsed? ==> forall name :: name in r.barrel ==>
      ExportedIn(barrelPath, s, name, r.barrel[name]) || (name in before && before[name] == r.barrel[name])
  {
    var barrel := before;
    for j := 0 to |s.items|
      invariant before.Keys <= barrel.Keys
      invariant forall l :: 0 <= l < j ==> s.items[l].ExportName? && s.items[l].exported in barrel
      invariant forall name :: name in barrel ==>
        ExportedIn(barrelPath, s, name, barrel[name]) || (name in before && before[name] == barrel[name])
    {
      var item := s.items[j];
      if !item.ExportName? { return Refused; }
      assert ItemExports(barrelPath, s, item, item.exported, OriginOf(barrelPath, s, item));
      assert ExportedIn(barrelPath, s, item.exported, OriginOf(barrelPath, s, item));
      barrel := barrel[item.exported := OriginOf(barrelPath, s, item)];
    }
    return Parsed(barrel);
  }

  /** Either the file is refused, or every export is in the map with the origin its statement
      gives it; and each origin is one that can be named again from any file. */
  method ParseBarrel(barrelPath: Path, statements: seq<BarrelStatement>) returns (r: ParsedBarrel)
    requires IsPath(barrelPath)
    ensures r.Refused? <==> !OnlyNamedExports(statements)
    ensures r.Parsed? ==> forall name :: name in r.barrel ==> Exported(barrelPath, statements, name, r.barrel[name])
    ensures r.Parsed? ==> forall i :: 0 <= i < |statements| ==> Covers(r.barrel, statements[i])
    ensures r.Parsed? ==> IsBarrel(r.barrel)
  {
    r := Parsed(map[]);
    for i := 0 to |statements|
      invariant r.Parsed? && OnlyNamedExports(statements[..i])
      invariant forall name :: name in r.barrel ==> Exported(barrelPath, statements, name, r.barrel[name])
      invariant forall k :: 0 <= k < i ==> Covers(r.barrel, statements[k])
    {
      if !statements[i].ExportFrom? { return Refused; }
      ghost var before := r.barrel;
      r := AddItems(barrelPath, statements[i], r.barrel);
      if r.Refused? { return; }
      forall k | 0 <= k < i ensures Covers(r.barrel, statements[k]) { assert Covers(before, statements[k]); }
    }
    OriginsAreModules(barrelPath, statements, r.barrel);
  }

  lemma OriginsAreModules(barrelPath: Path, statements: seq<BarrelStatement>, barrel: Barrel)
    requires IsPath(barrelPath)
    requires forall name :: name in barrel ==> Exported(barrelPath, statements, name, barrel[name])
    ensures IsBarrel(barrel)
  {
    forall name | name in barrel ensures IsModule(barrel[name].module_) {
      assert Exported(barrelPath, statements, name, barrel[name]);
      var i :| 0 <= i < |statements| && ExportedIn(barrelPath, statements[i], name, barrel[name]);
      ResolveIsPath(Dirname(barrelPath), Split(statements[i].from, '/'));
    }
  }

  // ----- Grouping by target -----

  function AddName(groups: seq<Group>, target: string, n: RewrittenName): seq<Group> {
    if groups == [] then [Group(target, [n])]
    else if groups[0].target == target then [groups[0].(names := groups[0].names + [n])] + groups[1..]
    else [groups[0]] + AddName(groups[1..], target, n)
  }

  /** One group, and so one statement, per target. */
  predicate DistinctTargets(groups: seq<Group>) {
    forall i, j :: 0 <= i < j < |groups| ==> groups[i].target != groups[j].target
  }

  lemma {:induction false} AddNameTargets(groups: seq<Group>, target: string, n: RewrittenName)
    requires DistinctTargets(groups)
    ensures DistinctTargets(AddName(groups, target, n))
    ensures forall g :: g in AddName(groups, target, n) ==>
      g.target == target || exists h :: h in groups && h.target == g.target
  {
    if groups != [] && groups[0].target != target {
      var rest := AddName(groups[1..], target, n);
      AddNameTargets(groups[1..], target, n);
      forall j | 0 <= j < |rest| ensures rest[j].target != groups[0].target {
        assert rest[j] in rest;
        if rest[j].target != target {
          var h :| h in groups[1..] && h.target == rest[j].target;
        }
      }
    }
  }

  predicate AllTypes(names: seq<RewrittenName>) {
    forall i :: 0 <= i < |names| ==> names[i].typeOnly
  }

  /** The statement a group stands for: `import type` when every name is a type, and otherwise
      a mark on each type. */
  function ToStatement(keyword: Keyword, g: Group): Statement {
    Statement(keyword, g.target, AllTypes(g.names),
              seq(|g.names|, i requires 0 <= i < |g.names| =>
                Specifier(g.names[i].name, g.names[i].bound, !AllTypes(g.names) && g.names[i].typeOnly)))
  }

  function ToStatements(keyword: Keyword, groups: seq<Group>): seq<Statement> {
    seq(|groups|, i requires 0 <= i < |groups| => ToStatement(keyword, groups[i]))
  }

  function NameBinding(file: Path, target: string, n: RewrittenName): Binding {
    Binding(n.bound, ModuleOf(file, target), n.name, n.typeOnly)
  }

  function GroupBindings(file: Path, g: Group): seq<Binding> {
    seq(|g.names|, i requires 0 <= i < |g.names| => NameBinding(file, g.target, g.names[i]))
  }

  /** Collecting the type marks on the statement changes no name's type-only reading. */
  lemma GroupMeansStatement(file: Path, keyword: Keyword, g: Group)
    ensures Direct(file, ToStatement(keyword, g)) == GroupBindings(file, g)
  {
    var s := ToStatement(keyword, g);
    forall i | 0 <= i < |g.names| ensures DirectBinding(file, s, i) == NameBinding(file, g.target, g.names[i]) {
    }
  }

  lemma DirectAllCons(file: Path, keyword: Keyword, g: Group, rest: seq<Group>)
    ensures multiset(DirectAll(file, ToStatements(keyword, [g] + rest)))
         == multiset(GroupBindings(file, g)) + multiset(DirectAll(file, ToStatements(keyword, rest)))
  {
    var s := ToStatements(keyword, [g] + rest);
    assert s[1..] == ToStatements(keyword, rest);
    assert s[0] == ToStatement(keyword, g);
    GroupMeansStatement(file, keyword, g);
  }

  lemma GroupGrows(file: Path, g: Group, n: RewrittenName)
    ensures multiset(GroupBindings(file, g.(names := g.names + [n])))
         == multiset(GroupBindings(file, g)) + multiset{NameBinding(file, g.target, n)}
  {
    assert GroupBindings(file, g.(names := g.names + [n])) == GroupBindings(file, g) + [NameBinding(file, g.target, n)];
  }

  /** Adding a name to its group adds exactly its binding. */
  lemma {:induction false} AddNameBinds(file: Path, keyword: Keyword, groups: seq<Group>, target: string, n: RewrittenName)
    ensures multiset(DirectAll(file, ToStatements(keyword, AddName(groups, target, n))))
         == multiset(DirectAll(file, ToStatements(keyword, groups))) + multiset{NameBinding(file, target, n)}
  {
    if groups == [] {
      var g := Group(target, []);
      GroupGrows(file, g, n);
      DirectAllCons(file, keyword, g.(names := g.names + [n]), []);
      assert g.names + [n] == [n] && [Group(target, [n])] + [] == [Group(target, [n])];
      assert GroupBindings(file, g) == [] && ToStatements(keyword, []) == [];
    } else {
      var g, rest := groups[0], groups[1..];
      assert groups == [g] + rest;
      DirectAllCons(file, keyword, g, rest);
      if g.target == target {
        GroupGrows(file, g, n);
        DirectAllCons(file, keyword, g.(names := g.names + [n]), rest);
      } else {
        AddNameBinds(file, keyword, rest, target, n);
        DirectAllCons(file, keyword, g, AddName(rest, target, n));
      }
    }
  }

  // ----- Writing statements -----

  function KeywordText(keyword: Keyword): string {
    if keyword.Import? then "import " else "export "
  }

  /** The words of one specifier in the list. */
  function Words(n: RewrittenName, marked: bool): seq<string> {
    (if marked then ["type"] else []) + (if n.name == n.bound then [n.bound] else [n.name, "as", n.bound])
  }

  function Items(names: seq<RewrittenName>): seq<string> {
    seq(|names|, i requires 0 <= i < |names| => Join(Words(names[i], !AllTypes(names) && names[i].typeOnly), " "))
  }

  function Opening(list: string): string {
    "{ " + list + " "
  }

  function Closing(target: string): string {
    " from \"" + (target + "\";")
  }

  function TypeText(typeOnly: bool): string {
    if typeOnly then "type " else ""
  }

  /** `import type { list } from "target";` */
  function RenderStatement(keyword: Keyword, target: string, names: seq<RewrittenName>): string {
    KeywordText(keyword) + (TypeText(AllTypes(names)) + (Opening(Join(Items(names), ", ")) + ['}'] + Closing(target)))
  }

  /** The words of a name: itself alone when it is bound as itself. */
  lemma WordsAreWritten(n: RewrittenName)
    ensures Join(Words(n, false), " ") == if n.name == n.bound then n.name else n.name + " as " + n.bound
  {
    var w := Words(n, false);
    if n.name != n.bound {
      assert w[1..] == ["as", n.bound] && w[1..][1..] == [n.bound];
      assert Join(w[1..], " ") == "as" + " " + n.bound;
    }
  }

  /** The statement written for one name: `type` behind the keyword for a type. */
  lemma NameIsWritten(n: RewrittenName, target: string)
    ensures RenderStatement(Import, target, [n])
         == "import " + ((if n.typeOnly then "type " else "")
              + ("{ " + (if n.name == n.bound then n.name else n.name + " as " + n.bound) + " "
                   + "}" + (" from \"" + (target + "\";"))))
  {
    assert AllTypes([n]) <==> [n][0].typeOnly;
    WordsAreWritten(n);
    assert Items([n]) == [Join(Words(n, false), " ")];
  }

  function RenderAll(keyword: Keyword, groups: seq<Group>): string {
    Join(seq(|groups|, i requires 0 <= i < |groups| =>
           RenderStatement(keyword, groups[i].target, groups[i].names)), "\n")
  }

  // ----- Rewriting one statement -----

  predicate IsSkipped(barrel: Barrel, s: StatementNode) {
    s.specifiers == [] || s.commented || !Known(barrel, s.specifiers)
  }

  predicate TakesWholeBarrel(s: StatementNode) {
    exists i :: 0 <= i < |s.specifiers| && s.specifiers[i].TakesWhole?
  }

  /** The reason given is the first that applies: an unknown name is the first unknown one. */
  predicate ReasonHolds(barrel: Barrel, s: StatementNode, reason: Skip) {
    match reason
    case SideEffect => s.specifiers == []
    case WholeBarrel => TakesWholeBarrel(s)
    case CommentInside => !TakesWholeBarrel(s) && s.commented
    case NotExported(name) =>
      && !TakesWholeBarrel(s) && !s.commented && name !in barrel
      && exists i :: 0 <= i < |s.specifiers| && s.specifiers[i].Named? && s.specifiers[i].specifier.taken == name
                     && Known(barrel, s.specifiers[..i])
  }

  /** The first taken name the barrel does not export. */
  function FirstUnknown(barrel: Barrel, nodes: seq<SpecifierNode>): Option<string> {
    if nodes == [] then None
    else if nodes[0].Named? && nodes[0].specifier.taken !in barrel then Some(nodes[0].specifier.taken)
    else FirstUnknown(barrel, nodes[1..])
  }

  function TargetOf(file: Path, barrel: Barrel, x: Specifier): string
    requires x.taken in barrel
  {
    SpecifierTo(file, barrel[x.taken].module_)
  }

  function NameOf(barrel: Barrel, typeOnly: bool, x: Specifier): RewrittenName
    requires x.taken in barrel
  {
    RewrittenName(barrel[x.taken].name, x.bound, typeOnly || x.typeOnly || barrel[x.taken].typeOnly)
  }

  /** The groups of the first `i` specifiers. */
  function GroupsOf(file: Path, barrel: Barrel, s: StatementNode, i: nat): seq<Group>
    requires i <= |s.specifiers| && Known(barrel, s.specifiers[..i])
  {
    if i == 0 then []
    else
      assert s.specifiers[..i][i - 1] == s.specifiers[i - 1];
      assert s.specifiers[..i][..i - 1] == s.specifiers[..i - 1];
      var x := s.specifiers[i - 1].specifier;
      AddName(GroupsOf(file, barrel, s, i - 1), TargetOf(file, barrel, x), NameOf(barrel, s.typeOnly, x))
  }

  function OutcomeOf(file: Path, barrel: Barrel, s: StatementNode): Outcome {
    if s.specifiers == [] then Skipped(SideEffect)
    else if TakesWholeBarrel(s) then Skipped(WholeBarrel)
    else if s.commented then Skipped(CommentInside)
    else
      KnownIff(barrel, s.specifiers);
      match FirstUnknown(barrel, s.specifiers)
      case Some(name) => Skipped(NotExported(name))
      case None =>
        assert s.specifiers[..|s.specifiers|] == s.specifiers;
        var groups := GroupsOf(file, barrel, s, |s.specifiers|);
        Rewritten(groups, RenderAll(s.keyword, groups))
  }

  lemma {:induction false} KnownIff(barrel: Barrel, nodes: seq<SpecifierNode>)
    requires forall i :: 0 <= i < |nodes| ==> nodes[i].Named?
    ensures FirstUnknown(barrel, nodes).None? <==> Known(barrel, nodes)
  {
    if nodes != [] {
      KnownIff(barrel, nodes[1..]);
      assert nodes == [nodes[0]] + nodes[1..];
    }
  }

  lemma {:induction false} FirstUnknownIsFirst(barrel: Barrel, nodes: seq<SpecifierNode>)
    requires (forall i :: 0 <= i < |nodes| ==> nodes[i].Named?) && FirstUnknown(barrel, nodes).Some?
    ensures var name := FirstUnknown(barrel, nodes).value;
      name !in barrel
      && exists i :: 0 <= i < |nodes| && nodes[i].specifier.taken == name && Known(barrel, nodes[..i])
  {
    var name := FirstUnknown(barrel, nodes).value;
    if nodes[0].specifier.taken !in barrel {
      assert Known(barrel, nodes[..0]);
    } else {
      FirstUnknownIsFirst(barrel, nodes[1..]);
      var i :| 0 <= i < |nodes[1..]| && nodes[1..][i].specifier.taken == name && Known(barrel, nodes[1..][..i]);
      assert nodes[..i + 1] == [nodes[0]] + nodes[1..][..i];
      assert nodes[i + 1].specifier.taken == name && Known(barrel, nodes[..i + 1]);
    }
  }

  /** The statement is left whole exactly when it has no specifiers, takes the whole barrel, holds
      a comment or takes an unknown name.  Otherwise its replacement binds the same names, each as
      often, to the same module and name, type-only in the same cases, with one statement for each
      module of the barrel it takes names from. */
  lemma OutcomeMeans(file: Path, barrel: Barrel, s: StatementNode)
    requires IsBarrel(barrel)
    ensures var outcome := OutcomeOf(file, barrel, s);
      && (outcome.Skipped? <==> IsSkipped(barrel, s))
      && (outcome.Skipped? ==> ReasonHolds(barrel, s, outcome.reason))
      && (outcome.Rewritten? ==> outcome.text == RenderAll(s.keyword, outcome.groups) && IsReplacement(file, barrel, s, outcome.groups))
  {
    if s.specifiers != [] && !TakesWholeBarrel(s) && !s.commented {
      KnownIff(barrel, s.specifiers);
      if FirstUnknown(barrel, s.specifiers).Some? {
        FirstUnknownIsFirst(barrel, s.specifiers);
      } else {
        assert s.specifiers[..|s.specifiers|] == s.specifiers;
        GroupsBind(file, barrel, s, |s.specifiers|);
      }
    }
  }

  ghost predicate IsReplacement(file: Path, barrel: Barrel, s: StatementNode, groups: seq<Group>) {
    && Known(barrel, s.specifiers)
    && multiset(DirectAll(file, ToStatements(s.keyword, groups))) == multiset(Through(barrel, s.typeOnly, s.specifiers))
    && groups != [] && DistinctTargets(groups)
    && forall i :: 0 <= i < |groups| ==> IsGroup(file, barrel, groups[i])
  }

  lemma {:induction false} GroupsBind(file: Path, barrel: Barrel, s: StatementNode, i: nat)
    requires IsBarrel(barrel) && i <= |s.specifiers| && Known(barrel, s.specifiers[..i])
    ensures Grouped(file, barrel, s, i, GroupsOf(file, barrel, s, i))
  {
    if i > 0 {
      assert s.specifiers[..i][i - 1] == s.specifiers[i - 1];
      assert s.specifiers[..i][..i - 1] == s.specifiers[..i - 1];
      var x := s.specifiers[i - 1].specifier;
      GroupsBind(file, barrel, s, i - 1);
      GroupedStep(file, barrel, s, i - 1, GroupsOf(file, barrel, s, i - 1),
                  TargetOf(file, barrel, x), NameOf(barrel, s.typeOnly, x));
    }
  }

  method RewriteStatement(file: Path, barrel: Barrel, s: StatementNode) returns (outcome: Outcome)
    ensures outcome == OutcomeOf(file, barrel, s)
  {
    if s.specifiers == [] { return Skipped(SideEffect); }
    if TakesWholeBarrel(s) { return Skipped(WholeBarrel); }
    if s.commented { return Skipped(CommentInside); }
    var groups: seq<Group> := [];
    for i := 0 to |s.specifiers|
      invariant Known(barrel, s.specifiers[..i]) && groups == GroupsOf(file, barrel, s, i)
      invariant FirstUnknown(barrel, s.specifiers) == FirstUnknown(barrel, s.specifiers[i..])
    {
      var x := s.specifiers[i].specifier;
      assert s.specifiers[i..][0] == s.specifiers[i] && s.specifiers[i..][1..] == s.specifiers[i + 1..];
      if x.taken !in barrel {
        KnownIff(barrel, s.specifiers);
        return Skipped(NotExported(x.taken));
      }
      assert s.specifiers[..i + 1] == s.specifiers[..i] + [s.specifiers[i]];
      groups := AddName(groups, TargetOf(file, barrel, x), NameOf(barrel, s.typeOnly, x));
    }
    KnownIff(barrel, s.specifiers);
    return Rewritten(groups, RenderAll(s.keyword, groups));
  }

  /** A group has names, and its target is how `file` names a module of the barrel. */
  ghost predicate IsGroup(file: Path, barrel: Barrel, g: Group) {
    g.names != [] && exists name :: name in barrel && g.target == SpecifierTo(file, barrel[name].module_)
  }

  /** The groups bind what the first `i` specifiers bind by way of the barrel. */
  ghost predicate Grouped(file: Path, barrel: Barrel, s: StatementNode, i: nat, groups: seq<Group>)
    requires i <= |s.specifiers|
  {
    && Known(barrel, s.specifiers[..i])
    && (i > 0 ==> groups != []) && DistinctTargets(groups)
    && (forall j :: 0 <= j < |groups| ==> IsGroup(file, barrel, groups[j]))
    && multiset(DirectAll(file, ToStatements(s.keyword, groups)))
    == multiset(Through(barrel, s.typeOnly, s.specifiers[..i]))
  }

  lemma GroupedStep(
    file: Path, barrel: Barrel, s: StatementNode, i: nat, groups: seq<Group>, target: string, name: RewrittenName)
    requires IsBarrel(barrel) && i < |s.specifiers| && Grouped(file, barrel, s, i, groups)
    requires s.specifiers[i].Named? && s.specifiers[i].specifier.taken in barrel
    requires var x := s.specifiers[i].specifier; var origin := barrel[x.taken];
      && target == SpecifierTo(file, origin.module_)
      && name == RewrittenName(origin.name, x.bound, s.typeOnly || x.typeOnly || origin.typeOnly)
    ensures Grouped(file, barrel, s, i + 1, AddName(groups, target, name))
  {
    ThroughStep(barrel, s.typeOnly, s.specifiers, i);
    SameBinding(file, barrel, s.typeOnly, s.specifiers[i].specifier);
    AddNameBinds(file, s.keyword, groups, target, name);
    AddNameTargets(groups, target, name);
    AddNameKeeps(file, barrel, groups, s.specifiers[i].specifier.taken, name);
  }

  /** A name taken straight from its origin binds what it binds by way of the barrel. */
  lemma SameBinding(file: Path, barrel: Barrel, typeOnly: bool, x: Specifier)
    requires IsBarrel(barrel) && x.taken in barrel
    ensures var origin := barrel[x.taken];
      NameBinding(file, SpecifierTo(file, origin.module_),
                  RewrittenName(origin.name, x.bound, typeOnly || x.typeOnly || origin.typeOnly))
      == ThroughBinding(barrel, typeOnly, x)
  {
    ModuleRoundTrip(file, barrel[x.taken].module_);
  }

  lemma ThroughStep(barrel: Barrel, typeOnly: bool, nodes: seq<SpecifierNode>, i: nat)
    requires i < |nodes| && Known(barrel, nodes[..i])
    requires nodes[i].Named? && nodes[i].specifier.taken in barrel
    ensures Known(barrel, nodes[..i + 1])
    ensures multiset(Through(barrel, typeOnly, nodes[..i + 1]))
         == multiset(Through(barrel, typeOnly, nodes[..i]))
            + multiset{ThroughBinding(barrel, typeOnly, nodes[i].specifier)}
  {
    assert nodes[..i + 1] == nodes[..i] + [nodes[i]];
    assert Through(barrel, typeOnly, nodes[..i + 1])
        == Through(barrel, typeOnly, nodes[..i]) + [ThroughBinding(barrel, typeOnly, nodes[i].specifier)];
  }

  lemma {:induction false} AddNameKeeps(file: Path, barrel: Barrel, groups: seq<Group>, taken: string, n: RewrittenName)
    requires taken in barrel
    requires forall j :: 0 <= j < |groups| ==> IsGroup(file, barrel, groups[j])
    ensures var after := AddName(groups, SpecifierTo(file, barrel[taken].module_), n);
      after != [] && forall j :: 0 <= j < |after| ==> IsGroup(file, barrel, after[j])
  {
    var target := SpecifierTo(file, barrel[taken].module_);
    assert groups != [] ==> IsGroup(file, barrel, groups[0]);
    if groups != [] && groups[0].target != target {
      AddNameKeeps(file, barrel, groups[1..], taken, n);
    }
  }
}
