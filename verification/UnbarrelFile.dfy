/**
 `rewriteSource` of `scripts/unbarrel.ts` as a whole: the walk over a file's syntax tree
 that rewrites or reports every reference to the barrel, and the text it leaves.
 */
module UnbarrelFile {
  import opened Options
  import opened ModulePaths
  import opened Unbarrel
  import opened UnbarrelReader
  import opened UnbarrelLoader
  import Splice

  /** The leftmost name of `import("…").Name`, and where it stands. */
  datatype NamePart = NamePart(span: Splice.Span, taken: string)

  /** What a node says about the barrel: nothing, an import or export of names, an `export *`, an
      import type with or without a name, or a dynamic import. */
  datatype Reference =
    | NoReference
    | Names(node: StatementNode)
    | ExportAll
    | ImportType(argument: Splice.Span, name: Option<NamePart>)
    | Dynamic

  datatype Ast = Ast(start: nat, end: nat, reference: Reference, children: seq<Ast>)

  datatype Reason = StatementSkipped(skip: Skip) | TakesAll | TypeTakesAll | UnknownType(name: string) | DynamicImport

  datatype Unhandled = Unhandled(start: nat, reason: Reason)

  // ----- What becomes of one reference -----

  function Quoted(file: Path, m: Module): string {
    "\"" + SpecifierTo(file, m) + "\""
  }

  /** The edits a reference gives rise to. */
  function KindOf(file: Path, barrel: Barrel, r: Reference): Splice.Kind {
    match r
    case Names(node) =>
      (match OutcomeOf(file, barrel, node)
       case Rewritten(_, text) => Splice.Statement(text)
       case Skipped(_) => Splice.Plain)
    case ImportType(argument, Some(part)) =>
      if part.taken in barrel then
        Splice.ImportType(argument, Quoted(file, barrel[part.taken].module_), part.span, barrel[part.taken].name)
      else Splice.Plain
    case _ => Splice.Plain
  }

  /** Why a reference is left as it is; none if it is rewritten, or refers to something else. */
  function ReasonOf(file: Path, barrel: Barrel, r: Reference): Option<Reason> {
    match r
    case NoReference => None
    case Names(node) =>
      (match OutcomeOf(file, barrel, node)
       case Rewritten(_, _) => None
       case Skipped(skip) => Some(StatementSkipped(skip)))
    case ExportAll => Some(TakesAll)
    case ImportType(_, None) => Some(TypeTakesAll)
    case ImportType(_, Some(part)) => if part.taken in barrel then None else Some(UnknownType(part.taken))
    case Dynamic => Some(DynamicImport)
  }

  /** Every reference is either rewritten or reported, never both. */
  lemma RewrittenOrReported(file: Path, barrel: Barrel, r: Reference)
    ensures !r.NoReference? ==> (KindOf(file, barrel, r).Plain? <==> ReasonOf(file, barrel, r).Some?)
    ensures r.NoReference? ==> KindOf(file, barrel, r).Plain? && ReasonOf(file, barrel, r).None?
    ensures ReasonOf(file, barrel, r) == Some(TakesAll) <==> r.ExportAll?
    ensures ReasonOf(file, barrel, r) == Some(TypeTakesAll) <==> r.ImportType? && r.name.None?
    ensures ReasonOf(file, barrel, r) == Some(DynamicImport) <==> r.Dynamic?
    ensures forall name :: ReasonOf(file, barrel, r) == Some(UnknownType(name)) <==>
      r.ImportType? && r.name.Some? && r.name.value.taken == name && name !in barrel
    ensures forall skip :: ReasonOf(file, barrel, r) == Some(StatementSkipped(skip)) <==>
      r.Names? && OutcomeOf(file, barrel, r.node) == Skipped(skip)
  {
  }

  // ----- The whole tree -----

  function ToNode(file: Path, barrel: Barrel, a: Ast): Splice.Node
    decreases a, 1
  {
    Splice.Node(a.start, a.end, KindOf(file, barrel, a.reference), ToNodes(file, barrel, a.children))
  }

  function ToNodes(file: Path, barrel: Barrel, asts: seq<Ast>): (r: seq<Splice.Node>)
    ensures |r| == |asts| && forall i :: 0 <= i < |asts| ==> r[i] == ToNode(file, barrel, asts[i])
    decreases asts, 0
  {
    seq(|asts|, i requires 0 <= i < |asts| => ToNode(file, barrel, asts[i]))
  }

  function OwnUnhandled(file: Path, barrel: Barrel, a: Ast): seq<Unhandled> {
    match ReasonOf(file, barrel, a.reference)
    case None => []
    case Some(reason) => [Unhandled(a.start, reason)]
  }

  /** The references left, in the order of the walk. */
  function UnhandledIn(file: Path, barrel: Barrel, a: Ast): seq<Unhandled>
    decreases a, 1
  {
    OwnUnhandled(file, barrel, a) + UnhandledInAll(file, barrel, a.children)
  }

  function UnhandledInAll(file: Path, barrel: Barrel, asts: seq<Ast>): seq<Unhandled>
    decreases asts, 0
  {
    if asts == [] then [] else UnhandledIn(file, barrel, asts[0]) + UnhandledInAll(file, barrel, asts[1..])
  }

  /** How often the tree refers to the barrel. */
  function References(a: Ast): nat
    decreases a, 1
  {
    (if a.reference.NoReference? then 0 else 1) + ReferencesIn(a.children)
  }

  function ReferencesIn(asts: seq<Ast>): nat
    decreases asts, 0
  {
    if asts == [] then 0 else References(asts[0]) + ReferencesIn(asts[1..])
  }

  /** What the walk has pushed and counted. */
  datatype Progress = Progress(edits: seq<Splice.Edit>, unhandled: seq<Unhandled>, rewritten: nat)

  /** After a tree: its edits and reports are appended, and each of its references is counted. */
  ghost predicate Extends(
    before: Progress, after: Progress, edits: seq<Splice.Edit>, unhandled: seq<Unhandled>, references: nat)
  {
    && after.edits == before.edits + edits
    && after.unhandled == before.unhandled + unhandled
    && after.rewritten + |after.unhandled| == before.rewritten + |before.unhandled| + references
  }

  lemma ExtendsOn(p: Progress, q: Progress, r: Progress, e1: seq<Splice.Edit>, u1: seq<Unhandled>, n1: nat,
                  e2: seq<Splice.Edit>, u2: seq<Unhandled>, n2: nat)
    requires Extends(p, q, e1, u1, n1) && Extends(q, r, e2, u2, n2)
    ensures Extends(p, r, e1 + e2, u1 + u2, n1 + n2)
  {
  }

  method Visit(file: Path, barrel: Barrel, a: Ast, before: Progress) returns (after: Progress)
    ensures Extends(before, after, Splice.Collect(ToNode(file, barrel, a)), UnhandledIn(file, barrel, a), References(a))
    decreases a, 1
  {
    var own := VisitReference(file, barrel, a, before);
    after := VisitAll(file, barrel, a.children, own);
    ExtendsOn(before, own, after, Splice.OwnEdits(ToNode(file, barrel, a)), OwnUnhandled(file, barrel, a),
              if a.reference.NoReference? then 0 else 1,
              Splice.CollectAll(ToNodes(file, barrel, a.children)), UnhandledInAll(file, barrel, a.children),
              ReferencesIn(a.children));
  }

  method VisitAll(file: Path, barrel: Barrel, asts: seq<Ast>, before: Progress) returns (after: Progress)
    ensures Extends(before, after, Splice.CollectAll(ToNodes(file, barrel, asts)), UnhandledInAll(file, barrel, asts),
                    ReferencesIn(asts))
    decreases asts, 0
  {
    if asts == [] {
      after := before;
    } else {
      var first := Visit(file, barrel, asts[0], before);
      after := VisitAll(file, barrel, asts[1..], first);
      assert ToNodes(file, barrel, asts)[1..] == ToNodes(file, barrel, asts[1..]);
      ExtendsOn(before, first, after, Splice.Collect(ToNode(file, barrel, asts[0])),
                UnhandledIn(file, barrel, asts[0]), References(asts[0]),
                Splice.CollectAll(ToNodes(file, barrel, asts[1..])), UnhandledInAll(file, barrel, asts[1..]),
                ReferencesIn(asts[1..]));
    }
  }

  /** The callback: rewrites a reference, or reports it. */
  method VisitReference(file: Path, barrel: Barrel, a: Ast, before: Progress) returns (after: Progress)
    ensures Extends(before, after, Splice.OwnEdits(ToNode(file, barrel, a)), OwnUnhandled(file, barrel, a),
                    if a.reference.NoReference? then 0 else 1)
  {
    match a.reference
    case NoReference => after := before;
    case Names(node) =>
      var outcome := RewriteStatement(file, barrel, node);
      match outcome {
        case Skipped(skip) => after := Report(before, a.start, StatementSkipped(skip));
        case Rewritten(_, text) => after := Push(before, [Splice.Edit(a.start, a.end, text)]);
      }
    case ExportAll => after := Report(before, a.start, TakesAll);
    case ImportType(argument, None) => after := Report(before, a.start, TypeTakesAll);
    case ImportType(argument, Some(part)) =>
      if part.taken !in barrel {
        after := Report(before, a.start, UnknownType(part.taken));
      } else {
        var origin := barrel[part.taken];
        after := Push(before, [Splice.Edit(argument.start, argument.end, Quoted(file, origin.module_)),
                               Splice.Edit(part.span.start, part.span.end, origin.name)]);
      }
    case Dynamic => after := Report(before, a.start, DynamicImport);
  }

  function Report(p: Progress, start: nat, reason: Reason): Progress {
    p.(unhandled := p.unhandled + [Unhandled(start, reason)])
  }

  function Push(p: Progress, edits: seq<Splice.Edit>): Progress {
    p.(edits := p.edits + edits, rewritten := p.rewritten + 1)
  }

  // ----- Spans of a syntax tree -----

  /** The tree refers to the barrel somewhere. */
  predicate Refers(a: Ast)
    decreases a
  {
    !a.reference.NoReference? || exists i :: 0 <= i < |a.children| && Refers(a.children[i])
  }

  predicate ApartFrom(span: Splice.Span, a: Ast) {
    span.end <= a.start || a.end <= span.start
  }

  /** Nodes nest; parts that refer to the barrel do not overlap; an import or export of names holds
      no further reference, and an import type's argument comes before its name. */
  predicate IsAst(a: Ast)
    decreases a
  {
    && a.start <= a.end
    && (forall i :: 0 <= i < |a.children| ==>
          IsAst(a.children[i]) && a.start <= a.children[i].start && a.children[i].end <= a.end)
    && (forall i, j :: 0 <= i < j < |a.children| && Refers(a.children[i]) && Refers(a.children[j]) ==>
          a.children[i].end <= a.children[j].start || a.children[j].end <= a.children[i].start)
    && match a.reference
       case Names(_) => a.start < a.end && forall i :: 0 <= i < |a.children| ==> !Refers(a.children[i])
       case ImportType(argument, Some(part)) =>
         && a.start <= argument.start < argument.end <= part.span.start < part.span.end <= a.end
         && forall i :: 0 <= i < |a.children| && Refers(a.children[i]) ==>
              ApartFrom(argument, a.children[i]) && ApartFrom(part.span, a.children[i])
       case _ => true
  }

  /** Where nothing refers to the barrel, nothing is edited. */
  lemma {:induction false} NoReferenceNoEdit(file: Path, barrel: Barrel, a: Ast)
    requires !Refers(a)
    ensures Splice.Collect(ToNode(file, barrel, a)) == []
    decreases a, 1
  {
    NoReferencesNoEdits(file, barrel, a.children);
  }

  lemma {:induction false} NoReferencesNoEdits(file: Path, barrel: Barrel, asts: seq<Ast>)
    requires forall i :: 0 <= i < |asts| ==> !Refers(asts[i])
    ensures Splice.CollectAll(ToNodes(file, barrel, asts)) == []
    decreases asts, 0
  {
    if asts != [] {
      NoReferenceNoEdit(file, barrel, asts[0]);
      NoReferencesNoEdits(file, barrel, asts[1..]);
      assert ToNodes(file, barrel, asts)[1..] == ToNodes(file, barrel, asts[1..]);
    }
  }

  /** The edits of every syntax tree fit the splicer. */
  lemma {:induction false} AstIsTree(file: Path, barrel: Barrel, a: Ast)
    requires IsAst(a)
    ensures Splice.IsTree(ToNode(file, barrel, a))
    decreases a
  {
    var n := ToNode(file, barrel, a);
    forall i | 0 <= i < |a.children|
      ensures Splice.IsTree(n.children[i])
      ensures !Refers(a.children[i]) ==> Splice.Collect(n.children[i]) == []
    {
      AstIsTree(file, barrel, a.children[i]);
      if !Refers(a.children[i]) { NoReferenceNoEdit(file, barrel, a.children[i]); }
    }
    assert Splice.AreTrees(n.children);
    KindFits(file, barrel, a);
  }

  /** The node's own edits keep clear of its children's. */
  lemma KindFits(file: Path, barrel: Barrel, a: Ast)
    requires IsAst(a)
    requires forall i :: 0 <= i < |a.children| && !Refers(a.children[i]) ==>
      Splice.Collect(ToNode(file, barrel, a).children[i]) == []
    ensures var n := ToNode(file, barrel, a);
      match n.kind
      case Plain => true
      case Statement(_) =>
        n.start < n.end && forall i :: 0 <= i < |n.children| ==> Splice.Collect(n.children[i]) == []
      case ImportType(argument, _, name, _) =>
        && n.start <= argument.start < argument.end <= name.start < name.end <= n.end
        && forall i :: 0 <= i < |n.children| && Splice.Collect(n.children[i]) != [] ==>
             forall e :: e in Splice.OwnEdits(n) ==> e.end <= n.children[i].start || n.children[i].end <= e.start
  {
  }

  // ----- What the rewritten file says -----

  datatype RewriteResult = RewriteResult(text: string, rewritten: nat, unhandled: seq<Unhandled>)

  /** For every file: the new text is the old one with the edits of all rewritten references
      substituted at once; every reference is rewritten or reported, in the order of the file. */
  method RewriteFile(file: Path, barrel: Barrel, source: string, root: Ast) returns (r: RewriteResult)
    requires IsAst(root) && root.end <= |source|
    ensures Splice.AllWithin(Splice.Collect(ToNode(file, barrel, root)), 0, |source|)
    ensures r.text == Splice.Substitute(source, Splice.Collect(ToNode(file, barrel, root)), 0)
    ensures r.unhandled == UnhandledIn(file, barrel, root)
    ensures r.rewritten + |r.unhandled| == |Referring(NodesOf(root))|
  {
    ReferencesAreCounted(root);
    var progress := Visit(file, barrel, root, Progress([], [], 0));
    assert progress.edits == Splice.Collect(ToNode(file, barrel, root));
    AstIsTree(file, barrel, root);
    Splice.TreeEdits(ToNode(file, barrel, root), |source|);
    var text := Splice.ApplyEdits(source, progress.edits);
    r := RewriteResult(text, progress.rewritten, progress.unhandled);
  }

  /** All nodes of a tree. */
  function NodesOf(a: Ast): seq<Ast>
    decreases a, 1
  {
    [a] + NodesOfAll(a.children)
  }

  function NodesOfAll(asts: seq<Ast>): seq<Ast>
    decreases asts, 0
  {
    if asts == [] then [] else NodesOf(asts[0]) + NodesOfAll(asts[1..])
  }

  /** The nodes that refer to the barrel. */
  function Referring(nodes: seq<Ast>): seq<Ast> {
    if nodes == [] then []
    else (if nodes[0].reference == NoReference then [] else [nodes[0]]) + Referring(nodes[1..])
  }

  lemma {:induction false} ReferringConcat(a: seq<Ast>, b: seq<Ast>)
    ensures |Referring(a + b)| == |Referring(a)| + |Referring(b)|
  {
    var all := a + b;
    if a == [] {
      assert all == b;
    } else {
      ReferringConcat(a[1..], b);
      assert all[0] == a[0];
      assert all[1..] == a[1..] + b;
    }
  }

  /** Each node that refers to the barrel is counted once. */
  lemma {:induction false} ReferencesAreCounted(a: Ast)
    ensures References(a) == |Referring(NodesOf(a))|
    decreases a, 1
  {
    ReferencesInAreCounted(a.children);
    ReferringConcat([a], NodesOfAll(a.children));
  }

  lemma {:induction false} ReferencesInAreCounted(asts: seq<Ast>)
    ensures ReferencesIn(asts) == |Referring(NodesOfAll(asts))|
    decreases asts, 0
  {
    if asts != [] {
      ReferencesAreCounted(asts[0]);
      ReferencesInAreCounted(asts[1..]);
      ReferringConcat(NodesOf(asts[0]), NodesOfAll(asts[1..]));
    }
  }

  /** The edits of the file are exactly those of its nodes. */
  lemma {:induction false} EditsAreOfNodes(file: Path, barrel: Barrel, a: Ast, e: Splice.Edit)
    ensures e in Splice.Collect(ToNode(file, barrel, a))
       <==> exists n :: n in NodesOf(a) && e in Splice.OwnEdits(ToNode(file, barrel, n))
    decreases a, 1
  {
    EditsAreOfAll(file, barrel, a.children, e);
    assert a in NodesOf(a);
  }

  lemma {:induction false} EditsAreOfAll(file: Path, barrel: Barrel, asts: seq<Ast>, e: Splice.Edit)
    ensures e in Splice.CollectAll(ToNodes(file, barrel, asts))
       <==> exists n :: n in NodesOfAll(asts) && e in Splice.OwnEdits(ToNode(file, barrel, n))
    decreases asts, 0
  {
    if asts != [] {
      EditsAreOfNodes(file, barrel, asts[0], e);
      EditsAreOfAll(file, barrel, asts[1..], e);
      assert ToNodes(file, barrel, asts)[1..] == ToNodes(file, barrel, asts[1..]);
    }
  }

  /** The file's reports are exactly those of its nodes, each at the node's place. */
  lemma {:induction false} ReportsAreOfNodes(file: Path, barrel: Barrel, a: Ast, u: Unhandled)
    ensures u in UnhandledIn(file, barrel, a) <==>
      exists n :: n in NodesOf(a) && ReasonOf(file, barrel, n.reference) == Some(u.reason) && n.start == u.start
    decreases a, 1
  {
    ReportsAreOfAll(file, barrel, a.children, u);
    assert NodesOf(a) == [a] + NodesOfAll(a.children);
    assert u in OwnUnhandled(file, barrel, a) <==> ReasonOf(file, barrel, a.reference) == Some(u.reason) && a.start == u.start;
  }

  lemma {:induction false} ReportsAreOfAll(file: Path, barrel: Barrel, asts: seq<Ast>, u: Unhandled)
    ensures u in UnhandledInAll(file, barrel, asts) <==>
      exists n :: n in NodesOfAll(asts) && ReasonOf(file, barrel, n.reference) == Some(u.reason) && n.start == u.start
    decreases asts, 0
  {
    if asts != [] {
      ReportsAreOfNodes(file, barrel, asts[0], u);
      ReportsAreOfAll(file, barrel, asts[1..], u);
      assert NodesOfAll(asts) == NodesOf(asts[0]) + NodesOfAll(asts[1..]);
    }
  }

  // ----- Reading the replacements -----

  /** `import(argument).name`: the specifier and the name, from the texts of the two parts. */
  function ReadImportType(argument: string, name: string): Option<(string, string)> {
    if argument == "" || argument[0] != '\"' || !IsIdentifier(name) then None
    else
      var literal := ReadString(argument[1..]);
      if literal.None? || literal.value.rest != "" then None else Some((literal.value.value, name))
  }

  lemma ImportTypeReadsBackIff(target: string, name: string)
    ensures ReadImportType("\"" + target + "\"", name) == Some((target, name))
       <==> IsPlainTarget(target) && IsIdentifier(name)
  {
    var argument := "\"" + target + "\"";
    assert argument[1..] == target + "\"" + "";
    StringReadsBackIff(target, "");
  }

  /** The edits of a rewritten reference read as what was meant: an import or export as the statements
      of its groups, an import type as the specifier of the module and the name the barrel gives. */
  ghost predicate ReadsAsMeant(file: Path, barrel: Barrel, a: Ast) {
    var edits := Splice.OwnEdits(ToNode(file, barrel, a));
    match a.reference
    case Names(node) =>
      && OutcomeOf(file, barrel, node).Rewritten?
      && |edits| == 1 && edits[0].start == a.start && edits[0].end == a.end
      && ReadStatements(edits[0].text) == Some(ToStatements(node.keyword, OutcomeOf(file, barrel, node).groups))
    case ImportType(argument, Some(part)) =>
      && part.taken in barrel
      && |edits| == 2
      && edits[0].start == argument.start && edits[0].end == argument.end
      && edits[1].start == part.span.start && edits[1].end == part.span.end
      && ReadImportType(edits[0].text, edits[1].text)
      == Some((SpecifierTo(file, barrel[part.taken].module_), barrel[part.taken].name))
    case _ => false
  }

  /** What a rewritten reference takes and binds can be written down. */
  predicate CanBeWritten(file: Path, barrel: Barrel, r: Reference) {
    match r
    case Names(node) => Known(barrel, node.specifiers) && IsWritable(file, barrel, node)
    case ImportType(_, Some(part)) =>
      && part.taken in barrel
      && IsIdentifier(barrel[part.taken].name) && IsPlainTarget(SpecifierTo(file, barrel[part.taken].module_))
    case _ => false
  }

  /** A loader takes the specifiers written for the modules meant. */
  predicate CanBeLoaded(file: Path, barrel: Barrel, r: Reference)
    requires IsBarrel(barrel) && CanBeWritten(file, barrel, r)
  {
    match r
    case Names(node) => TakesLoadable(file, barrel, node)
    case ImportType(_, Some(part)) => IsLoadable(file, barrel[part.taken].module_)
    case _ => false
  }

  /** What a loader reads says what the reference said by way of the barrel: the same bindings, or the
      same module and name. */
  ghost predicate SaysTheSame(file: Path, barrel: Barrel, a: Ast) {
    var edits := Splice.OwnEdits(ToNode(file, barrel, a));
    match a.reference
    case Names(node) =>
      && Known(barrel, node.specifiers) && |edits| == 1 && ReadStatements(edits[0].text).Some?
      && multiset(LoadedAll(file, ReadStatements(edits[0].text).value))
      == multiset(Through(barrel, node.typeOnly, node.specifiers))
    case ImportType(_, Some(part)) =>
      && part.taken in barrel && |edits| == 2 && ReadImportType(edits[0].text, edits[1].text).Some?
      && var read := ReadImportType(edits[0].text, edits[1].text).value;
         LoaderModule(file, read.0) == barrel[part.taken].module_ && read.1 == barrel[part.taken].name
    case _ => false
  }

  /** Every rewritten reference of a file has its edits among the file's; they read as what was meant
      exactly when what it takes and binds can be written down, and then they say the same to a loader
      exactly when it takes each specifier for the module meant. */
  lemma RewrittenSaysTheSame(file: Path, barrel: Barrel, root: Ast, n: Ast)
    requires IsBarrel(barrel)
    requires n in NodesOf(root) && !n.reference.NoReference? && ReasonOf(file, barrel, n.reference).None?
    ensures ReadsAsMeant(file, barrel, n) <==> CanBeWritten(file, barrel, n.reference)
    ensures CanBeWritten(file, barrel, n.reference) ==>
      (SaysTheSame(file, barrel, n) <==> CanBeLoaded(file, barrel, n.reference))
    ensures forall e :: e in Splice.OwnEdits(ToNode(file, barrel, n)) ==> e in Splice.Collect(ToNode(file, barrel, root))
  {
    forall e | e in Splice.OwnEdits(ToNode(file, barrel, n)) ensures e in Splice.Collect(ToNode(file, barrel, root)) {
      EditsAreOfNodes(file, barrel, root, e);
    }
    match n.reference
    case Names(node) =>
      OutcomeMeans(file, barrel, node);
      ReplacementReadsBack(file, barrel, node);
      ReplacementLoadsIff(file, barrel, node);
      assert Splice.OwnEdits(ToNode(file, barrel, n))
          == [Splice.Edit(n.start, n.end, OutcomeOf(file, barrel, node).text)];
    case ImportType(_, Some(part)) =>
      var origin := barrel[part.taken];
      LoadableIff(file, origin.module_);
      ImportTypeReadsBackIff(SpecifierTo(file, origin.module_), origin.name);
  }

  /** The import type `import("./barrel.ts").T`, at any place, of a name the barrel takes from a string
      name: what is written is `import("./m.ts").a-b`. */
  lemma StringTypeExample(at: nat)
    ensures var barrel := BarrelOfT(["repo", "m.ts"], "a-b");
      var argument, span := Splice.Span(at + 7, at + 20), Splice.Span(at + 22, at + 23);
      var a := Ast(at, at + 23, ImportType(argument, Some(NamePart(span, "T"))), []);
      && IsAst(a)
      && Splice.OwnEdits(ToNode(EXAMPLE_FILE, barrel, a))
      == [Splice.Edit(argument.start, argument.end, "\"./m.ts\""), Splice.Edit(span.start, span.end, "a-b")]
      && !ReadsAsMeant(EXAMPLE_FILE, barrel, a)
  {
    assert "m.ts"[0] == 'm' && "./" + "m.ts" == "./m.ts";
    SpecifierBeside("m.ts");
    assert "\"" + "./m.ts" + "\"" == "\"./m.ts\"";
    assert "a-b"[1] == '-' && !IsIdentifierChar('-');
  }
}
