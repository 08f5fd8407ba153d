/**
 How `rewriteSource` of `scripts/unbarrel.ts` turns edits into text.  `visit` walks the
 syntax tree and collects edits with offsets into the original source; the edits are then
 spliced one after the other, the one with the greatest start first.
 */
module Splice {
  import opened Sorting

  datatype Edit = Edit(start: nat, end: nat, text: string)

  datatype Span = Span(start: nat, end: nat)

  /** What a node contributes: nothing, its own replacement (a rewritten statement), or the two
      replacements of an `import("…").Name` type, of its argument and of its leftmost name. */
  datatype Kind =
    | Plain
    | Statement(text: string)
    | ImportType(argument: Span, argumentText: string, name: Span, nameText: string)

  datatype Node = Node(start: nat, end: nat, kind: Kind, children: seq<Node>)

  function OwnEdits(n: Node): seq<Edit> {
    match n.kind
    case Plain => []
    case Statement(text) => [Edit(n.start, n.end, text)]
    case ImportType(argument, argumentText, name, nameText) =>
      [Edit(argument.start, argument.end, argumentText), Edit(name.start, name.end, nameText)]
  }

  /** The edits in the order `visit` pushes them: a node before its children. */
  function Collect(n: Node): seq<Edit>
    decreases n, 1
  {
    OwnEdits(n) + CollectAll(n.children)
  }

  function CollectAll(nodes: seq<Node>): seq<Edit>
    decreases nodes, 0
  {
    if nodes == [] then [] else Collect(nodes[0]) + CollectAll(nodes[1..])
  }

  // ----- Spans of a syntax tree -----

  predicate Apart(a: Edit, b: Edit) {
    a.end <= b.start || b.end <= a.start
  }

  predicate Within(e: Edit, start: nat, end: nat) {
    start <= e.start < e.end <= end
  }

  predicate SpansApart(a: Node, b: Node) {
    a.end <= b.start || b.end <= a.start
  }

  /** Nodes nest.  Subtrees that contribute edits do not overlap each other, nor the parts of
      their parent that are replaced; a replaced statement contributes nothing else.  (Other
      siblings may share a span, as the two identifiers of `{ a }` do.) */
  predicate IsTree(n: Node)
    decreases n, 1
  {
    && n.start <= n.end
    && AreTrees(n.children)
    && (forall i :: 0 <= i < |n.children| ==> n.start <= n.children[i].start && n.children[i].end <= n.end)
    && match n.kind
       case Plain => true
       case Statement(_) =>
         n.start < n.end && forall i :: 0 <= i < |n.children| ==> Collect(n.children[i]) == []
       case ImportType(argument, _, name, _) =>
         && n.start <= argument.start < argument.end <= name.start < name.end <= n.end
         && forall i :: 0 <= i < |n.children| && Collect(n.children[i]) != [] ==>
              forall e :: e in OwnEdits(n) ==> e.end <= n.children[i].start || n.children[i].end <= e.start
  }

  predicate AreTrees(nodes: seq<Node>)
    decreases nodes, 0
  {
    && (forall i :: 0 <= i < |nodes| ==> IsTree(nodes[i]))
    && forall i, j :: 0 <= i < j < |nodes| && Collect(nodes[i]) != [] && Collect(nodes[j]) != [] ==>
         SpansApart(nodes[i], nodes[j])
  }

  predicate PairwiseApart(edits: seq<Edit>) {
    forall i, j :: 0 <= i < j < |edits| ==> Apart(edits[i], edits[j])
  }

  predicate AllWithin(edits: seq<Edit>, start: nat, end: nat) {
    forall i :: 0 <= i < |edits| ==> Within(edits[i], start, end)
  }

  lemma ApartConcat(a: seq<Edit>, b: seq<Edit>)
    requires PairwiseApart(a) && PairwiseApart(b)
    requires forall i, j :: 0 <= i < |a| && 0 <= j < |b| ==> Apart(a[i], b[j])
    ensures PairwiseApart(a + b)
  {
  }

  /** `e` comes from the `k`-th subtree and lies in its span. */
  predicate IsFrom(nodes: seq<Node>, k: nat, e: Edit) {
    k < |nodes| && Collect(nodes[k]) != [] && Within(e, nodes[k].start, nodes[k].end)
  }

  predicate HasSource(nodes: seq<Node>, e: Edit) {
    exists k :: 0 <= k < |nodes| && IsFrom(nodes, k, e)
  }

  predicate AllFrom(nodes: seq<Node>, edits: seq<Edit>) {
    forall j :: 0 <= j < |edits| ==> HasSource(nodes, edits[j])
  }

  /** The edits of every tree are pairwise apart, not empty, and inside its span. */
  lemma {:induction false} CollectApart(n: Node)
    requires IsTree(n)
    ensures PairwiseApart(Collect(n)) && AllWithin(Collect(n), n.start, n.end)
    decreases n, 1
  {
    CollectAllApart(n.children);
    var own, rest := OwnEdits(n), CollectAll(n.children);
    forall j | 0 <= j < |rest|
      ensures Within(rest[j], n.start, n.end)
      ensures forall i :: 0 <= i < |own| ==> Apart(own[i], rest[j])
    {
      assert HasSource(n.children, rest[j]);
      var k :| 0 <= k < |n.children| && IsFrom(n.children, k, rest[j]);
      assert forall i :: 0 <= i < |own| ==> own[i] in own;
    }
    ApartConcat(own, rest);
  }

  lemma {:induction false} CollectAllApart(nodes: seq<Node>)
    requires AreTrees(nodes)
    ensures PairwiseApart(CollectAll(nodes)) && AllFrom(nodes, CollectAll(nodes))
    decreases nodes, 0
  {
    if nodes != [] {
      var first, rest := Collect(nodes[0]), CollectAll(nodes[1..]);
      CollectApart(nodes[0]);
      CollectAllApart(nodes[1..]);
      FirstAndRest(nodes, first, rest);
      ApartConcat(first, rest);
    }
  }

  lemma FirstAndRest(nodes: seq<Node>, first: seq<Edit>, rest: seq<Edit>)
    requires nodes != [] && AreTrees(nodes)
    requires first == Collect(nodes[0]) && AllWithin(first, nodes[0].start, nodes[0].end)
    requires AllFrom(nodes[1..], rest)
    ensures forall i, j :: 0 <= i < |first| && 0 <= j < |rest| ==> Apart(first[i], rest[j])
    ensures AllFrom(nodes, first + rest)
  {
    forall j | 0 <= j < |rest|
      ensures HasSource(nodes, rest[j])
      ensures forall i :: 0 <= i < |first| ==> Apart(first[i], rest[j])
    {
      assert HasSource(nodes[1..], rest[j]);
      var k :| 0 <= k < |nodes[1..]| && IsFrom(nodes[1..], k, rest[j]);
      assert nodes[1..][k] == nodes[k + 1];
      assert IsFrom(nodes, k + 1, rest[j]);
      assert first != [] ==> SpansApart(nodes[0], nodes[k + 1]);
    }
    forall j | 0 <= j < |first| ensures HasSource(nodes, first[j]) {
      assert IsFrom(nodes, 0, first[j]);
    }
  }

  /** Apart, as a property that does not depend on the order: no edit stands twice, and two
      different ones do not overlap. */
  ghost predicate IsEditSet(edits: seq<Edit>) {
    && (forall e :: multiset(edits)[e] <= 1)
    && (forall e, f :: e in edits && f in edits && e != f ==> Apart(e, f))
  }

  lemma {:induction false} ApartIsEditSet(edits: seq<Edit>)
    requires PairwiseApart(edits) && forall i :: 0 <= i < |edits| ==> edits[i].start < edits[i].end
    ensures IsEditSet(edits)
  {
    if edits != [] {
      var rest := edits[1..];
      ApartIsEditSet(rest);
      assert edits == [edits[0]] + rest;
      forall f | f in rest ensures f != edits[0] && Apart(edits[0], f) {
        var j :| 0 <= j < |rest| && rest[j] == f;
        assert Apart(edits[0], edits[j + 1]);
      }
    }
  }

  lemma DistinctAt(edits: seq<Edit>, i: nat, j: nat)
    requires i < j < |edits| && forall e :: multiset(edits)[e] <= 1
    ensures edits[i] != edits[j]
  {
    assert edits == edits[..j] + ([edits[j]] + edits[j + 1..]);
    assert multiset(edits) == multiset(edits[..j]) + multiset([edits[j]] + edits[j + 1..]);
    assert edits[..j][i] in multiset(edits[..j]);
    assert multiset([edits[j]] + edits[j + 1..]) == multiset{edits[j]} + multiset(edits[j + 1..]);
    assert multiset(edits)[edits[j]] <= 1;
  }

  // ----- Substituting all edits at once -----

  /** The edit that starts at `pos`. */
  function EditAt(edits: seq<Edit>, pos: nat): (r: seq<Edit>)
    ensures |r| <= 1 && (r != [] ==> r[0] in edits && r[0].start == pos)
    ensures r == [] ==> forall e :: e in edits ==> e.start != pos
  {
    if edits == [] then [] else if edits[0].start == pos then [edits[0]] else EditAt(edits[1..], pos)
  }

  /** The source from `pos` on, read left to right: where an edit starts its text stands and the
      reading goes on behind its end; every other character stands for itself. */
  function Substitute(source: string, edits: seq<Edit>, pos: nat): string
    requires pos <= |source| && AllWithin(edits, 0, |source|)
    decreases |source| - pos
  {
    if pos == |source| then []
    else
      var at := EditAt(edits, pos);
      if at == [] then [source[pos]] + Substitute(source, edits, pos + 1)
      else
        assert at[0] in edits;
        at[0].text + Substitute(source, edits, at[0].end)
  }

  lemma SubstituteOne(source: string, edits: seq<Edit>, pos: nat)
    requires pos < |source| && AllWithin(edits, 0, |source|)
    requires forall e :: e in edits ==> e.start != pos
    ensures Substitute(source, edits, pos) == [source[pos]] + Substitute(source, edits, pos + 1)
  {
    assert EditAt(edits, pos) == [];
  }

  /** Where no edit starts, the source stands verbatim. */
  lemma {:induction false} SubstituteVerbatim(source: string, edits: seq<Edit>, from: nat, to: nat)
    requires from <= to <= |source| && AllWithin(edits, 0, |source|)
    requires forall e :: e in edits ==> !(from <= e.start < to)
    ensures Substitute(source, edits, from) == source[from..to] + Substitute(source, edits, to)
    decreases |source| - from
  {
    if from < to {
      SubstituteOne(source, edits, from);
      SubstituteVerbatim(source, edits, from + 1, to);
      assert source[from..to] == [source[from]] + source[from + 1..to];
    } else {
      assert source[from..to] == [];
    }
  }

  lemma SubstituteEdit(source: string, edits: seq<Edit>, e: Edit)
    requires AllWithin(edits, 0, |source|) && IsEditSet(edits) && e in edits
    ensures e.start < e.end <= |source|
    ensures Substitute(source, edits, e.start) == e.text + Substitute(source, edits, e.end)
  {
    var at := EditAt(edits, e.start);
    assert at[0] == e;
  }

  // ----- Splicing them one by one -----

  function SpliceOne(text: string, e: Edit): string
    requires e.start <= e.end <= |text|
  {
    text[..e.start] + e.text + text[e.end..]
  }

  predicate StartsLater(a: Edit, b: Edit) {
    a.start >= b.start
  }

  /** Up to `pos` the text is still the source; behind it everything is substituted. */
  ghost predicate SplicedFrom(source: string, edits: seq<Edit>, text: string, pos: nat) {
    && pos <= |source| && AllWithin(edits, 0, |source|)
    && text == source[..pos] + Substitute(source, edits, pos)
  }

  lemma SpliceStep(source: string, edits: seq<Edit>, text: string, pos: nat, e: Edit)
    requires SplicedFrom(source, edits, text, pos) && IsEditSet(edits)
    requires e in edits && e.end <= pos
    requires forall f :: f in edits ==> !(e.end <= f.start < pos)
    ensures |text| >= pos
    ensures SplicedFrom(source, edits, SpliceOne(text, e), e.start)
  {
    SubstituteEdit(source, edits, e);
    SubstituteVerbatim(source, edits, e.end, pos);
    var tail := Substitute(source, edits, pos);
    assert text[..e.start] == source[..e.start];
    assert text[e.end..] == source[e.end..pos] + tail;
  }

  /** Splicing back to front gives what substituting all edits at once gives. */
  method ApplyEdits(source: string, edits: seq<Edit>) returns (text: string)
    requires AllWithin(edits, 0, |source|) && IsEditSet(edits)
    ensures text == Substitute(source, edits, 0)
  {
    var sorted := Sort(StartsLater, edits);
    assert IsOrdering(edits, sorted) by { SortsEdits(edits); }
    text := source;
    ghost var pos := |source|;
    assert source[..|source|] == source;
    for i := 0 to |sorted|
      invariant pos == PosAt(source, sorted, i)
      invariant SplicedFrom(source, edits, text, pos)
    {
      NextIsBelow(source, edits, sorted, i);
      SpliceStep(source, edits, text, pos, sorted[i]);
      text := SpliceOne(text, sorted[i]);
      pos := sorted[i].start;
    }
    NothingBelow(source, edits, sorted);
    SubstituteVerbatim(source, edits, 0, pos);
  }

  /** Where the text is still the source after `i` splices. */
  ghost function PosAt(source: string, sorted: seq<Edit>, i: nat): nat
    requires i <= |sorted|
  {
    if i == 0 then |source| else sorted[i - 1].start
  }

  /** The same edits, later ones first. */
  ghost predicate IsOrdering(edits: seq<Edit>, sorted: seq<Edit>) {
    Sorted(StartsLater, sorted) && multiset(sorted) == multiset(edits)
  }

  lemma SortsEdits(edits: seq<Edit>)
    ensures IsOrdering(edits, Sort(StartsLater, edits))
  {
    assert TotalPreorder(StartsLater);
    SortSorts(StartsLater, edits);
  }

  lemma NextIsBelow(source: string, edits: seq<Edit>, sorted: seq<Edit>, i: nat)
    requires i < |sorted| && IsOrdering(edits, sorted) && IsEditSet(edits) && AllWithin(edits, 0, |source|)
    ensures sorted[i] in edits && sorted[i].end <= PosAt(source, sorted, i)
    ensures forall f :: f in edits ==> !(sorted[i].end <= f.start < PosAt(source, sorted, i))
  {
    assert sorted[i] in multiset(edits);
    var e :| e in edits && e == sorted[i];
    if i > 0 {
      DistinctAt(sorted, i - 1, i);
      assert sorted[i - 1] in multiset(edits);
      assert Apart(sorted[i - 1], sorted[i]);
      assert StartsLater(sorted[i - 1], sorted[i]);
      assert sorted[i - 1].start < sorted[i - 1].end;
    }
    forall f | f in edits ensures !(sorted[i].end <= f.start < PosAt(source, sorted, i)) {
      assert f in multiset(sorted);
      var k :| 0 <= k < |sorted| && sorted[k] == f;
      if k < i - 1 { assert StartsLater(sorted[k], sorted[i - 1]); }
      if i < k { assert StartsLater(sorted[i], sorted[k]); }
    }
  }

  lemma NothingBelow(source: string, edits: seq<Edit>, sorted: seq<Edit>)
    requires IsOrdering(edits, sorted) && AllWithin(edits, 0, |source|)
    ensures forall f :: f in edits ==> PosAt(source, sorted, |sorted|) <= f.start
  {
    forall f | f in edits ensures PosAt(source, sorted, |sorted|) <= f.start {
      assert f in multiset(sorted);
      var k :| 0 <= k < |sorted| && sorted[k] == f;
      if k < |sorted| - 1 { assert StartsLater(sorted[k], sorted[|sorted| - 1]); }
    }
  }

  // ----- The edits of a tree -----

  /** Whatever a syntax tree contributes can be spliced: how many edits there are or how they nest
      does not matter. */
  lemma TreeEdits(root: Node, size: nat)
    requires IsTree(root) && root.end <= size
    ensures AllWithin(Collect(root), 0, size) && IsEditSet(Collect(root))
  {
    CollectApart(root);
    assert forall i :: 0 <= i < |Collect(root)| ==> Within(Collect(root)[i], root.start, root.end);
    ApartIsEditSet(Collect(root));
  }
}
