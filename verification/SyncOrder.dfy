/**
 `syncOrder` of `integration/usecase_sync_fixtures.ts`: instance A's sync operations merged
 with the moments the lock was released.  A release is recorded as the length of the op log
 at that moment, so it stands before the op of that index.
 */
module SyncOrder {

  datatype OpKind = MarkDirty | ClearDirty | Push | Pull | Prepare | CommitPush | Fetch | Repair | ControlPlane

  datatype Op = Op(instance: string, kind: OpKind)

  datatype Entry = Kept(kind: OpKind) | Release

  predicate IsKept(op: Op) {
    op.instance == "A" && op.kind != MarkDirty
  }

  /** The release positions are lengths of a log that only grows. */
  predicate NeverBack(releases: seq<nat>) {
    forall i, j :: 0 <= i < j < |releases| ==> releases[i] <= releases[j]
  }

  // ----- What the order says -----

  /** The indices of the kept ops in `[from, end)`. */
  function KeptAt(ops: seq<Op>, from: nat, end: nat): seq<nat>
    requires from <= end <= |ops|
    decreases end
  {
    if from == end then []
    else KeptAt(ops, from, end - 1) + (if IsKept(ops[end - 1]) then [end - 1] else [])
  }

  function Last(kept: seq<nat>): int {
    if kept == [] then -1 else kept[|kept| - 1]
  }

  /** One release entry if some release `r` has `p < r <= q`. */
  ghost function Between(releases: seq<nat>, p: int, q: int): seq<Entry> {
    if exists j :: 0 <= j < |releases| && p < releases[j] <= q then [Release] else []
  }

  predicate AreIndices(ops: seq<Op>, kept: seq<nat>) {
    forall i :: 0 <= i < |kept| ==> kept[i] < |ops|
  }

  /** The entries through the last kept op. */
  ghost function Through(ops: seq<Op>, releases: seq<nat>, kept: seq<nat>): seq<Entry>
    requires AreIndices(ops, kept)
  {
    if kept == [] then []
    else
      var init, last := kept[..|kept| - 1], kept[|kept| - 1];
      Through(ops, releases, init) + Between(releases, Last(init), last) + [Kept(ops[last].kind)]
  }

  /** The kept ops in order; between two of them, before the first and behind the last, one release
      entry exactly when a release lies there. */
  ghost function Merged(ops: seq<Op>, releases: seq<nat>, kept: seq<nat>): seq<Entry>
    requires AreIndices(ops, kept)
  {
    Through(ops, releases, kept) + Between(releases, Last(kept), |ops|)
  }

  lemma {:induction false} KeptAreIndices(ops: seq<Op>, from: nat, end: nat)
    requires from <= end <= |ops|
    ensures AreIndices(ops, KeptAt(ops, from, end)) && Last(KeptAt(ops, from, end)) < end
    ensures forall i :: 0 <= i < |KeptAt(ops, from, end)| ==> from <= KeptAt(ops, from, end)[i] < end
    ensures forall i, j :: 0 <= i < j < |KeptAt(ops, from, end)| ==> KeptAt(ops, from, end)[i] < KeptAt(ops, from, end)[j]
    ensures forall k :: k in KeptAt(ops, from, end) <==> from <= k < end && IsKept(ops[k])
    decreases end
  {
    if from < end {
      KeptAreIndices(ops, from, end - 1);
    }
  }

  // ----- Merging -----

  /** The first `n` releases have been written behind the kept op `p`, as one entry. */
  ghost function Written(releases: seq<nat>, n: nat, p: int): seq<Entry>
    requires n <= |releases|
  {
    if exists j :: 0 <= j < n && p < releases[j] then [Release] else []
  }

  /** Before op `i`: the releases below `upTo` are written. */
  ghost predicate MergedTo(
    ops: seq<Op>, releases: seq<nat>, from: nat, i: nat, upTo: int, next: nat, order: seq<Entry>)
    requires from <= i <= |ops| && next <= |releases|
  {
    var kept := KeptAt(ops, from, i);
    && AreIndices(ops, kept)
    && order == Through(ops, releases, kept) + Written(releases, next, Last(kept))
    && (forall j :: 0 <= j < next ==> releases[j] <= upTo)
  }

  method MergeReleases(ops: seq<Op>, releases: seq<nat>, from: nat) returns (order: seq<Entry>)
    requires from <= |ops| && NeverBack(releases)
    ensures AreIndices(ops, KeptAt(ops, from, |ops|))
    ensures order == Merged(ops, releases, KeptAt(ops, from, |ops|))
  {
    order := [];
    var next := 0;
    KeptAreIndices(ops, from, from);
    for i := from to |ops|
      invariant 0 <= next <= |releases|
      invariant MergedTo(ops, releases, from, i, i - 1, next, order)
      invariant AllAfter(releases, next, Last(KeptAt(ops, from, i)))
    {
      ThroughEndsWithOp(ops, releases, KeptAt(ops, from, i));
      order, next := WriteReleases(
        releases, i, Through(ops, releases, KeptAt(ops, from, i)), Last(KeptAt(ops, from, i)), order, next);
      OpKeeps(ops, releases, from, i, next, order);
      if IsKept(ops[i]) { order := order + [Kept(ops[i].kind)]; }
    }
    ghost var kept := KeptAt(ops, from, |ops|);
    ThroughEndsWithOp(ops, releases, kept);
    order, next := WriteReleases(releases, |ops|, Through(ops, releases, kept), Last(kept), order, next);
    WrittenIsBetween(releases, next, Last(KeptAt(ops, from, |ops|)), |ops|);
  }

  predicate EndsWithOp(t: seq<Entry>) {
    t == [] || t[|t| - 1] != Release
  }

  /** Writes the releases up to `i` behind the entries `t`, which end with the kept op `p`. */
  method WriteReleases(
    releases: seq<nat>, i: nat, ghost t: seq<Entry>, ghost p: int, order0: seq<Entry>, next0: nat)
    returns (order: seq<Entry>, next: nat)
    requires next0 <= |releases| && NeverBack(releases) && EndsWithOp(t)
    requires order0 == t + Written(releases, next0, p) && AllAfter(releases, next0, p)
    ensures next0 <= next <= |releases| && AllAfter(releases, next, i)
    ensures forall j :: next0 <= j < next ==> releases[j] <= i
    ensures order == t + Written(releases, next, p)
  {
    order, next := order0, next0;
    while next < |releases| && releases[next] <= i
      invariant next0 <= next <= |releases|
      invariant forall j :: next0 <= j < next ==> releases[j] <= i
      invariant order == t + Written(releases, next, p)
    {
      OneMoreWritten(releases, next, t, p, order);
      order := WithRelease(order);
      next := next + 1;
    }
    RestIsAfter(releases, next, i);
  }

  function WithRelease(order: seq<Entry>): seq<Entry> {
    if order == [] || order[|order| - 1] != Release then order + [Release] else order
  }

  lemma OneMoreWritten(releases: seq<nat>, next: nat, t: seq<Entry>, p: int, order: seq<Entry>)
    requires next < |releases| && p < releases[next] && EndsWithOp(t)
    requires order == t + Written(releases, next, p)
    ensures WithRelease(order) == t + Written(releases, next + 1, p)
  {
    assert Written(releases, next + 1, p) == [Release];
    if Written(releases, next, p) == [] { assert order == t; }
  }

  /** The releases from `next` on lie behind `p`. */
  ghost predicate AllAfter(releases: seq<nat>, next: nat, p: int) {
    forall j :: next <= j < |releases| ==> p < releases[j]
  }

  lemma RestIsAfter(releases: seq<nat>, next: nat, p: int)
    requires NeverBack(releases) && (next < |releases| ==> p < releases[next])
    ensures AllAfter(releases, next, p)
  {
  }

  lemma ThroughEndsWithOp(ops: seq<Op>, releases: seq<nat>, kept: seq<nat>)
    requires AreIndices(ops, kept)
    ensures EndsWithOp(Through(ops, releases, kept))
  {
  }

  lemma OpKeeps(ops: seq<Op>, releases: seq<nat>, from: nat, i: nat, next: nat, order: seq<Entry>)
    requires from <= i < |ops| && next <= |releases|
    requires MergedTo(ops, releases, from, i, i, next, order)
    requires AllAfter(releases, next, i)
    ensures AllAfter(releases, next, Last(KeptAt(ops, from, i + 1)))
    ensures MergedTo(ops, releases, from, i + 1, i, next, if IsKept(ops[i]) then order + [Kept(ops[i].kind)] else order)
  {
    var kept := KeptAt(ops, from, i);
    KeptAreIndices(ops, from, i + 1);
    if IsKept(ops[i]) {
      WrittenIsBetween(releases, next, Last(kept), i);
      assert (kept + [i])[..|kept|] == kept;
      assert Written(releases, next, i) == [];
      assert order + [Kept(ops[i].kind)] + [] == order + [Kept(ops[i].kind)];
    } else {
      assert kept + [] == kept;
    }
  }

  lemma WrittenIsBetween(releases: seq<nat>, next: nat, p: int, q: int)
    requires next <= |releases|
    requires forall j :: 0 <= j < next ==> releases[j] <= q
    requires AllAfter(releases, next, q)
    ensures Written(releases, next, p) == Between(releases, p, q)
  {
  }

  // ----- The promises -----

  function WithoutReleases(order: seq<Entry>): seq<OpKind> {
    if order == [] then []
    else
      var init, last := order[..|order| - 1], order[|order| - 1];
      WithoutReleases(init) + (if last.Release? then [] else [last.kind])
  }

  function Kinds(ops: seq<Op>, kept: seq<nat>): seq<OpKind>
    requires AreIndices(ops, kept)
  {
    seq(|kept|, i requires 0 <= i < |kept| => ops[kept[i]].kind)
  }

  lemma WithoutReleasesOf(order: seq<Entry>, gap: seq<Entry>)
    requires gap == [] || gap == [Release]
    ensures WithoutReleases(order + gap) == WithoutReleases(order)
  {
    if gap == [] { assert order + gap == order; } else { assert (order + gap)[..|order|] == order; }
  }

  lemma {:induction false} ThroughKeepsOps(ops: seq<Op>, releases: seq<nat>, kept: seq<nat>)
    requires AreIndices(ops, kept)
    ensures WithoutReleases(Through(ops, releases, kept)) == Kinds(ops, kept)
  {
    if kept != [] {
      var init, last := kept[..|kept| - 1], kept[|kept| - 1];
      ThroughKeepsOps(ops, releases, init);
      var gap := Between(releases, Last(init), last);
      WithoutReleasesOf(Through(ops, releases, init), gap);
      var t := Through(ops, releases, kept);
      assert t[..|t| - 1] == Through(ops, releases, init) + gap;
    }
  }

  predicate NoAdjacentReleases(order: seq<Entry>) {
    forall i :: 0 < i < |order| ==> !(order[i - 1].Release? && order[i].Release?)
  }

  lemma {:induction false} ThroughHasNoAdjacent(ops: seq<Op>, releases: seq<nat>, kept: seq<nat>)
    requires AreIndices(ops, kept)
    ensures NoAdjacentReleases(Through(ops, releases, kept))
  {
    if kept != [] {
      var init := kept[..|kept| - 1];
      ThroughHasNoAdjacent(ops, releases, init);
      ThroughEndsWithOp(ops, releases, init);
    }
  }

  /** Without its release entries the order is exactly instance A's operations other than marks, in
      order; and no two release entries stand side by side. */
  lemma MergedKeepsOps(ops: seq<Op>, releases: seq<nat>, kept: seq<nat>)
    requires AreIndices(ops, kept)
    ensures WithoutReleases(Merged(ops, releases, kept)) == Kinds(ops, kept)
    ensures NoAdjacentReleases(Merged(ops, releases, kept))
  {
    ThroughKeepsOps(ops, releases, kept);
    ThroughHasNoAdjacent(ops, releases, kept);
    ThroughEndsWithOp(ops, releases, kept);
    WithoutReleasesOf(Through(ops, releases, kept), Between(releases, Last(kept), |ops|));
  }

  /** Where the `n`-th kept op stands in the order. */
  ghost function PlaceOf(ops: seq<Op>, releases: seq<nat>, kept: seq<nat>, n: nat): nat
    requires AreIndices(ops, kept) && n < |kept|
  {
    |Through(ops, releases, kept[..n + 1])| - 1
  }

  lemma {:induction false} ThroughPrefix(ops: seq<Op>, releases: seq<nat>, kept: seq<nat>, n: nat)
    requires AreIndices(ops, kept) && n <= |kept|
    ensures Through(ops, releases, kept[..n]) <= Through(ops, releases, kept)
    decreases |kept| - n
  {
    if n == |kept| {
      assert kept[..n] == kept;
    } else {
      assert kept[..n + 1][..n] == kept[..n];
      ThroughPrefix(ops, releases, kept, n + 1);
    }
  }

  /** The kept operations are instance A's, but for its marks, in order. */
  lemma {:induction false} KeptIff(ops: seq<Op>, from: nat, end: nat)
    requires from <= end <= |ops|
    ensures forall k: nat :: k in KeptAt(ops, from, end) <==>
      from <= k < end && ops[k].instance == "A" && !ops[k].kind.MarkDirty?
    ensures forall i, j :: 0 <= i < j < |KeptAt(ops, from, end)| ==> KeptAt(ops, from, end)[i] < KeptAt(ops, from, end)[j]
    decreases end
  {
    if from < end {
      KeptIff(ops, from, end - 1);
      var before := KeptAt(ops, from, end - 1);
      assert forall i :: 0 <= i < |before| ==> before[i] in before;
    }
  }

  /** Behind the last kept op stands a release entry exactly when a release lies there. */
  lemma ReleaseStandsAtEnd(ops: seq<Op>, releases: seq<nat>, kept: seq<nat>)
    requires AreIndices(ops, kept)
    ensures var order := Merged(ops, releases, kept);
      order != [] && order[|order| - 1] == Release
      <==> exists j :: 0 <= j < |releases| && Last(kept) < releases[j] <= |ops|
  {
    ThroughEndsWithOp(ops, releases, kept);
  }

  /** Right before a kept op stands a release entry exactly when a release lies between the kept op
      before it and this one. */
  lemma ReleaseStandsBetween(ops: seq<Op>, releases: seq<nat>, kept: seq<nat>, n: nat)
    requires AreIndices(ops, kept) && n < |kept|
    ensures var order := Merged(ops, releases, kept); var at := PlaceOf(ops, releases, kept, n);
      && at < |order| && order[at] == Kept(ops[kept[n]].kind)
      && (at > 0 && order[at - 1] == Release
          <==> exists j :: 0 <= j < |releases| && Last(kept[..n]) < releases[j] <= kept[n])
  {
    ThroughPrefix(ops, releases, kept, n + 1);
    var t := Through(ops, releases, kept[..n + 1]);
    assert kept[..n + 1][..n] == kept[..n];
    ThroughEndsWithOp(ops, releases, kept[..n]);
    assert t <= Merged(ops, releases, kept);
  }
}
