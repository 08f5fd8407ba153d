/**
 `sortPathMarkRuns` of `integration/usecase_sync_fixtures.ts`: marks of paths that ran in
 parallel land in the op log in any order, so each run of them is sorted in place before
 logs are compared.
 */
module MarkRuns {
  import opened Text
  import opened Sorting

  predicate IsPathMark(op: string) {
    StartsWith(op, "markDirty ")
  }

  /** `[i, j)` is a maximal run of path marks. */
  predicate IsRun(s: seq<string>, i: int, j: int) {
    && 0 <= i < j <= |s|
    && (forall k :: i <= k < j ==> IsPathMark(s[k]))
    && (i == 0 || !IsPathMark(s[i - 1]))
    && (j == |s| || !IsPathMark(s[j]))
  }

  /** The logs differ only by reordering within runs of path marks. */
  ghost predicate Reordered(a: seq<string>, b: seq<string>) {
    && |a| == |b|
    && (forall i :: 0 <= i < |a| && !(IsPathMark(a[i]) && IsPathMark(b[i])) ==> a[i] == b[i])
    && (forall i, j :: IsRun(a, i, j) ==> multiset(a[i..j]) == multiset(b[i..j]))
  }

  predicate RunsSortedTo(s: seq<string>, end: nat) {
    forall i, j :: 0 <= i < j <= end && IsRun(s, i, j) ==> Sorted(StringLe, s[i..j])
  }

  /** `r` is `s` with each run sorted and nothing else moved. */
  ghost predicate NormalForm(s: seq<string>, r: seq<string>) {
    Reordered(s, r) && RunsSortedTo(r, |r|)
  }

  // ----- Reordering within runs is an equivalence -----

  lemma SameMarks(a: seq<string>, b: seq<string>)
    requires Reordered(a, b)
    ensures forall i :: 0 <= i < |a| ==> (IsPathMark(a[i]) <==> IsPathMark(b[i]))
    ensures forall i, j :: IsRun(a, i, j) <==> IsRun(b, i, j)
  {
  }

  lemma ReorderedReflexive(a: seq<string>)
    ensures Reordered(a, a)
  {
  }

  lemma ReorderedSymmetric(a: seq<string>, b: seq<string>)
    requires Reordered(a, b)
    ensures Reordered(b, a)
  {
    SameMarks(a, b);
  }

  lemma ReorderedTransitive(a: seq<string>, b: seq<string>, c: seq<string>)
    requires Reordered(a, b) && Reordered(b, c)
    ensures Reordered(a, c)
  {
    SameMarks(a, b);
    SameMarks(b, c);
  }

  // ----- Finding runs -----

  /** Every path mark lies in a maximal run. */
  lemma RunAround(s: seq<string>, k: nat) returns (i: nat, j: nat)
    requires k < |s| && IsPathMark(s[k])
    ensures i <= k < j && IsRun(s, i, j)
  {
    i, j := k, k + 1;
    while i > 0 && IsPathMark(s[i - 1])
      invariant i <= k && forall x :: i <= x <= k ==> IsPathMark(s[x])
    {
      i := i - 1;
    }
    while j < |s| && IsPathMark(s[j])
      invariant k < j <= |s| && forall x :: i <= x < j ==> IsPathMark(s[x])
    {
      j := j + 1;
    }
  }

  /** No run reaches over a place where one cannot go on. */
  predicate IsBoundary(s: seq<string>, at: nat) {
    at <= |s| && (at == 0 || at == |s| || !IsPathMark(s[at - 1]) || !IsPathMark(s[at]))
  }

  // ----- The canonical form -----

  lemma NormalRunsAgree(a: seq<string>, b: seq<string>, i: nat, j: nat)
    requires Reordered(a, b) && RunsSortedTo(a, |a|) && RunsSortedTo(b, |b|) && IsRun(a, i, j)
    ensures a[i..j] == b[i..j]
  {
    SameMarks(a, b);
    StringLeOrders();
    assert IsRun(b, i, j);
    SortedIsUnique(StringLe, a[i..j], b[i..j]);
  }

  /** A log has at most one normal form. */
  lemma NormalIsUnique(a: seq<string>, b: seq<string>)
    requires Reordered(a, b) && RunsSortedTo(a, |a|) && RunsSortedTo(b, |b|)
    ensures a == b
  {
    forall k | 0 <= k < |a| ensures a[k] == b[k] {
      if IsPathMark(a[k]) {
        var i, j := RunAround(a, k);
        NormalRunsAgree(a, b, i, j);
        assert a[i..j][k - i] == b[i..j][k - i];
      }
    }
  }

  /** Two logs get the same normal form exactly when they differ only by reordering within runs. */
  lemma NormalFormIsCanonical(a: seq<string>, b: seq<string>, ra: seq<string>, rb: seq<string>)
    requires NormalForm(a, ra) && NormalForm(b, rb)
    ensures ra == rb <==> Reordered(a, b)
  {
    ReorderedSymmetric(b, rb);
    if ra == rb {
      ReorderedTransitive(a, ra, b);
    }
    if Reordered(a, b) {
      ReorderedSymmetric(a, ra);
      ReorderedTransitive(ra, a, b);
      ReorderedTransitive(ra, b, rb);
      NormalIsUnique(ra, rb);
    }
  }

  /** Normalising again changes nothing. */
  lemma NormalFormIsIdempotent(s: seq<string>, r: seq<string>, again: seq<string>)
    requires NormalForm(s, r) && NormalForm(r, again)
    ensures again == r
  {
    NormalIsUnique(r, again);
  }

  lemma {:induction false} ReorderedPermutes(a: seq<string>, b: seq<string>)
    requires Reordered(a, b)
    ensures multiset(a) == multiset(b)
    decreases |a|
  {
    if a != [] {
      var n := |a|;
      SameMarks(a, b);
      if IsPathMark(a[n - 1]) {
        var i, j := RunAround(a, n - 1);
        assert a == a[..i] + a[i..j] && b == b[..i] + b[i..j];
        PrefixReordered(a, b, i);
        ReorderedPermutes(a[..i], b[..i]);
      } else {
        assert a == a[..n - 1] + [a[n - 1]] && b == b[..n - 1] + [b[n - 1]];
        PrefixReordered(a, b, n - 1);
        ReorderedPermutes(a[..n - 1], b[..n - 1]);
      }
    }
  }

  lemma PrefixReordered(a: seq<string>, b: seq<string>, n: nat)
    requires Reordered(a, b) && IsBoundary(a, n)
    ensures Reordered(a[..n], b[..n])
  {
    forall i, j | IsRun(a[..n], i, j) ensures multiset(a[..n][i..j]) == multiset(b[..n][i..j]) {
      assert forall k :: i <= k < j ==> a[..n][k] == a[k];
      assert i == 0 || a[..n][i - 1] == a[i - 1];
      assert j < n ==> a[..n][j] == a[j];
      assert IsRun(a, i, j);
      assert a[..n][i..j] == a[i..j] && b[..n][i..j] == b[i..j];
    }
  }

  // ----- In place -----

  /** `splice` of as many elements as it deletes. */
  method Splice(ops: array<string>, start: nat, items: seq<string>)
    requires start + |items| <= ops.Length
    modifies ops
    ensures ops[..] == old(ops[..start]) + items + old(ops[start + |items|..])
  {
    for k := 0 to |items|
      invariant ops[..] == old(ops[..start]) + items[..k] + old(ops[start + k..])
    {
      ghost var before := ops[..];
      ops[start + k] := items[k];
      assert ops[..] == before[start + k := items[k]];
      assert old(ops[start + k..]) == [old(ops[start + k])] + old(ops[start + k + 1..]);
      assert items[..k + 1] == items[..k] + [items[k]];
    }
    assert items[..|items|] == items;
  }

  ghost predicate NormalTo(s: seq<string>, now: seq<string>, at: nat) {
    Reordered(s, now) && IsBoundary(now, at) && RunsSortedTo(now, at)
  }

  lemma SortedRunKeeps(s: seq<string>, now: seq<string>, start: nat, end: nat, sorted: seq<string>)
    requires NormalTo(s, now, start) && IsRun(now, start, end) && sorted == Sort(StringLe, now[start..end])
    ensures |sorted| == end - start
    ensures NormalTo(s, now[..start] + sorted + now[end..], end)
  {
    StringLeOrders();
    SortSorts(StringLe, now[start..end]);
    var next := now[..start] + sorted + now[end..];
    assert next[start..end] == sorted && next[..start] == now[..start] && next[end..] == now[end..];
    forall k | start <= k < end ensures IsPathMark(next[k]) {
      assert next[k] == sorted[k - start];
      assert sorted[k - start] in multiset(sorted);
      assert sorted[k - start] in now[start..end];
    }
    OneRunReordered(now, next, start, end);
    ReorderedTransitive(s, now, next);
    SameMarks(now, next);
    RunsStaySorted(now, next, start, end);
  }

  lemma RunsStaySorted(now: seq<string>, next: seq<string>, start: nat, end: nat)
    requires RunsSortedTo(now, start) && IsRun(now, start, end) && |next| == |now|
    requires next[..start] == now[..start] && Sorted(StringLe, next[start..end])
    requires forall i, j :: IsRun(now, i, j) <==> IsRun(next, i, j)
    ensures RunsSortedTo(next, end)
  {
    forall i, j | 0 <= i < j <= end && IsRun(next, i, j) ensures Sorted(StringLe, next[i..j]) {
      RunsMeet(now, i, j, start, end);
      if i != start {
        assert next[i..j] == next[..start][i..j] == now[..start][i..j] == now[i..j];
      }
    }
  }

  /** Two maximal runs are the same or apart. */
  lemma RunsMeet(s: seq<string>, i: nat, j: nat, start: nat, end: nat)
    requires IsRun(s, i, j) && IsRun(s, start, end)
    ensures (i == start && j == end) || j < start || end < i
  {
  }

  lemma OneRunReordered(now: seq<string>, next: seq<string>, start: nat, end: nat)
    requires IsRun(now, start, end) && |next| == |now|
    requires next[..start] == now[..start] && next[end..] == now[end..]
    requires multiset(next[start..end]) == multiset(now[start..end])
    requires forall k :: start <= k < end ==> IsPathMark(next[k])
    ensures Reordered(now, next)
  {
    forall k | 0 <= k < |now| && !(start <= k < end) ensures now[k] == next[k] {
      if k < start {
        assert now[..start][k] == next[..start][k];
      } else {
        assert now[end..][k - end] == next[end..][k - end];
      }
    }
    forall i, j | IsRun(now, i, j) ensures multiset(now[i..j]) == multiset(next[i..j]) {
      RunsMeet(now, i, j, start, end);
      if i != start {
        assert now[i..j] == next[i..j];
      }
    }
  }

  method RunEnd(ops: array<string>, start: nat) returns (end: nat)
    requires start < ops.Length && IsPathMark(ops[start]) && (start == 0 || !IsPathMark(ops[start - 1]))
    ensures IsRun(ops[..], start, end)
  {
    end := start;
    while end < ops.Length && IsPathMark(ops[end])
      invariant start <= end <= ops.Length
      invariant forall k :: start <= k < end ==> IsPathMark(ops[k])
    {
      end := end + 1;
    }
  }

  method SortRunAt(ops: array<string>, start: nat, ghost s: seq<string>) returns (end: nat)
    requires start < ops.Length && IsPathMark(ops[start]) && NormalTo(s, ops[..], start)
    modifies ops
    ensures start < end <= ops.Length && NormalTo(s, ops[..], end)
  {
    ghost var now := ops[..];
    end := RunEnd(ops, start);
    SortedRunKeeps(s, now, start, end, Sort(StringLe, now[start..end]));
    Splice(ops, start, Sort(StringLe, ops[start..end]));
    assert ops[..] == now[..start] + Sort(StringLe, now[start..end]) + now[end..];
  }

  /** The log ends as its normal form. */
  method SortPathMarkRuns(ops: array<string>)
    modifies ops
    ensures NormalForm(old(ops[..]), ops[..])
  {
    ghost var s := ops[..];
    ReorderedReflexive(s);
    var start := 0;
    while start < ops.Length
      invariant 0 <= start <= ops.Length && NormalTo(s, ops[..], start)
    {
      if !IsPathMark(ops[start]) {
        SkipKeeps(ops[..], start);
        start := start + 1;
      } else {
        start := SortRunAt(ops, start, s);
      }
    }
  }

  lemma SkipKeeps(now: seq<string>, start: nat)
    requires start < |now| && !IsPathMark(now[start]) && RunsSortedTo(now, start)
    ensures IsBoundary(now, start + 1) && RunsSortedTo(now, start + 1)
  {
  }
}
