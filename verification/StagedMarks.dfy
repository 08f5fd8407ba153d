/**
 The check of `integration/usecase_sync_fixtures.ts` that the units of work of a row's use
 cases staged exactly the marks the row made: which units count, and whether what they
 staged is what was observed, in order.
 */
module StagedMarks {
  import opened Options
  import opened Text
  import opened Sorting
  import opened LegacyUnits

  // ----- Which units count -----

  /** Some use case encloses the unit. */
  ghost predicate IsNested(units: seq<UnitOfWork>, u: nat)
    requires AreUnits(units) && u < |units|
  {
    exists a: nat :: a < |units| && a != u && units[a].isUseCase && Holds(units, a, u)
  }

  ghost predicate IsOutermost(units: seq<UnitOfWork>, u: nat)
    requires AreUnits(units)
  {
    u < |units| && units[u].isUseCase && !IsNested(units, u)
  }

  /** The unit's marks are counted: it has a hook, and no use case around it. */
  ghost predicate IsCounted(units: seq<UnitOfWork>, t: nat)
    requires AreUnits(units)
  {
    IsOutermost(units, t) && units[t].hook.Some?
  }

  method Nested(units: seq<UnitOfWork>, unit: nat) returns (nested: bool)
    requires AreUnits(units) && unit < |units|
    ensures nested == IsNested(units, unit)
  {
    var parent := units[unit].parent;
    ghost var below: nat := unit;
    while parent.Some?
      invariant below <= unit && parent == units[below].parent
      invariant forall a: nat :: a < |units| && a != unit && units[a].isUseCase && Holds(units, a, unit) ==>
        a != below && Holds(units, a, below)
      invariant forall a: nat :: a < |units| && Holds(units, a, below) ==> Holds(units, a, unit)
      decreases below
    {
      if units[parent.value].isUseCase {
        assert Holds(units, parent.value, below);
        return true;
      }
      below := parent.value;
      parent := units[parent.value].parent;
    }
    return false;
  }

  /** The units that count, below an index. */
  ghost function CountedBelow(units: seq<UnitOfWork>, n: nat): (r: seq<nat>)
    requires AreUnits(units) && n <= |units|
    ensures forall t: nat :: t in r <==> t < n && IsCounted(units, t)
    ensures forall i :: 0 <= i < |r| ==> r[i] < n
    ensures forall i, j :: 0 <= i < j < |r| ==> r[i] < r[j]
  {
    if n == 0 then []
    else CountedBelow(units, n - 1) + (if IsCounted(units, n - 1) then [n - 1] else [])
  }

  /** The use cases that count, in the order captured. */
  method OutermostUseCaseUnits(units: seq<UnitOfWork>) returns (outermost: seq<nat>)
    requires AreUnits(units)
    ensures outermost == CountedBelow(units, |units|)
  {
    outermost := [];
    for u := 0 to |units|
      invariant outermost == CountedBelow(units, u)
    {
      var nested := Nested(units, u);
      if units[u].isUseCase && units[u].hook.Some? && !nested {
        outermost := outermost + [u];
      }
    }
  }

  /** The use case around `u`, or `u` itself, that no use case encloses; none when there is no use
      case at all. */
  function OutermostUse(units: seq<UnitOfWork>, u: nat): (r: Option<nat>)
    requires AreUnits(units) && u < |units|
    ensures r.Some? ==> r.value <= u
    decreases u
  {
    var above := if units[u].parent.Some? then OutermostUse(units, units[u].parent.value) else None;
    if above.Some? then above else if units[u].isUseCase then Some(u) else None
  }

  lemma {:induction false} UseCaseHasOutermost(units: seq<UnitOfWork>, a: nat, u: nat)
    requires AreUnits(units) && u < |units| && Holds(units, a, u) && a < |units| && units[a].isUseCase
    ensures OutermostUse(units, u).Some?
    decreases u
  {
    if a != u { UseCaseHasOutermost(units, a, units[u].parent.value); }
  }

  lemma {:induction false} OutermostIsUse(units: seq<UnitOfWork>, u: nat)
    requires AreUnits(units) && u < |units| && OutermostUse(units, u).Some?
    ensures var t := OutermostUse(units, u).value; t <= u && units[t].isUseCase && Holds(units, t, u)
    decreases u
  {
    if units[u].parent.Some? && OutermostUse(units, units[u].parent.value).Some? {
      OutermostIsUse(units, units[u].parent.value);
    }
  }

  lemma NestedIff(units: seq<UnitOfWork>, u: nat)
    requires AreUnits(units) && u < |units|
    ensures IsNested(units, u) <==> units[u].parent.Some? && OutermostUse(units, units[u].parent.value).Some?
  {
    if IsNested(units, u) {
      var a: nat :| a < |units| && a != u && units[a].isUseCase && Holds(units, a, u);
      UseCaseHasOutermost(units, a, units[u].parent.value);
    }
    if units[u].parent.Some? && OutermostUse(units, units[u].parent.value).Some? {
      OutermostIsUse(units, units[u].parent.value);
      assert Holds(units, OutermostUse(units, units[u].parent.value).value, u);
    }
  }

  lemma {:induction false} OneOutermost(units: seq<UnitOfWork>, u: nat, t: nat)
    requires AreUnits(units) && u < |units|
    ensures IsOutermost(units, t) && Holds(units, t, u) <==> OutermostUse(units, u) == Some(t)
    decreases u
  {
    NestedIff(units, u);
    if units[u].parent.Some? {
      OneOutermost(units, units[u].parent.value, t);
    }
    if OutermostUse(units, u).Some? { OutermostIsUse(units, u); }
  }

  /** A change staged on a unit rolls up into exactly one unit that counts, the outermost use case
      around it, when there is one and the unit has a hook; and into none otherwise. */
  lemma CountedExactlyOnce(units: seq<UnitOfWork>, u: nat, t: nat)
    requires AreUnits(units) && u < |units|
    ensures IsCounted(units, t) && Holds(units, t, u) <==> OutermostUse(units, u) == Some(t) && units[u].hook.Some?
    ensures units[u].isUseCase ==> OutermostUse(units, u).Some?
  {
    OneOutermost(units, u, t);
    if OutermostUse(units, u) == Some(t) {
      OutermostIsUse(units, u);
      HoldsIsBefore(units, t, u);
    }
  }

  /** What the units at these indices staged. */
  function StagedBy(units: seq<UnitOfWork>, at: seq<nat>): (r: seq<seq<string>>)
    requires forall i :: 0 <= i < |at| ==> at[i] < |units|
    ensures |r| == |at| && forall i :: 0 <= i < |r| ==> r[i] == units[at[i]].staged
  {
    seq(|at|, i requires 0 <= i < |at| => units[at[i]].staged)
  }

  // ----- Marks in order -----

  /** `places` says where in `s` the marks stand, one behind the other. */
  ghost predicate Embeds(places: seq<nat>, marks: seq<string>, s: seq<string>) {
    && |places| == |marks|
    && (forall i :: 0 <= i < |marks| ==> places[i] < |s| && s[places[i]] == marks[i])
    && (forall i, j :: 0 <= i < j < |marks| ==> places[i] < places[j])
  }

  ghost predicate IsSubsequence(marks: seq<string>, s: seq<string>) {
    exists places :: Embeds(places, marks, s)
  }

  /** `indexOf` from an index on. */
  method IndexOf(s: seq<string>, mark: string, from: nat) returns (at: int)
    ensures at == -1 || (from <= at < |s| && s[at] == mark)
    ensures at == -1 ==> forall k :: from <= k < |s| ==> s[k] != mark
    ensures at != -1 ==> forall k :: from <= k < at ==> s[k] != mark
  {
    at := from;
    while at < |s|
      invariant from <= at && forall k :: from <= k < at && k < |s| ==> s[k] != mark
    {
      if s[at] == mark { return; }
      at := at + 1;
    }
    at := -1;
  }

  /** No embedding of the marks ends before `from`, the place behind the last one found. */
  ghost predicate Earliest(places: seq<nat>, marks: seq<string>, s: seq<string>, from: nat) {
    && Embeds(places, marks, s)
    && from == (if marks == [] then 0 else places[|marks| - 1] + 1)
    && forall other :: Embeds(other, marks, s) && marks != [] ==> from <= other[|marks| - 1] + 1
  }

  lemma FoundIsEarliest(places: seq<nat>, marks: seq<string>, s: seq<string>, from: nat, mark: string, at: nat)
    requires Earliest(places, marks, s, from)
    requires from <= at < |s| && s[at] == mark && forall k :: from <= k < at ==> s[k] != mark
    ensures Earliest(places + [at], marks + [mark], s, at + 1)
  {
    var more := marks + [mark];
    forall other | Embeds(other, more, s) ensures at + 1 <= other[|more| - 1] + 1 {
      FitsBehind(places, marks, s, from, mark, other);
    }
  }

  /** The last mark of any embedding stands at `from` or behind it. */
  lemma FitsBehind(
    places: seq<nat>, marks: seq<string>, s: seq<string>, from: nat, mark: string, other: seq<nat>)
    requires Earliest(places, marks, s, from) && Embeds(other, marks + [mark], s)
    ensures from <= other[|marks|] < |s| && s[other[|marks|]] == mark
  {
    var init := other[..|marks|];
    assert forall i :: 0 <= i < |marks| ==> (marks + [mark])[i] == marks[i];
    assert Embeds(init, marks, s);
    if marks != [] {
      assert init[|marks| - 1] == other[|marks| - 1] < other[|marks|];
    }
    assert (marks + [mark])[|marks|] == mark;
  }

  lemma NotFoundNotEmbedded(places: seq<nat>, marks: seq<string>, s: seq<string>, from: nat, mark: string)
    requires Earliest(places, marks, s, from) && forall k :: from <= k < |s| ==> s[k] != mark
    ensures !IsSubsequence(marks + [mark], s)
  {
    forall other ensures !Embeds(other, marks + [mark], s) {
      if Embeds(other, marks + [mark], s) {
        FitsBehind(places, marks, s, from, mark, other);
      }
    }
  }

  lemma PrefixEmbeds(marks: seq<string>, s: seq<string>, n: nat)
    requires n <= |marks| && IsSubsequence(marks, s)
    ensures IsSubsequence(marks[..n], s)
  {
    var places :| Embeds(places, marks, s);
    assert Embeds(places[..n], marks[..n], s);
  }

  /** Taking for each mark the first place behind the last one finds an order whenever there is one:
      `placed` marks fit in, and one more would not. */
  method PlaceInOrder(marks: seq<string>, s: seq<string>) returns (placed: nat)
    ensures placed <= |marks| && IsSubsequence(marks[..placed], s)
    ensures placed < |marks| ==> !IsSubsequence(marks[..placed + 1], s)
    ensures placed == |marks| <==> IsSubsequence(marks, s)
  {
    var from: nat := 0;
    ghost var places: seq<nat> := [];
    placed := 0;
    while placed < |marks|
      invariant placed <= |marks| && Earliest(places, marks[..placed], s, from)
    {
      var at := IndexOf(s, marks[placed], from);
      assert marks[..placed + 1] == marks[..placed] + [marks[placed]];
      if at == -1 {
        NotFoundNotEmbedded(places, marks[..placed], s, from, marks[placed]);
        if IsSubsequence(marks, s) { PrefixEmbeds(marks, s, placed + 1); }
        return;
      }
      FoundIsEarliest(places, marks[..placed], s, from, marks[placed], at);
      places := places + [at];
      from := at + 1;
      placed := placed + 1;
    }
    assert marks[..placed] == marks;
  }

  // ----- The whole check -----

  datatype Verdict = Passed | NotObserved(mark: string) | MarksDiffer | OutOfOrder(mark: string)

  function Marks(ops: seq<string>): seq<string> {
    if ops == [] then []
    else
      var init, last := Marks(ops[..|ops| - 1]), ops[|ops| - 1];
      if StartsWith(last, "markDirty") then init + [last] else init
  }

  /** The marks are the operations that start so, in order. */
  lemma {:induction false} MarksConcat(a: seq<string>, b: seq<string>)
    ensures Marks(a + b) == Marks(a) + Marks(b)
    ensures |b| == 1 ==> Marks(b) == if "markDirty" <= b[0] then b else []
    decreases |b|
  {
    if b == [] {
      assert a + b == a;
    } else {
      MarksConcat(a, b[..|b| - 1]);
      assert (a + b)[..|a + b| - 1] == a + b[..|b| - 1] && (a + b)[|a + b| - 1] == b[|b| - 1];
      if |b| == 1 { assert b[..0] == [] && b == [b[0]]; }
    }
  }

  function Flat(lists: seq<seq<string>>): seq<string> {
    if lists == [] then [] else lists[0] + Flat(lists[1..])
  }

  /** `s` without the first `mark`. */
  function Without(s: seq<string>, mark: string): seq<string> {
    if s == [] then []
    else if s[0] == mark then s[1..]
    else [s[0]] + Without(s[1..], mark)
  }

  function WithoutAll(s: seq<string>, marks: seq<string>): seq<string> {
    if marks == [] then s
    else Without(WithoutAll(s, marks[..|marks| - 1]), marks[|marks| - 1])
  }

  lemma WithoutSkips(s: seq<string>, mark: string)
    requires s != [] && s[0] != mark
    ensures Without(s, mark) == [s[0]] + Without(s[1..], mark)
  {
  }

  lemma {:induction false} SpliceIsWithout(s: seq<string>, mark: string, at: nat)
    requires at < |s| && s[at] == mark && forall k :: 0 <= k < at ==> s[k] != mark
    ensures s[..at] + s[at + 1..] == Without(s, mark)
  {
    if at > 0 {
      SpliceIsWithout(s[1..], mark, at - 1);
      WithoutSkips(s, mark);
      assert s[..at] == [s[0]] + s[1..][..at - 1];
      assert s[1..][at..] == s[at + 1..];
      assert s[..at] + s[at + 1..] == [s[0]] + (s[1..][..at - 1] + s[1..][at..]);
    }
  }

  lemma SpliceCounts(s: seq<string>, at: nat)
    requires at < |s|
    ensures multiset(s) == multiset(s[..at] + s[at + 1..]) + multiset{s[at]}
  {
    assert s == s[..at] + ([s[at]] + s[at + 1..]);
  }

  /** The first `i` declared marks are taken out. */
  ghost predicate TakenOut(observed: seq<string>, outside: seq<string>, i: nat, rest: seq<string>)
    requires i <= |outside|
  {
    && rest == WithoutAll(observed, outside[..i])
    && multiset(observed) == multiset(rest) + multiset(outside[..i])
  }

  lemma TakeOneOut(observed: seq<string>, outside: seq<string>, i: nat, rest: seq<string>, at: nat)
    requires i < |outside| && TakenOut(observed, outside, i, rest)
    requires at < |rest| && rest[at] == outside[i] && forall k :: 0 <= k < at ==> rest[k] != outside[i]
    ensures TakenOut(observed, outside, i + 1, rest[..at] + rest[at + 1..])
  {
    assert outside[..i + 1] == outside[..i] + [outside[i]] && outside[..i + 1][..i] == outside[..i];
    SpliceIsWithout(rest, outside[i], at);
    SpliceCounts(rest, at);
  }

  lemma MissingIsTooMany(observed: seq<string>, outside: seq<string>, i: nat, rest: seq<string>)
    requires i < |outside| && TakenOut(observed, outside, i, rest) && outside[i] !in rest
    ensures !(multiset(outside) <= multiset(observed))
  {
    var mark := outside[i];
    assert mark !in multiset(rest);
    assert outside == outside[..i] + ([mark] + outside[i + 1..]);
    assert multiset(outside) == multiset(outside[..i]) + multiset([mark] + outside[i + 1..]);
    assert mark in multiset([mark] + outside[i + 1..]);
    assert multiset(outside)[mark] > multiset(observed)[mark];
  }

  /** The declared marks before it are there, and with it they are not, each as often. */
  ghost predicate IsFirstMissing(observed: seq<string>, outside: seq<string>, i: nat, mark: string) {
    && i < |outside| && outside[i] == mark
    && multiset(outside[..i]) <= multiset(observed) && !(multiset(outside[..i + 1]) <= multiset(observed))
  }

  lemma PrefixIsThere(observed: seq<string>, outside: seq<string>, i: nat, rest: seq<string>)
    requires i < |outside| && TakenOut(observed, outside, i, rest) && outside[i] !in rest
    ensures multiset(outside[..i]) <= multiset(observed) && !(multiset(outside[..i + 1]) <= multiset(observed))
  {
    var mark := outside[i];
    assert mark !in multiset(rest);
    assert outside[..i + 1] == outside[..i] + [mark];
    assert multiset(outside[..i + 1])[mark] > multiset(observed)[mark];
  }

  /** Declared marks are taken out one by one; the first that is not there is reported. */
  method TakeOut(observed: seq<string>, outside: seq<string>) returns (rest: seq<string>, missing: Option<string>)
    ensures missing.None? <==> multiset(outside) <= multiset(observed)
    ensures missing.None? ==>
      rest == WithoutAll(observed, outside) && multiset(observed) == multiset(rest) + multiset(outside)
    ensures missing.Some? ==> exists i: nat :: IsFirstMissing(observed, outside, i, missing.value)
  {
    rest := observed;
    for i := 0 to |outside|
      invariant TakenOut(observed, outside, i, rest)
    {
      var at := IndexOf(rest, outside[i], 0);
      if at == -1 {
        MissingIsTooMany(observed, outside, i, rest);
        PrefixIsThere(observed, outside, i, rest);
        assert IsFirstMissing(observed, outside, i, outside[i]);
        return rest, Some(outside[i]);
      }
      TakeOneOut(observed, outside, i, rest, at);
      rest := rest[..at] + rest[at + 1..];
    }
    assert outside[..|outside|] == outside;
    missing := None;
  }

  ghost predicate AllInOrder(perUnit: seq<seq<string>>, s: seq<string>) {
    forall i :: 0 <= i < |perUnit| ==> IsSubsequence(perUnit[i], s)
  }

  /** The units before it are in order, and of its own marks those before this one. */
  ghost predicate IsFirstOutOfOrder(perUnit: seq<seq<string>>, s: seq<string>, i: nat, k: nat) {
    && i < |perUnit| && AllInOrder(perUnit[..i], s) && k < |perUnit[i]|
    && IsSubsequence(perUnit[i][..k], s) && !IsSubsequence(perUnit[i][..k + 1], s)
  }

  method CheckOrders(perUnit: seq<seq<string>>, s: seq<string>) returns (v: Verdict)
    ensures v.Passed? <==> AllInOrder(perUnit, s)
    ensures !v.Passed? ==> exists i: nat, k: nat :: IsFirstOutOfOrder(perUnit, s, i, k) && v == OutOfOrder(perUnit[i][k])
  {
    for i := 0 to |perUnit|
      invariant AllInOrder(perUnit[..i], s)
    {
      var placed := PlaceInOrder(perUnit[i], s);
      if placed < |perUnit[i]| {
        assert IsFirstOutOfOrder(perUnit, s, i, placed);
        return OutOfOrder(perUnit[i][placed]);
      }
    }
    return Passed;
  }

  /** The observed marks are those the units that count staged and those declared outside the use
      cases, each as often as it was made; and (unless marks ran in parallel) each unit's marks
      stand, in the order it staged them, among those left once the declared ones are taken out. */
  ghost predicate IsFullyStaged(ops: seq<string>, outside: seq<string>, perUnit: seq<seq<string>>, parallel: bool) {
    && multiset(Marks(ops)) == multiset(Flat(perUnit)) + multiset(outside)
    && (parallel || AllInOrder(perUnit, WithoutAll(Marks(ops), outside)))
  }

  method StagedByUnits(units: seq<UnitOfWork>, at: seq<nat>) returns (perUnit: seq<seq<string>>)
    requires forall i :: 0 <= i < |at| ==> at[i] < |units|
    ensures perUnit == StagedBy(units, at)
  {
    perUnit := [];
    for i := 0 to |at|
      invariant perUnit == StagedBy(units, at[..i])
    {
      assert at[..i + 1] == at[..i] + [at[i]];
      perUnit := perUnit + [units[at[i]].staged];
    }
    assert at[..|at|] == at;
  }

  method AssertUnitsStagedTheirMarks(
    ops: seq<string>, outside: seq<string>, units: seq<UnitOfWork>, parallel: bool) returns (v: Verdict)
    requires AreUnits(units)
    ensures v.Passed? <==> IsFullyStaged(ops, outside, StagedBy(units, CountedBelow(units, |units|)), parallel)
    ensures v.NotObserved? <==> !(multiset(outside) <= multiset(Marks(ops)))
    ensures v.NotObserved? ==> exists i: nat :: IsFirstMissing(Marks(ops), outside, i, v.mark)
    ensures v.MarksDiffer? ==>
      multiset(Marks(ops)) != multiset(Flat(StagedBy(units, CountedBelow(units, |units|)))) + multiset(outside)
    ensures v.OutOfOrder? ==> !parallel && exists i: nat, k: nat ::
      var perUnit := StagedBy(units, CountedBelow(units, |units|));
      IsFirstOutOfOrder(perUnit, WithoutAll(Marks(ops), outside), i, k) && v.mark == perUnit[i][k]
  {
    var inUseCase, missing := TakeOut(Marks(ops), outside);
    if missing.Some? { return NotObserved(missing.value); }
    var outermost := OutermostUseCaseUnits(units);
    var perUnit := StagedByUnits(units, outermost);
    SameRest(multiset(Flat(perUnit)), multiset(inUseCase), multiset(outside));
    SameSorted(Flat(perUnit), inUseCase);
    if Sort(StringLe, Flat(perUnit)) != Sort(StringLe, inUseCase) { return MarksDiffer; }
    if parallel { return Passed; }
    v := CheckOrders(perUnit, inUseCase);
  }

  lemma SameRest(a: multiset<string>, b: multiset<string>, c: multiset<string>)
    ensures a == b <==> a + c == b + c
  {
    if a + c == b + c {
      assert forall x :: (a + c)[x] == (b + c)[x] && (a + c)[x] == a[x] + c[x];
    }
  }

  lemma SameSorted(a: seq<string>, b: seq<string>)
    ensures Sort(StringLe, a) == Sort(StringLe, b) <==> multiset(a) == multiset(b)
  {
    StringLeOrders();
    SortSorts(StringLe, a);
    SortSorts(StringLe, b);
    if multiset(a) == multiset(b) {
      SortedIsUnique(StringLe, Sort(StringLe, a), Sort(StringLe, b));
    }
  }
}
