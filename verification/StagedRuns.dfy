/**
 The check of `StagedMarks` on every run of the units of work: which changes it takes for
 the use cases' own, and when it passes.
 */
module StagedRuns {
  import opened Options
  import opened LegacyUnits
  import opened StagedMarks

  function Changes(marks: seq<Mark>): (r: seq<string>)
    ensures |r| == |marks| && forall i :: 0 <= i < |r| ==> r[i] == marks[i].change
  {
    seq(|marks|, i requires 0 <= i < |marks| => marks[i].change)
  }

  /** The unit that counts which a change staged on `u` reaches: the outermost use case around it, if
      that is still open and has a hook. */
  function Reached(units: seq<UnitOfWork>, u: nat): (r: Option<nat>)
    requires AreUnits(units) && u < |units|
    ensures r.Some? ==> r.value <= u
  {
    var t := OutermostUse(units, u);
    if t.Some? && units[u].hook.Some? && !units[t.value].ended then t else None
  }

  predicate IsCountedStep(units: seq<UnitOfWork>, step: Step)
    requires AreUnits(units)
  {
    step.Stage? && step.unit < |units| && Reached(units, step.unit).Some?
  }

  /** The changes that reach a unit that counts. */
  function CountedChanges(steps: seq<Step>): seq<string> {
    if steps == [] then []
    else
      var init, last := steps[..|steps| - 1], steps[|steps| - 1];
      CountedChanges(init) + (if IsCountedStep(Run(init).units, last) then [last.change] else [])
  }

  /** The other changes that reach a hook. */
  function OtherChanges(steps: seq<Step>): seq<string> {
    if steps == [] then []
    else
      var init, last := steps[..|steps| - 1], steps[|steps| - 1];
      OtherChanges(init) + (if IsCountedStep(Run(init).units, last) then [] else NewChanges(Run(init), last))
  }

  /** The change a step sends to a hook. */
  function NewChanges(s: State, step: Step): (r: seq<string>)
    requires AreUnits(s.units)
    ensures Changes(Step1(s, step).marks) == Changes(s.marks) + r
  {
    var before, after := |s.marks|, Step1(s, step).marks;
    assert s.marks <= after;
    Changes(after[before..])
  }

  // ----- What each step adds -----

  /** What a unit adds to the marks the check counts. */
  ghost function Contribution(units: seq<UnitOfWork>, t: nat): seq<string>
    requires AreUnits(units) && t < |units|
  {
    if IsCounted(units, t) then units[t].staged else []
  }

  ghost function Contributions(units: seq<UnitOfWork>): (r: seq<seq<string>>)
    requires AreUnits(units)
    ensures |r| == |units| && forall t :: 0 <= t < |r| ==> r[t] == Contribution(units, t)
  {
    seq(|units|, t requires 0 <= t < |units| => Contribution(units, t))
  }

  lemma {:induction false} FlatAppend(lists: seq<seq<string>>, last: seq<string>)
    ensures Flat(lists + [last]) == Flat(lists) + last
  {
    if lists == [] {
      assert [] + [last] == [last] && [last][1..] == [];
    } else {
      FlatAppend(lists[1..], last);
      assert (lists + [last])[1..] == lists[1..] + [last];
    }
  }

  lemma {:induction false} FlatUpdate(lists: seq<seq<string>>, k: nat, change: string)
    requires k < |lists|
    ensures multiset(Flat(lists[k := lists[k] + [change]])) == multiset(Flat(lists)) + multiset{change}
  {
    var lists' := lists[k := lists[k] + [change]];
    if k == 0 {
      assert lists'[1..] == lists[1..];
    } else {
      FlatUpdate(lists[1..], k - 1, change);
      assert lists'[1..] == lists[1..][k - 1 := lists[1..][k - 1] + [change]];
    }
  }

  lemma {:induction false} StagedIsFlat(units: seq<UnitOfWork>, n: nat)
    requires AreUnits(units) && n <= |units|
    ensures Flat(StagedBy(units, CountedBelow(units, n))) == Flat(Contributions(units)[..n])
    decreases n
  {
    if n > 0 {
      StagedIsFlat(units, n - 1);
      var all := Contributions(units);
      assert all[..n] == all[..n - 1] + [Contribution(units, n - 1)];
      FlatAppend(all[..n - 1], Contribution(units, n - 1));
      CountedLast(units, n);
    }
  }

  lemma CountedLast(units: seq<UnitOfWork>, n: nat)
    requires AreUnits(units) && 0 < n <= |units|
    ensures Flat(StagedBy(units, CountedBelow(units, n)))
         == Flat(StagedBy(units, CountedBelow(units, n - 1))) + Contribution(units, n - 1)
  {
    var at := CountedBelow(units, n - 1);
    if IsCounted(units, n - 1) {
      assert StagedBy(units, at + [n - 1]) == StagedBy(units, at) + [units[n - 1].staged];
      FlatAppend(StagedBy(units, at), units[n - 1].staged);
    } else {
      assert CountedBelow(units, n) == at;
    }
  }

  lemma SameTreeCounts(a: seq<UnitOfWork>, b: seq<UnitOfWork>, t: nat)
    requires AreUnits(a) && AreUnits(b) && SameTree(a, b)
    ensures IsCounted(a, t) <==> IsCounted(b, t)
  {
    if t < |a| {
      forall x: nat | x < |a| ensures Holds(a, x, t) <==> Holds(b, x, t) {
        SameTreeHolds(a, b, x, t);
      }
    }
  }

  lemma AdoptAddsAt(units: seq<UnitOfWork>, u: nat, change: string, t: nat)
    requires AreUnits(units) && u < |units| && t < |units|
    ensures Contribution(Adopt(units, u, change), t)
         == if Reached(units, u) == Some(t) then Contribution(units, t) + [change] else Contribution(units, t)
  {
    SameTreeCounts(units, Adopt(units, u, change), t);
    CountedExactlyOnce(units, u, t);
    AdoptIff(units, u, change, t);
  }

  lemma AdoptAdds(units: seq<UnitOfWork>, u: nat, change: string)
    requires AreUnits(units) && u < |units|
    ensures multiset(Flat(Contributions(Adopt(units, u, change))))
         == multiset(Flat(Contributions(units))) + (if Reached(units, u).Some? then multiset{change} else multiset{})
  {
    var all, all' := Contributions(units), Contributions(Adopt(units, u, change));
    forall t | 0 <= t < |all|
      ensures all'[t] == if Reached(units, u) == Some(t) then all[t] + [change] else all[t]
    {
      AdoptAddsAt(units, u, change, t);
    }
    if Reached(units, u).Some? {
      var k := Reached(units, u).value;
      FlatUpdate(all, k, change);
      assert all' == all[k := all[k] + [change]];
    } else {
      assert all' == all;
    }
  }

  lemma {:induction false} MoreUnitsHold(units: seq<UnitOfWork>, more: seq<UnitOfWork>, t: nat, u: nat)
    requires AreUnits(units) && AreUnits(units + more) && u < |units|
    ensures Holds(units + more, t, u) <==> Holds(units, t, u)
    decreases u
  {
    if units[u].parent.Some? { MoreUnitsHold(units, more, t, units[u].parent.value); }
  }

  lemma MoreUnitsCount(units: seq<UnitOfWork>, more: seq<UnitOfWork>, t: nat)
    requires AreUnits(units) && AreUnits(units + more) && t < |units|
    ensures IsCounted(units + more, t) <==> IsCounted(units, t)
  {
    forall a: nat | a < |units + more| ensures Holds(units + more, a, t) ==> a < |units| && Holds(units, a, t) {
      MoreUnitsHold(units, more, a, t);
      if Holds(units, a, t) { HoldsIsBefore(units, a, t); }
    }
    forall a: nat | a < |units| ensures Holds(units, a, t) ==> Holds(units + more, a, t) {
      MoreUnitsHold(units, more, a, t);
    }
  }

  lemma OpenAdds(s: State, step: Step)
    requires AreUnits(s.units) && step.Open?
    ensures Flat(Contributions(Step1(s, step).units)) == Flat(Contributions(s.units))
  {
    var units' := Step1(s, step).units;
    var n := |s.units|;
    assert units' == s.units + [units'[n]];
    forall t: nat | t < n ensures IsCounted(units', t) <==> IsCounted(s.units, t) {
      MoreUnitsCount(s.units, [units'[n]], t);
    }
    FlatAppend(Contributions(s.units), []);
    assert Contributions(units') == Contributions(s.units) + [[]];
  }

  lemma EndAdds(s: State, step: Step)
    requires AreUnits(s.units) && step.End?
    ensures Contributions(Step1(s, step).units) == Contributions(s.units)
  {
    var units' := Step1(s, step).units;
    forall t: nat | t < |s.units| ensures IsCounted(units', t) <==> IsCounted(s.units, t) {
      SameTreeCounts(s.units, units', t);
    }
  }

  /** A change reaches what it reaches from the nearest open unit. */
  lemma {:induction false} NearestReaches(units: seq<UnitOfWork>, u: nat)
    requires AreUnits(units) && u < |units|
    ensures Reached(units, u) == if NearestOpen(units, u).Some? then Reached(units, NearestOpen(units, u).value) else None
    decreases u
  {
    if units[u].ended && units[u].parent.Some? {
      NearestReaches(units, units[u].parent.value);
    }
  }

  lemma StageAdds(s: State, step: Step)
    requires AreUnits(s.units) && step.Stage?
    ensures multiset(Flat(Contributions(Step1(s, step).units))) == multiset(Flat(Contributions(s.units)))
      + (if IsCountedStep(s.units, step) then multiset{step.change} else multiset{})
    ensures IsCountedStep(s.units, step) ==> NewChanges(s, step) == [step.change]
  {
    var u := step.unit;
    if u < |s.units| {
      NearestReaches(s.units, u);
      if NearestOpen(s.units, u).Some? {
        AdoptAdds(s.units, NearestOpen(s.units, u).value, step.change);
      }
    }
  }

  // ----- Whole runs -----

  /** In every run, the units that count staged exactly the counted changes, each as often. */
  lemma {:induction false} StagedIsCounted(steps: seq<Step>)
    ensures multiset(Flat(Contributions(Run(steps).units))) == multiset(CountedChanges(steps))
    decreases |steps|
  {
    if steps != [] {
      var init, last := steps[..|steps| - 1], steps[|steps| - 1];
      StagedIsCounted(init);
      match last
      case Open(_, _, _, _) => OpenAdds(Run(init), last);
      case Stage(_, _) => StageAdds(Run(init), last);
      case End(_) => EndAdds(Run(init), last);
      case Direct(_, _) =>
    }
  }

  /** Every change that reaches a hook is a counted one or another one. */
  lemma {:induction false} CountedOrOther(steps: seq<Step>)
    ensures multiset(Changes(Run(steps).marks)) == multiset(CountedChanges(steps)) + multiset(OtherChanges(steps))
    decreases |steps|
  {
    if steps != [] {
      var init, last := steps[..|steps| - 1], steps[|steps| - 1];
      CountedOrOther(init);
      if last.Stage? { StageAdds(Run(init), last); }
    }
  }

  // ----- Order -----

  lemma SubsequenceGrows(marks: seq<string>, s: seq<string>, x: string)
    requires IsSubsequence(marks, s)
    ensures IsSubsequence(marks, s + [x]) && IsSubsequence(marks + [x], s + [x])
  {
    var places: seq<nat> :| Embeds(places, marks, s);
    assert Embeds(places, marks, s + [x]);
    assert Embeds(places + [|s|], marks + [x], s + [x]);
  }

  lemma EmptyIsSubsequence(s: seq<string>)
    ensures IsSubsequence([], s)
  {
    assert Embeds([], [], s);
  }

  /** What one step adds to a unit that counts, and to the marks. */
  lemma StageInOrder(s: State, step: Step, t: nat)
    requires AreUnits(s.units) && step.Stage? && t < |s.units| && IsCounted(s.units, t)
    ensures var s' := Step1(s, step);
      && IsCounted(s'.units, t)
      && (s'.units[t].staged == s.units[t].staged
          || (s'.units[t].staged == s.units[t].staged + [step.change] && NewChanges(s, step) == [step.change]))
  {
    var u := step.unit;
    if u < |s.units| && NearestOpen(s.units, u).Some? {
      var from := NearestOpen(s.units, u).value;
      SameTreeCounts(s.units, Adopt(s.units, from, step.change), t);
      AdoptIff(s.units, from, step.change, t);
      CountedExactlyOnce(s.units, from, t);
    }
  }

  lemma StepInOrder(s: State, step: Step, t: nat)
    requires AreUnits(s.units) && t < |Step1(s, step).units| && IsCounted(Step1(s, step).units, t)
    ensures var s' := Step1(s, step);
      || s'.units[t].staged == []
      || (t < |s.units| && IsCounted(s.units, t)
          && (s'.units[t].staged == s.units[t].staged
              || (s'.units[t].staged == s.units[t].staged + [step.change] && NewChanges(s, step) == [step.change])))
  {
    var units' := Step1(s, step).units;
    if step.Open? {
      if t < |s.units| {
        assert units' == s.units + [units'[|s.units|]];
        MoreUnitsCount(s.units, [units'[|s.units|]], t);
      }
    } else {
      assert SameTree(s.units, units');
      SameTreeCounts(s.units, units', t);
      if step.Stage? { StageInOrder(s, step, t); }
    }
  }

  /** In every run, each unit that counts staged its changes in the order in which they were sent. */
  lemma {:induction false} StagedInOrder(steps: seq<Step>, t: nat)
    requires t < |Run(steps).units| && IsCounted(Run(steps).units, t)
    ensures IsSubsequence(Run(steps).units[t].staged, Changes(Run(steps).marks))
    decreases |steps|
  {
    var init, last := steps[..|steps| - 1], steps[|steps| - 1];
    var s, s' := Run(init), Run(steps);
    StepInOrder(s, last, t);
    if s'.units[t].staged == [] {
      EmptyIsSubsequence(Changes(s'.marks));
    } else {
      StagedInOrder(init, t);
      GrowsByStep(s, last, s.units[t].staged);
    }
  }

  lemma GrowsByStep(s: State, step: Step, staged: seq<string>)
    requires AreUnits(s.units) && IsSubsequence(staged, Changes(s.marks))
    ensures IsSubsequence(staged, Changes(Step1(s, step).marks))
    ensures IsSubsequence(staged + NewChanges(s, step), Changes(Step1(s, step).marks))
  {
    var new_ := NewChanges(s, step);
    assert |new_| <= 1;
    if new_ == [] {
      assert Changes(s.marks) + new_ == Changes(s.marks) && staged + new_ == staged;
    } else {
      assert new_ == [new_[0]];
      SubsequenceGrows(staged, Changes(s.marks), new_[0]);
    }
  }

  // ----- When the check passes -----

  lemma {:induction false} WithoutKeeps(marks: seq<string>, s: seq<string>, x: string)
    requires IsSubsequence(marks, s) && x !in marks
    ensures IsSubsequence(marks, Without(s, x))
  {
    if x in s {
      var at := FirstPlace(s, x);
      SpliceIsWithout(s, x, at);
      var places: seq<nat> :| Embeds(places, marks, s);
      forall i | 0 <= i < |places| ensures places[i] != at {
        assert s[places[i]] == marks[i];
      }
      CloseUp(marks, s, at, places);
    } else {
      WithoutNothing(s, x);
    }
  }

  lemma CloseUp(marks: seq<string>, s: seq<string>, at: nat, places: seq<nat>)
    requires Embeds(places, marks, s) && at < |s| && forall i :: 0 <= i < |places| ==> places[i] != at
    ensures IsSubsequence(marks, s[..at] + s[at + 1..])
  {
    var rest := s[..at] + s[at + 1..];
    var shifted: seq<nat> := seq(|places|, i requires 0 <= i < |places| => if places[i] < at then places[i] else places[i] - 1);
    forall i | 0 <= i < |marks| ensures shifted[i] < |rest| && rest[shifted[i]] == marks[i] {
      assert s[places[i]] == marks[i];
    }
    assert Embeds(shifted, marks, rest);
  }

  lemma {:induction false} FirstPlace(s: seq<string>, x: string) returns (at: nat)
    requires x in s
    ensures at < |s| && s[at] == x && forall k :: 0 <= k < at ==> s[k] != x
  {
    if s[0] == x {
      at := 0;
    } else {
      at := FirstPlace(s[1..], x);
      at := at + 1;
    }
  }

  lemma {:induction false} WithoutNothing(s: seq<string>, x: string)
    requires x !in s
    ensures Without(s, x) == s
  {
    if s != [] { WithoutNothing(s[1..], x); }
  }

  lemma {:induction false} WithoutAllKeeps(marks: seq<string>, s: seq<string>, outside: seq<string>)
    requires IsSubsequence(marks, s) && forall x :: x in outside ==> x !in marks
    ensures IsSubsequence(marks, WithoutAll(s, outside))
    decreases |outside|
  {
    if outside != [] {
      WithoutAllKeeps(marks, s, outside[..|outside| - 1]);
      WithoutKeeps(marks, WithoutAll(s, outside[..|outside| - 1]), outside[|outside| - 1]);
    }
  }

  lemma {:induction false} InFlat(lists: seq<seq<string>>, i: nat, x: string)
    requires i < |lists| && x in lists[i]
    ensures x in Flat(lists)
  {
    if i > 0 { InFlat(lists[1..], i - 1, x); }
  }

  ghost function PerUnit(steps: seq<Step>): seq<seq<string>> {
    var units := Run(steps).units;
    StagedBy(units, CountedBelow(units, |units|))
  }

  lemma FlatIsCounted(steps: seq<Step>)
    ensures multiset(Flat(PerUnit(steps))) == multiset(CountedChanges(steps))
  {
    var units := Run(steps).units;
    StagedIsCounted(steps);
    StagedIsFlat(units, |units|);
    assert Contributions(units)[..|units|] == Contributions(units);
  }

  lemma StagedIsACountedChange(steps: seq<Step>, i: nat, x: string)
    requires i < |PerUnit(steps)| && x in PerUnit(steps)[i]
    ensures x in CountedChanges(steps)
  {
    InFlat(PerUnit(steps), i, x);
    FlatIsCounted(steps);
    assert x in multiset(Flat(PerUnit(steps)));
  }

  lemma AllStandInOrder(steps: seq<Step>, outside: seq<string>)
    requires forall x :: x in outside ==> x !in CountedChanges(steps)
    ensures AllInOrder(PerUnit(steps), WithoutAll(Changes(Run(steps).marks), outside))
  {
    var units := Run(steps).units;
    var at := CountedBelow(units, |units|);
    forall i | 0 <= i < |at|
      ensures IsSubsequence(PerUnit(steps)[i], WithoutAll(Changes(Run(steps).marks), outside))
    {
      assert at[i] in at;
      StagedInOrder(steps, at[i]);
      forall x | x in outside ensures x !in units[at[i]].staged {
        if x in units[at[i]].staged { StagedIsACountedChange(steps, i, x); }
      }
      WithoutAllKeeps(units[at[i]].staged, Changes(Run(steps).marks), outside);
    }
  }

  /** For every run and the operations observed in it: the check passes only when the changes that
      reached a hook past the use cases are the declared ones, each as often; and it does pass then,
      when marks ran in parallel or no declared mark is also one of the use cases' own. */
  lemma CheckPassesIff(steps: seq<Step>, ops: seq<string>, outside: seq<string>, parallel: bool)
    requires Marks(ops) == Changes(Run(steps).marks)
    ensures IsFullyStaged(ops, outside, PerUnit(steps), parallel) ==> multiset(OtherChanges(steps)) == multiset(outside)
    ensures (parallel || forall x :: x in outside ==> x !in CountedChanges(steps)) ==>
      (IsFullyStaged(ops, outside, PerUnit(steps), parallel) <==> multiset(OtherChanges(steps)) == multiset(outside))
  {
    FlatIsCounted(steps);
    CountedOrOther(steps);
    SameRest(multiset(OtherChanges(steps)), multiset(outside), multiset(CountedChanges(steps)));
    assert multiset(Marks(ops)) == multiset(OtherChanges(steps)) + multiset(CountedChanges(steps));
    if !parallel && forall x :: x in outside ==> x !in CountedChanges(steps) { AllStandInOrder(steps, outside); }
  }

  /** A use case makes `a` and `b`, and `a` is made once more past it, as declared.  The check takes out
      the first `a`, which is the use case's own, and finds the rest out of order. */
  lemma FirstIsTakenOut(a: string, b: string)
    requires a != b
    ensures var steps := [USE_CASE, Stage(0, a), Stage(0, b), Direct(0, a)];
      && Changes(Run(steps).marks) == [a, b, a] && OtherChanges(steps) == [a]
      && PerUnit(steps) == [[a, b]]
      && !AllInOrder(PerUnit(steps), WithoutAll(Changes(Run(steps).marks), [a]))
  {
    TakenOutRun(a, b);
    assert [USE_CASE] + [Stage(0, a)] + [Stage(0, b)] + [Direct(0, a)] == [USE_CASE, Stage(0, a), Stage(0, b), Direct(0, a)];
    assert [a, b] + [a] == [a, b, a];
    NotInOrder(a, b);
    assert [[a, b]][0] == [a, b];
  }

  lemma NotInOrder(a: string, b: string)
    requires a != b
    ensures WithoutAll([a, b, a], [a]) == [b, a] && !IsSubsequence([a, b], [b, a])
  {
    assert [a][..0] == [] && WithoutAll([a, b, a], []) == [a, b, a];
    assert [a, b, a][1..] == [b, a];
    forall places: seq<nat> ensures !Embeds(places, [a, b], [b, a]) {
      if |places| == 2 && places[0] < places[1] < 2 { assert [b, a][places[0]] == b; }
    }
  }

  lemma RunStep(steps: seq<Step>, step: Step)
    ensures Run(steps + [step]) == Step1(Run(steps), step)
    ensures OtherChanges(steps + [step])
         == OtherChanges(steps) + (if IsCountedStep(Run(steps).units, step) then [] else NewChanges(Run(steps), step))
  {
    assert (steps + [step])[..|steps + [step]| - 1] == steps;
  }

  function OneUseCase(staged: seq<string>, marks: seq<Mark>): State {
    State([UnitOfWork(true, Some(0), None, false, false, staged)], marks)
  }

  lemma StageAlone(staged: seq<string>, marks: seq<Mark>, x: string)
    ensures Step1(OneUseCase(staged, marks), Stage(0, x)) == OneUseCase(staged + [x], marks + [Mark(0, x)])
    ensures IsCountedStep(OneUseCase(staged, marks).units, Stage(0, x))
  {
    var units := OneUseCase(staged, marks).units;
    assert Adopt(units, 0, x) == [units[0].(staged := staged + [x])];
    assert OutermostUse(units, 0) == Some(0);
  }

  lemma OneIsCounted(staged: seq<string>, marks: seq<Mark>)
    ensures var units := OneUseCase(staged, marks).units; StagedBy(units, CountedBelow(units, 1)) == [staged]
  {
    var units := OneUseCase(staged, marks).units;
    assert OutermostUse(units, 0) == Some(0);
    OneOutermost(units, 0, 0);
    assert CountedBelow(units, 0) == [];
    assert CountedBelow(units, 1) == [0];
  }

  const USE_CASE := Open(true, Some(0), None, false)

  /** The changes as marks of the use case's hook. */
  function MarksFor(changes: seq<string>): (r: seq<Mark>)
    ensures |r| == |changes| && forall i :: 0 <= i < |r| ==> r[i] == Mark(0, changes[i])
  {
    seq(|changes|, i requires 0 <= i < |changes| => Mark(0, changes[i]))
  }

  lemma MarksGrow(changes: seq<string>, x: string)
    ensures MarksFor(changes + [x]) == MarksFor(changes) + [Mark(0, x)]
    ensures Changes(MarksFor(changes)) == changes
  {
  }

  /** So far only the use case made changes, these. */
  predicate OnlyMade(steps: seq<Step>, changes: seq<string>) {
    Run(steps) == OneUseCase(changes, MarksFor(changes)) && OtherChanges(steps) == []
  }

  lemma UseCaseOpens()
    ensures OnlyMade([USE_CASE], [])
  {
    RunStep([], USE_CASE);
    assert [] + [USE_CASE] == [USE_CASE];
  }

  lemma UseCaseStages(steps: seq<Step>, changes: seq<string>, x: string)
    requires OnlyMade(steps, changes)
    ensures OnlyMade(steps + [Stage(0, x)], changes + [x])
  {
    RunStep(steps, Stage(0, x));
    StageAlone(changes, MarksFor(changes), x);
    MarksGrow(changes, x);
  }

  lemma DirectAfter(steps: seq<Step>, changes: seq<string>, x: string)
    requires OnlyMade(steps, changes)
    ensures var all := steps + [Direct(0, x)];
      Changes(Run(all).marks) == changes + [x] && OtherChanges(all) == [x] && PerUnit(all) == [changes]
  {
    RunStep(steps, Direct(0, x));
    MarksGrow(changes, x);
    assert NewChanges(Run(steps), Direct(0, x)) == [x];
    OneIsCounted(changes, MarksFor(changes) + [Mark(0, x)]);
  }

  lemma TakenOutRun(a: string, b: string)
    ensures var steps := [USE_CASE] + [Stage(0, a)] + [Stage(0, b)] + [Direct(0, a)];
      Changes(Run(steps).marks) == [a, b] + [a] && OtherChanges(steps) == [a] && PerUnit(steps) == [[a, b]]
  {
    UseCaseOpens();
    UseCaseStages([USE_CASE], [], a);
    assert [] + [a] == [a];
    UseCaseStages([USE_CASE] + [Stage(0, a)], [a], b);
    assert [a] + [b] == [a, b];
    DirectAfter([USE_CASE] + [Stage(0, a)] + [Stage(0, b)], [a, b], a);
  }
}
