/**
 The units of work of `src/infrastructure/persistence/legacy_unit_of_work.ts` as a state
 machine: units are opened, changes are staged on them, they end, and changes are sent to a
 hook without a unit, in any order.  A unit forwards each change to its hook at once and
 records it, as do all the units around it that are still open.
 */
module LegacyUnits {
  import opened Options

  type Hook = nat

  /** A unit, with the units around it by the index of its parent.  `forwards`: a change staged when
      nothing around it is open any more goes to the hook, instead of being refused. */
  datatype UnitOfWork = UnitOfWork(
    isUseCase: bool, hook: Option<Hook>, parent: Option<nat>, forwards: bool, ended: bool, staged: seq<string>)

  /** A change sent to a hook. */
  datatype Mark = Mark(hook: Hook, change: string)

  datatype State = State(units: seq<UnitOfWork>, marks: seq<Mark>)

  /** A unit's parent was there before it, and has the same hook. */
  predicate AreUnits(units: seq<UnitOfWork>) {
    forall u {:trigger units[u].parent} :: 0 <= u < |units| && units[u].parent.Some? ==>
      units[u].parent.value < u && units[u].hook.Some? && units[units[u].parent.value].hook == units[u].hook
  }

  /** `t` is `u` or a unit around it. */
  predicate Holds(units: seq<UnitOfWork>, t: nat, u: nat)
    requires AreUnits(units) && u < |units|
    decreases u
  {
    t == u || (units[u].parent.Some? && Holds(units, t, units[u].parent.value))
  }

  /** The unit, or the nearest around it, that has not ended. */
  function NearestOpen(units: seq<UnitOfWork>, u: nat): (r: Option<nat>)
    requires AreUnits(units) && u < |units|
    ensures r.Some? ==> r.value <= u && !units[r.value].ended && Holds(units, r.value, u)
    ensures r.Some? ==> units[r.value].hook == units[u].hook
    decreases u
  {
    if !units[u].ended then Some(u)
    else if units[u].parent.None? then None
    else NearestOpen(units, units[u].parent.value)
  }

  /** `legacyParentFor`: only a unit of the same hook becomes a parent, or the nearest open one around
      it. */
  function ParentFor(units: seq<UnitOfWork>, hook: Option<Hook>, candidate: Option<nat>): (r: Option<nat>)
    requires AreUnits(units)
    ensures r.Some? ==> r.value < |units| && hook.Some? && units[r.value].hook == hook
  {
    if hook.None? || candidate.None? || candidate.value >= |units| || units[candidate.value].hook != hook then None
    else NearestOpen(units, candidate.value)
  }

  /** The units are the same but for what they staged and whether they ended. */
  predicate SameTree(a: seq<UnitOfWork>, b: seq<UnitOfWork>) {
    && |a| == |b|
    && forall i :: 0 <= i < |a| ==>
         a[i].isUseCase == b[i].isUseCase && a[i].hook == b[i].hook && a[i].parent == b[i].parent
  }

  /** `adopt`: the unit and all around it that are open record the change. */
  function Adopt(units: seq<UnitOfWork>, u: nat, change: string): (r: seq<UnitOfWork>)
    requires AreUnits(units) && u < |units|
    ensures SameTree(units, r)
    decreases u
  {
    var recorded := if units[u].ended then units else units[u := units[u].(staged := units[u].staged + [change])];
    if units[u].parent.None? then recorded else Adopt(recorded, units[u].parent.value, change)
  }

  datatype Step =
    | Open(isUseCase: bool, hook: Option<Hook>, candidate: Option<nat>, forwards: bool)
    | Stage(unit: nat, change: string)
    | End(unit: nat)
    | Direct(to: Hook, change: string)   // past any unit

  function MarkOf(hook: Option<Hook>, change: string): seq<Mark> {
    if hook.Some? then [Mark(hook.value, change)] else []
  }

  function Step1(s: State, step: Step): (r: State)
    requires AreUnits(s.units)
    ensures AreUnits(r.units)
  {
    match step
    case Open(isUseCase, hook, candidate, forwards) =>
      s.(units := s.units + [UnitOfWork(isUseCase, hook, ParentFor(s.units, hook, candidate), forwards, false, [])])
    case Stage(u, change) =>
      if u >= |s.units| then s
      else
        (match NearestOpen(s.units, u)
         case Some(t) => State(Adopt(s.units, t, change), s.marks + MarkOf(s.units[t].hook, change))
         case None => if s.units[u].forwards then s.(marks := s.marks + MarkOf(s.units[u].hook, change)) else s)
    case End(u) =>
      if u < |s.units| then s.(units := s.units[u := s.units[u].(ended := true)]) else s
    case Direct(to, change) => s.(marks := s.marks + [Mark(to, change)])
  }

  const NOTHING := State([], [])

  /** In every run a unit's parent was there before it and has the same hook. */
  function Run(steps: seq<Step>): (s: State)
    ensures AreUnits(s.units)
  {
    if steps == [] then NOTHING else Step1(Run(steps[..|steps| - 1]), steps[|steps| - 1])
  }

  /** The nearest open unit around `u`: all between them have ended; or all around it have. */
  lemma {:induction false} NearestOpenIff(units: seq<UnitOfWork>, u: nat, t: nat)
    requires AreUnits(units) && u < |units|
    ensures NearestOpen(units, u) == Some(t) <==>
      t < |units| && Holds(units, t, u) && !units[t].ended
      && forall x :: t < x < |units| && Holds(units, x, u) ==> units[x].ended
    ensures NearestOpen(units, u).None? <==> forall x :: 0 <= x < |units| && Holds(units, x, u) ==> units[x].ended
    decreases u
  {
    if units[u].ended && units[u].parent.Some? {
      NearestOpenIff(units, units[u].parent.value, t);
    }
    forall x: nat | x < |units| && Holds(units, x, u) ensures x <= u { HoldsIsBefore(units, x, u); }
    assert Holds(units, u, u);
  }

  /** A new unit is opened under the nearest open unit around the candidate, when that has the same
      hook. */
  lemma ParentIff(units: seq<UnitOfWork>, hook: Option<Hook>, candidate: nat, t: nat)
    requires AreUnits(units) && candidate < |units|
    ensures ParentFor(units, hook, Some(candidate)) == Some(t) <==>
      hook.Some? && units[candidate].hook == hook && NearestOpen(units, candidate) == Some(t)
  {
  }

  /** Staging sends the change to the unit's hook, if it has one, as long as it or a unit around it is open
      or it forwards late changes; and nothing else is sent. */
  lemma StageSends(s: State, u: nat, change: string)
    requires AreUnits(s.units) && u < |s.units|
    ensures Step1(s, Stage(u, change)).marks == s.marks +
      if s.units[u].hook.Some? && (s.units[u].forwards || exists x :: 0 <= x < |s.units| && Holds(s.units, x, u) && !s.units[x].ended)
      then [Mark(s.units[u].hook.value, change)] else []
  {
    NearestOpenIff(s.units, u, 0);
    assert s.marks + [] == s.marks;
  }

  predicate EndedAt(steps: seq<Step>, i: nat, u: nat)
    requires i < |steps|
  {
    steps[i] == End(u) && u < |Run(steps[..i]).units|
  }

  ghost predicate WasEnded(steps: seq<Step>, u: nat) {
    exists i: nat :: i < |steps| && EndedAt(steps, i, u)
  }

  lemma EndedAppend(steps: seq<Step>, step: Step, u: nat)
    ensures WasEnded(steps + [step], u) <==> WasEnded(steps, u) || (step == End(u) && u < |Run(steps).units|)
  {
    var more := steps + [step];
    assert more[..|steps|] == steps;
    forall i: nat | i < |steps| ensures EndedAt(more, i, u) <==> EndedAt(steps, i, u) { assert more[..i] == steps[..i]; }
    assert EndedAt(more, |steps|, u) <==> step == End(u) && u < |Run(steps).units|;
    if WasEnded(steps, u) {
      var i: nat :| i < |steps| && EndedAt(steps, i, u);
      assert EndedAt(more, i, u);
    }
  }

  /** The units that have ended are exactly those ended by some step after they were opened. */
  lemma {:induction false} EndedIff(steps: seq<Step>, u: nat)
    ensures u < |Run(steps).units| && Run(steps).units[u].ended <==> WasEnded(steps, u)
    decreases |steps|
  {
    if steps != [] {
      var init, last := steps[..|steps| - 1], steps[|steps| - 1];
      EndedIff(init, u);
      EndedAppend(init, last, u);
      assert steps == init + [last];
      if last.Stage? { StageEndsNone(Run(init), last.unit, last.change, u); }
    }
  }

  lemma StageEndsNone(s: State, t: nat, change: string, u: nat)
    requires AreUnits(s.units)
    ensures var s' := Step1(s, Stage(t, change));
      |s'.units| == |s.units| && (u < |s.units| ==> s'.units[u].ended == s.units[u].ended)
  {
    if t < |s.units| && NearestOpen(s.units, t).Some? && u < |s.units| {
      AdoptIff(s.units, NearestOpen(s.units, t).value, change, u);
    }
  }

  lemma SameTreeHolds(a: seq<UnitOfWork>, b: seq<UnitOfWork>, t: nat, u: nat)
    requires AreUnits(a) && AreUnits(b) && SameTree(a, b) && u < |a|
    ensures Holds(a, t, u) <==> Holds(b, t, u)
    decreases u
  {
    if a[u].parent.Some? { SameTreeHolds(a, b, t, a[u].parent.value); }
  }

  lemma {:induction false} HoldsIsBefore(units: seq<UnitOfWork>, t: nat, u: nat)
    requires AreUnits(units) && u < |units| && Holds(units, t, u)
    ensures t <= u && units[t].hook == units[u].hook
    decreases u
  {
    if t != u { HoldsIsBefore(units, t, units[u].parent.value); }
  }

  /** A change is recorded by exactly the open units around the one it is staged on, itself included. */
  lemma {:induction false} AdoptIff(units: seq<UnitOfWork>, u: nat, change: string, i: nat)
    requires AreUnits(units) && u < |units| && i < |units|
    ensures Adopt(units, u, change)[i]
         == if Holds(units, i, u) && !units[i].ended then units[i].(staged := units[i].staged + [change]) else units[i]
    decreases u
  {
    var recorded := if units[u].ended then units else units[u := units[u].(staged := units[u].staged + [change])];
    if units[u].parent.Some? {
      var p := units[u].parent.value;
      AdoptIff(recorded, p, change, i);
      SameTreeHolds(units, recorded, i, p);
      if i == u && Holds(units, i, p) { HoldsIsBefore(units, i, p); }
    }
  }
}
