/**
 The pacing of run checkpoints, as `simulatePacedRun` of
 `scripts/bench_v3_workflow_checkpoint.ts` plays it on a simulated clock: a save commits at
 once when it must or when the last checkpoint started an interval ago, and otherwise
 leaves one trailing checkpoint for the end of the interval.
 */
module CheckpointPacing {
  import opened Options

  /** A checkpoint: when it started, and whether an at-once save forced it. */
  datatype Start = Start(at: int, forced: bool)

  /** A save: when it was staged, and how many checkpoints had started before. */
  datatype Staged = Staged(at: int, before: nat)

  datatype Save = Save(at: int, atOnce: bool)

  datatype Pacing = Pacing(
    lastStarted: Option<int>, trailingAt: Option<int>, starts: seq<Start>, staged: seq<Staged>)

  const IDLE := Pacing(None, None, [], [])

  function Commit(p: Pacing, at: int, forced: bool): Pacing {
    p.(lastStarted := Some(at), starts := p.starts + [Start(at, forced)])
  }

  /** The trailing checkpoint starts when its time has come. */
  function FireTrailing(p: Pacing, at: int): Pacing {
    if p.trailingAt.Some? && p.trailingAt.value <= at then
      Commit(p, p.trailingAt.value, false).(trailingAt := None)
    else p
  }

  function Stage(p: Pacing, at: int): Pacing {
    p.(staged := p.staged + [Staged(at, |p.starts|)])
  }

  predicate IsDue(p: Pacing, interval: int, at: int) {
    p.lastStarted.None? || at - p.lastStarted.value >= interval
  }

  function Pace(p: Pacing, interval: int, s: Save): Pacing {
    if s.atOnce || IsDue(p, interval, s.at) then Commit(p.(trailingAt := None), s.at, s.atOnce)
    else if p.trailingAt.Some? then p
    else p.(trailingAt := Some(p.lastStarted.value + interval))
  }

  function AfterSave(p: Pacing, interval: int, s: Save): Pacing {
    Pace(Stage(FireTrailing(p, s.at), s.at), interval, s)
  }

  function Run(interval: int, saves: seq<Save>): Pacing {
    if saves == [] then IDLE
    else AfterSave(Run(interval, saves[..|saves| - 1]), interval, saves[|saves| - 1])
  }

  predicate InOrder(saves: seq<Save>) {
    forall i, j :: 0 <= i < j < |saves| ==> saves[i].at <= saves[j].at
  }

  // ----- What every save keeps -----

  /** A checkpoint that was not forced starts at least an interval after the one before it. */
  predicate Spaced(interval: int, starts: seq<Start>) {
    forall i :: 1 <= i < |starts| ==>
      starts[i - 1].at + (if starts[i].forced then 0 else interval) <= starts[i].at
  }

  /** The first checkpoint after the save was staged starts no earlier, and within an interval;
      or it is still to come, at the trailing time. */
  predicate Covered(p: Pacing, interval: int, s: Staged) {
    if s.before < |p.starts| then s.at <= p.starts[s.before].at <= s.at + interval
    else s.before == |p.starts| && p.trailingAt.Some? && s.at <= p.trailingAt.value <= s.at + interval
  }

  predicate AllCovered(p: Pacing, interval: int) {
    forall i :: 0 <= i < |p.staged| ==> Covered(p, interval, p.staged[i])
  }

  /** The clock's part: the last checkpoint, the trailing one, and the time of the last save. */
  predicate Clocked(p: Pacing, interval: int, now: int) {
    && (p.lastStarted.None? <==> p.starts == [])
    && (p.starts != [] ==> p.lastStarted == Some(p.starts[|p.starts| - 1].at) && p.lastStarted.value <= now)
    && (p.trailingAt.Some? ==>
          p.lastStarted.Some? && p.trailingAt.value == p.lastStarted.value + interval && now < p.trailingAt.value)
  }

  predicate Inv(p: Pacing, interval: int, now: int) {
    && Spaced(interval, p.starts) && Clocked(p, interval, now) && AllCovered(p, interval)
    && forall i :: 0 <= i < |p.staged| ==> p.staged[i].at <= now
  }

  lemma FireKeeps(p: Pacing, interval: int, now: int, at: int)
    requires interval > 0 && Inv(p, interval, now) && now <= at
    ensures Inv(FireTrailing(p, at), interval, at)
  {
    var p' := FireTrailing(p, at);
    forall i | 0 <= i < |p'.staged| ensures Covered(p', interval, p'.staged[i]) {
      assert Covered(p, interval, p.staged[i]);
    }
  }

  lemma StageAndPaceKeep(p: Pacing, interval: int, s: Save)
    requires interval > 0 && Inv(p, interval, s.at)
    ensures Inv(Pace(Stage(p, s.at), interval, s), interval, s.at)
  {
    var p' := Pace(Stage(p, s.at), interval, s);
    forall i | 0 <= i < |p'.staged| ensures Covered(p', interval, p'.staged[i]) {
      if i < |p.staged| { assert Covered(p, interval, p.staged[i]); }
    }
  }

  lemma SaveKeeps(p: Pacing, interval: int, now: int, s: Save)
    requires interval > 0 && Inv(p, interval, now) && now <= s.at
    ensures Inv(AfterSave(p, interval, s), interval, s.at)
  {
    FireKeeps(p, interval, now, s.at);
    StageAndPaceKeep(FireTrailing(p, s.at), interval, s);
  }

  /** Every run with saves in order keeps the pacing promises at every moment. */
  lemma {:induction false} RunKeeps(interval: int, saves: seq<Save>)
    requires interval > 0 && InOrder(saves) && saves != []
    ensures Inv(Run(interval, saves), interval, saves[|saves| - 1].at)
  {
    var init, last := saves[..|saves| - 1], saves[|saves| - 1];
    if init == [] {
      assert Inv(IDLE, interval, last.at);
      SaveKeeps(IDLE, interval, last.at, last);
    } else {
      RunKeeps(interval, init);
      assert init[|init| - 1].at == saves[|saves| - 2].at <= last.at;
      SaveKeeps(Run(interval, init), interval, init[|init| - 1].at, last);
    }
  }

  lemma {:induction false} RunStages(interval: int, saves: seq<Save>)
    ensures |Run(interval, saves).staged| == |saves|
    ensures forall i :: 0 <= i < |saves| ==> Run(interval, saves).staged[i].at == saves[i].at
  {
    if saves != [] {
      RunStages(interval, saves[..|saves| - 1]);
    }
  }

  // ----- The promises -----

  /** Each checkpoint that no at-once save forced starts an interval or more after the last one. */
  lemma UnforcedAreSpaced(interval: int, saves: seq<Save>, i: nat)
    requires interval > 0 && InOrder(saves) && 1 <= i < |Run(interval, saves).starts|
    requires !Run(interval, saves).starts[i].forced
    ensures Run(interval, saves).starts[i - 1].at + interval <= Run(interval, saves).starts[i].at
  {
    RunKeeps(interval, saves);
  }

  /** When the run ends with an at-once save, no trailing checkpoint is left, and every save is
      covered: the first checkpoint after it starts within an interval of it. */
  lemma EveryChangeIsCovered(interval: int, saves: seq<Save>, i: nat)
    requires interval > 0 && InOrder(saves) && i < |saves| && saves[|saves| - 1].atOnce
    ensures Run(interval, saves).trailingAt == None
    ensures |Run(interval, saves).staged| == |saves|
    ensures var p := Run(interval, saves); var k := p.staged[i].before;
      k < |p.starts| && saves[i].at <= p.starts[k].at <= saves[i].at + interval
  {
    RunKeeps(interval, saves);
    RunStages(interval, saves);
    assert Covered(Run(interval, saves), interval, Run(interval, saves).staged[i]);
  }

  function Forced(starts: seq<Start>): nat {
    if starts == [] then 0
    else Forced(starts[..|starts| - 1]) + (if starts[|starts| - 1].forced then 1 else 0)
  }

  function AtOnce(saves: seq<Save>): nat {
    if saves == [] then 0
    else AtOnce(saves[..|saves| - 1]) + (if saves[|saves| - 1].atOnce then 1 else 0)
  }

  lemma {:induction false} ForcedAppend(starts: seq<Start>, s: Start)
    ensures Forced(starts + [s]) == Forced(starts) + (if s.forced then 1 else 0)
  {
    assert (starts + [s])[..|starts + [s]| - 1] == starts;
  }

  /** Exactly one forced checkpoint per at-once save. */
  lemma {:induction false} ForcedAreAtOnce(interval: int, saves: seq<Save>)
    ensures Forced(Run(interval, saves).starts) == AtOnce(saves)
  {
    if saves != [] {
      var init, s := saves[..|saves| - 1], saves[|saves| - 1];
      ForcedAreAtOnce(interval, init);
      var p := Run(interval, init);
      if p.trailingAt.Some? { ForcedAppend(p.starts, Start(p.trailingAt.value, false)); }
      ForcedAppend(FireTrailing(p, s.at).starts, Start(s.at, s.atOnce));
    }
  }

  /** The checkpoints that were not forced take an interval each, but for the first. */
  lemma {:induction false} UnforcedTakeTime(interval: int, starts: seq<Start>)
    requires interval > 0 && starts != [] && Spaced(interval, starts)
    ensures (|starts| - 1 - Forced(starts)) * interval <= starts[|starts| - 1].at - starts[0].at
  {
    var n := |starts| - 1;
    if n == 0 {
      assert starts[..0] == [];
      assert (|starts| - 1 - Forced(starts)) * interval <= 0;
    } else {
      UnforcedTakeTime(interval, starts[..n]);
      var k := n - 1 - Forced(starts[..n]);
      if !starts[n].forced {
        assert (k + 1) * interval == k * interval + interval;
      }
    }
  }

  lemma Scales(a: int, b: int, c: int)
    requires a <= b && c > 0
    ensures a * c <= b * c
  {
  }

  lemma QuotientBound(k: int, span: int, interval: int)
    requires interval > 0 && k * interval <= span
    ensures k <= span / interval
  {
    if span / interval < k {
      Scales(span / interval + 1, k, interval);
    }
  }

  lemma UnforcedBound(interval: int, starts: seq<Start>, from: int, to: int)
    requires interval > 0 && starts != [] && Spaced(interval, starts)
    requires from <= starts[0].at && starts[|starts| - 1].at <= to
    ensures |starts| <= Forced(starts) + (to - from) / interval + 1
  {
    UnforcedTakeTime(interval, starts);
    QuotientBound(|starts| - 1 - Forced(starts), to - from, interval);
  }

  /** In all at most one checkpoint per at-once save, one per interval that passed, and one more. */
  lemma CheckpointsAreBounded(interval: int, saves: seq<Save>)
    requires interval > 0 && InOrder(saves) && saves != []
    ensures |Run(interval, saves).starts| <= AtOnce(saves) + (saves[|saves| - 1].at - saves[0].at) / interval + 1
  {
    RunKeeps(interval, saves);
    ForcedAreAtOnce(interval, saves);
    FirstIsNotEarly(interval, saves);
    UnforcedBound(interval, Run(interval, saves).starts, saves[0].at, saves[|saves| - 1].at);
  }

  lemma FirstIsNotEarly(interval: int, saves: seq<Save>)
    requires interval > 0 && InOrder(saves) && saves != []
    ensures Run(interval, saves).starts != [] && saves[0].at <= Run(interval, saves).starts[0].at
    decreases saves
  {
    if |saves| == 1 {
      assert saves[..0] == [];
    } else {
      FirstIsNotEarly(interval, saves[..|saves| - 1]);
    }
  }

  // ----- When checkpoints start -----

  /** The times of the forced checkpoints. */
  function ForcedTimes(starts: seq<Start>): seq<int> {
    if starts == [] then []
    else
      var init, last := ForcedTimes(starts[..|starts| - 1]), starts[|starts| - 1];
      if last.forced then init + [last.at] else init
  }

  function AtOnceTimes(saves: seq<Save>): seq<int> {
    if saves == [] then []
    else
      var init, last := AtOnceTimes(saves[..|saves| - 1]), saves[|saves| - 1];
      if last.atOnce then init + [last.at] else init
  }

  lemma ForcedTimesAppend(starts: seq<Start>, s: Start)
    ensures ForcedTimes(starts + [s]) == if s.forced then ForcedTimes(starts) + [s.at] else ForcedTimes(starts)
  {
    assert (starts + [s])[..|starts + [s]| - 1] == starts;
  }

  /** The forced checkpoints start exactly when the at-once saves are made. */
  lemma {:induction false} ForcedStartAtOnce(interval: int, saves: seq<Save>)
    ensures ForcedTimes(Run(interval, saves).starts) == AtOnceTimes(saves)
  {
    if saves != [] {
      var init, s := saves[..|saves| - 1], saves[|saves| - 1];
      ForcedStartAtOnce(interval, init);
      var p := Run(interval, init);
      if p.trailingAt.Some? { ForcedTimesAppend(p.starts, Start(p.trailingAt.value, false)); }
      ForcedTimesAppend(FireTrailing(p, s.at).starts, Start(s.at, s.atOnce));
    }
  }

  /** When the first checkpoint after a save is due: as soon as the save is made and an interval has
      passed since the checkpoint before it. */
  function DueAt(starts: seq<Start>, interval: int, s: Staged): int
    requires s.before <= |starts|
  {
    if s.before == 0 || starts[s.before - 1].at + interval <= s.at then s.at else starts[s.before - 1].at + interval
  }

  /** The first checkpoint after the save starts when it is due, or earlier if an at-once save forces
      it; one still to come is scheduled for when it is due. */
  predicate IsPrompt(p: Pacing, interval: int, s: Staged) {
    if s.before < |p.starts| then
      var first := p.starts[s.before];
      s.at <= first.at && (if first.forced then first.at <= DueAt(p.starts, interval, s) else first.at == DueAt(p.starts, interval, s))
    else s.before == |p.starts| && p.trailingAt == Some(DueAt(p.starts, interval, s))
  }

  predicate AllPrompt(p: Pacing, interval: int) {
    forall i :: 0 <= i < |p.staged| ==> IsPrompt(p, interval, p.staged[i])
  }

  lemma FirePrompt(p: Pacing, interval: int, now: int, at: int)
    requires interval > 0 && Inv(p, interval, now) && AllPrompt(p, interval) && now <= at
    ensures AllPrompt(FireTrailing(p, at), interval)
  {
    var p' := FireTrailing(p, at);
    forall i | 0 <= i < |p'.staged| ensures IsPrompt(p', interval, p'.staged[i]) {
      assert IsPrompt(p, interval, p.staged[i]) && Covered(p, interval, p.staged[i]);
    }
  }

  lemma StageAndPacePrompt(p: Pacing, interval: int, s: Save)
    requires interval > 0 && Inv(p, interval, s.at) && AllPrompt(p, interval)
    ensures AllPrompt(Pace(Stage(p, s.at), interval, s), interval)
  {
    var p' := Pace(Stage(p, s.at), interval, s);
    forall i | 0 <= i < |p'.staged| ensures IsPrompt(p', interval, p'.staged[i]) {
      if i < |p.staged| { assert IsPrompt(p, interval, p.staged[i]) && Covered(p, interval, p.staged[i]); }
    }
  }

  lemma {:induction false} RunIsPrompt(interval: int, saves: seq<Save>)
    requires interval > 0 && InOrder(saves)
    ensures AllPrompt(Run(interval, saves), interval)
  {
    if saves != [] {
      var init, last := saves[..|saves| - 1], saves[|saves| - 1];
      RunIsPrompt(interval, init);
      var now := if init == [] then last.at else init[|init| - 1].at;
      if init != [] {
        RunKeeps(interval, init);
        assert init[|init| - 1].at == saves[|saves| - 2].at <= last.at;
      }
      FirePrompt(Run(interval, init), interval, now, last.at);
      FireKeeps(Run(interval, init), interval, now, last.at);
      StageAndPacePrompt(FireTrailing(Run(interval, init), last.at), interval, last);
    }
  }

  /** In a run that ends with an at-once save, the first checkpoint after each save starts exactly when
      it is due, or earlier when an at-once save forces it. */
  lemma EveryChangeIsPrompt(interval: int, saves: seq<Save>, i: nat)
    requires interval > 0 && InOrder(saves) && i < |saves| && saves[|saves| - 1].atOnce
    ensures |Run(interval, saves).staged| == |saves|
    ensures var p := Run(interval, saves); var s := p.staged[i]; s.at == saves[i].at && s.before < |p.starts|
    ensures var p := Run(interval, saves); var s := p.staged[i]; var first := p.starts[s.before];
      if first.forced then s.at <= first.at <= DueAt(p.starts, interval, s) else first.at == DueAt(p.starts, interval, s)
  {
    EveryChangeIsCovered(interval, saves, i);
    RunStages(interval, saves);
    RunIsPrompt(interval, saves);
    assert IsPrompt(Run(interval, saves), interval, Run(interval, saves).staged[i]);
  }

  /** Some save was staged since the checkpoint before. */
  predicate HasChanges(p: Pacing, k: nat) {
    exists i :: 0 <= i < |p.staged| && p.staged[i].before == k
  }

  predicate NoneIdle(p: Pacing) {
    && (forall k :: 0 <= k < |p.starts| ==> HasChanges(p, k))
    && (p.trailingAt.Some? ==> HasChanges(p, |p.starts|))
  }

  lemma ChangesGrow(p: Pacing, q: Pacing, k: nat)
    requires HasChanges(p, k) && p.staged <= q.staged
    ensures HasChanges(q, k)
  {
    var i :| 0 <= i < |p.staged| && p.staged[i].before == k;
    assert q.staged[i] == p.staged[i];
  }

  lemma SaveKeepsBusy(p: Pacing, interval: int, s: Save)
    requires NoneIdle(p)
    ensures NoneIdle(AfterSave(p, interval, s))
  {
    var fired, q := FireTrailing(p, s.at), AfterSave(p, interval, s);
    assert q.staged == p.staged + [Staged(s.at, |fired.starts|)];
    assert q.staged[|p.staged|].before == |fired.starts| && HasChanges(q, |fired.starts|);
    forall k: nat | HasChanges(p, k) ensures HasChanges(q, k) { ChangesGrow(p, q, k); }
  }

  /** No checkpoint is made without a save since the one before it. */
  lemma {:induction false} EveryCheckpointHasChanges(interval: int, saves: seq<Save>)
    ensures NoneIdle(Run(interval, saves))
  {
    if saves != [] {
      EveryCheckpointHasChanges(interval, saves[..|saves| - 1]);
      SaveKeepsBusy(Run(interval, saves[..|saves| - 1]), interval, saves[|saves| - 1]);
    }
  }

  // ----- The simulated run -----

  datatype Mode = Paced | WholeRecord | Journal

  class RunPacer {
    const interval: int
    var lastStarted: Option<int>
    var trailingAt: Option<int>
    var checkpoints: nat
    ghost var starts: seq<Start>
    ghost var staged: seq<Staged>

    ghost function State(): Pacing
      reads this
    {
      Pacing(lastStarted, trailingAt, starts, staged)
    }

    ghost predicate Valid()
      reads this
    {
      checkpoints == |starts|
    }

    constructor (interval: int)
      ensures Valid() && State() == IDLE && this.interval == interval
    {
      this.interval := interval;
      lastStarted, trailingAt, checkpoints := None, None, 0;
      starts, staged := [], [];
    }

    method StartCheckpoint(at: int, ghost forced: bool)
      requires Valid()
      modifies this
      ensures Valid() && State() == Commit(old(State()), at, forced)
    {
      lastStarted := Some(at);
      checkpoints := checkpoints + 1;
      starts := starts + [Start(at, forced)];
    }

    method SaveRecord(at: int, atOnce: bool)
      requires Valid()
      modifies this
      ensures Valid() && State() == AfterSave(old(State()), interval, Save(at, atOnce))
    {
      if trailingAt.Some? && trailingAt.value <= at {
        StartCheckpoint(trailingAt.value, false);
        trailingAt := None;
      }
      staged := staged + [Staged(at, |starts|)];
      if atOnce || lastStarted.None? || at - lastStarted.value >= interval {
        trailingAt := None;
        StartCheckpoint(at, atOnce);
      } else if trailingAt.None? {
        trailingAt := Some(lastStarted.value + interval);
      }
    }
  }

  lemma AppendSave(saves: seq<Save>, s: Save)
    requires saves != [] && InOrder(saves) && saves[|saves| - 1].at <= s.at
    ensures InOrder(saves + [s]) && (saves + [s])[0] == saves[0]
    ensures AtOnce(saves + [s]) == AtOnce(saves) + (if s.atOnce then 1 else 0)
  {
    assert (saves + [s])[..|saves + [s]| - 1] == saves;
  }

  /** What is known of the saves made by the end of `step` steps. */
  ghost predicate Simulated(saves: seq<Save>, now: int, atOnce: nat) {
    && saves != [] && InOrder(saves) && saves[0].at == 0 && saves[|saves| - 1].at == now && AtOnce(saves) == atOnce
  }

  lemma SimulatedRunIsBounded(interval: int, saves: seq<Save>, now: int, atOnce: nat)
    requires interval > 0 && Simulated(saves, now, atOnce)
    ensures |Run(interval, saves).starts| <= atOnce + now / interval + 1
  {
    CheckpointsAreBounded(interval, saves);
  }

  /** The saves of the first `steps` steps: one at the start, and for each step one when it starts, at
      once if each record is written whole, and one when it ends. */
  predicate IsSchedule(saves: seq<Save>, steps: nat, stepMs: nat, whole: bool) {
    && |saves| > 2 * steps && saves[0] == Save(0, false)
    && forall k :: 0 <= k < steps ==>
         saves[2 * k + 1] == Save(k * stepMs, whole) && saves[2 * k + 2] == Save((k + 1) * stepMs, false)
  }

  /** The simulated clock after `steps` steps. */
  function Clock(steps: nat, stepMs: nat): nat {
    if steps == 0 then 0 else Clock(steps - 1, stepMs) + stepMs
  }

  lemma {:induction false} ClockIsProduct(steps: nat, stepMs: nat)
    ensures Clock(steps, stepMs) == steps * stepMs
  {
    if steps > 0 {
      ClockIsProduct(steps - 1, stepMs);
      assert steps * stepMs == (steps - 1) * stepMs + stepMs;
    }
  }

  function Schedule(steps: nat, stepMs: nat, whole: bool): (r: seq<Save>)
    ensures |r| == 2 * steps + 1
  {
    if steps == 0 then [Save(0, false)]
    else
      Schedule(steps - 1, stepMs, whole)
      + [Save(Clock(steps - 1, stepMs), whole)] + [Save(Clock(steps, stepMs), false)]
  }

  lemma {:induction false} ScheduleAt(steps: nat, stepMs: nat, whole: bool, k: nat)
    requires k < steps
    ensures Schedule(steps, stepMs, whole)[2 * k + 1] == Save(Clock(k, stepMs), whole)
    ensures Schedule(steps, stepMs, whole)[2 * k + 2] == Save(Clock(k + 1, stepMs), false)
    ensures Schedule(steps, stepMs, whole)[0] == Save(0, false)
    decreases steps
  {
    if k < steps - 1 {
      ScheduleAt(steps - 1, stepMs, whole, k);
    } else if k > 0 {
      ScheduleAt(steps - 1, stepMs, whole, 0);
    }
  }

  lemma ScheduleIsSchedule(steps: nat, stepMs: nat, whole: bool, last: Save)
    ensures IsSchedule(Schedule(steps, stepMs, whole) + [last], steps, stepMs, whole)
  {
    var saves := Schedule(steps, stepMs, whole) + [last];
    forall k | 0 <= k < steps
      ensures saves[2 * k + 1] == Save(k * stepMs, whole) && saves[2 * k + 2] == Save((k + 1) * stepMs, false)
    {
      ScheduleAt(steps, stepMs, whole, k);
      ClockIsProduct(k, stepMs);
      ClockIsProduct(k + 1, stepMs);
    }
    if steps > 0 { ScheduleAt(steps, stepMs, whole, 0); }
  }

  lemma {:induction false} ScheduleIsSimulated(steps: nat, stepMs: nat, whole: bool)
    ensures Simulated(Schedule(steps, stepMs, whole), Clock(steps, stepMs), if whole then steps else 0)
    decreases steps
  {
    if steps == 0 {
      assert [Save(0, false)][..0] == [];
    } else {
      ScheduleIsSimulated(steps - 1, stepMs, whole);
      var before := Schedule(steps - 1, stepMs, whole);
      AppendSave(before, Save(Clock(steps - 1, stepMs), whole));
      AppendSave(before + [Save(Clock(steps - 1, stepMs), whole)], Save(Clock(steps, stepMs), false));
    }
  }

  /** The run makes these saves and a last one at once, and counts exactly their checkpoints.  However many steps of whatever length, there is at
      most one checkpoint per interval on top of the forced ones and the first. */
  method SimulatePacedRun(interval: int, steps: nat, stepMs: nat, mode: Mode)
    returns (checkpoints: nat, ghost saves: seq<Save>)
    requires interval > 0
    ensures IsSchedule(saves, steps, stepMs, mode.WholeRecord?)
    ensures |saves| == 2 * steps + 2 && saves[|saves| - 1] == Save(steps * stepMs, true)
    ensures InOrder(saves) && AtOnce(saves) == if mode.WholeRecord? then steps + 1 else 1
    ensures checkpoints == |Run(interval, saves).starts|
    ensures checkpoints <= (if mode.WholeRecord? then steps + 1 else 1) + steps * stepMs / interval + 1
  {
    var pacer := new RunPacer(interval);
    var now := 0;
    pacer.SaveRecord(now, false);
    saves := [Save(0, false)];
    assert saves[..0] == [];
    for step := 0 to steps
      invariant fresh(pacer) && pacer.Valid() && pacer.interval == interval
      invariant now == Clock(step, stepMs) && saves == Schedule(step, stepMs, mode.WholeRecord?)
      invariant pacer.State() == Run(interval, saves)
    {
      saves := SaveNext(pacer, saves, now, mode.WholeRecord?);
      now := now + stepMs;
      saves := SaveNext(pacer, saves, now, false);
    }
    ClockIsProduct(steps, stepMs);
    saves := SaveNext(pacer, saves, now, true);
    checkpoints := pacer.checkpoints;
    ScheduledRunIsBounded(interval, steps, stepMs, mode.WholeRecord?);
  }

  lemma ScheduledRunIsBounded(interval: int, steps: nat, stepMs: nat, whole: bool)
    requires interval > 0
    ensures var saves := Schedule(steps, stepMs, whole) + [Save(steps * stepMs, true)];
      && IsSchedule(saves, steps, stepMs, whole)
      && InOrder(saves) && AtOnce(saves) == (if whole then steps + 1 else 1)
      && |Run(interval, saves).starts| <= (if whole then steps + 1 else 1) + steps * stepMs / interval + 1
  {
    var last := Save(steps * stepMs, true);
    ClockIsProduct(steps, stepMs);
    ScheduleIsSimulated(steps, stepMs, whole);
    ScheduleIsSchedule(steps, stepMs, whole, last);
    AppendSave(Schedule(steps, stepMs, whole), last);
    SimulatedRunIsBounded(interval, Schedule(steps, stepMs, whole) + [last], last.at, if whole then steps + 1 else 1);
  }

  /** One save of the simulated run. */
  method SaveNext(pacer: RunPacer, ghost saves: seq<Save>, at: int, atOnce: bool) returns (ghost saves': seq<Save>)
    requires pacer.Valid() && pacer.State() == Run(pacer.interval, saves)
    modifies pacer
    ensures saves' == saves + [Save(at, atOnce)]
    ensures pacer.Valid() && pacer.State() == Run(pacer.interval, saves')
  {
    pacer.SaveRecord(at, atOnce);
    saves' := saves + [Save(at, atOnce)];
    RunAppend(pacer.interval, saves, Save(at, atOnce));
  }

  lemma RunAppend(interval: int, saves: seq<Save>, s: Save)
    ensures Run(interval, saves + [s]) == AfterSave(Run(interval, saves), interval, s)
  {
    assert (saves + [s])[..|saves + [s]| - 1] == saves;
  }
}
