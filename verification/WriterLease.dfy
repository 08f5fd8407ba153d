/**
 The writer lease of the v3 datastore, as a state machine over every interleaving of
 any number of processes.

 A process takes the lease by creating the record of a fence with `putIfAbsent`, and
 holds it once a listing shows no higher fence and no release of its own.  A holder
 raises the commit store's fence before it writes, and prunes the records of fences
 older than the one before its own.  Clocks, time-to-live verdicts and liveness
 judgements only choose *which* fence a process tries and *when*; they appear here as a
 completely free choice, so what is proved holds whatever the clocks say.
 */
module WriterLease {
  import opened Options

  /** One `#take` attempt is named by the nonce it writes into its fence record. */
  type Nonce = nat

  /** `Created`: the record is written, the listing not yet read.  `Held` and `Writing`
      (fence raised in the commit store) passed the listing; `Lost` was fenced or released. */
  datatype Phase = Created | Held | Writing | Lost

  /** `passed`: the attempt was a holder at some time; `raised`: it raised the store's fence. */
  datatype Attempt = Attempt(fence: nat, phase: Phase, passed: bool, raised: bool)

  datatype Commit = Unfenced | Fenced(fence: nat, writer: Nonce)

  /** `records`: the fence records of the control plane; `released`: its release markers.
      `storeFence` and `log` belong to the commit store. */
  datatype State = State(
    records: map<nat, Nonce>,
    released: set<nat>,
    attempts: map<Nonce, Attempt>,
    storeFence: Option<nat>,
    log: seq<Commit>)

  datatype Step =
    | Create(n: Nonce, fence: nat)     // putIfAbsent of a fence record
    | Renew(n: Nonce)                  // list, then judge by the listing
    | Release(n: Nonce)                // by the holder
    | ForceRelease(fence: nat)         // by an operator
    | Prune(n: Nonce, fence: nat)      // delete one old record
    | Raise(n: Nonce)                  // raiseWriterFence
    | Append(n: Nonce)                 // a commit naming the attempt's fence
    | AppendUnfenced

  const INITIAL := State(map[], {}, map[], None, [])

  /** The listing shows a fence above `fence`. */
  predicate Superseded(s: State, fence: nat) {
    exists f :: f in s.records && f > fence
  }

  /** The commit store's `#checkWriterFence`. */
  predicate FenceAccepted(stored: Option<nat>, fence: Option<nat>) {
    stored.None? || (fence.Some? && fence.value >= stored.value)
  }

  function Next(s: State, step: Step): (s': State) {
    match step
    case Create(n, fence) =>
      if fence < 1 || n in s.attempts || fence in s.records then s
      else s.(records := s.records[fence := n],
              attempts := s.attempts[n := Attempt(fence, Created, false, false)])
    case Renew(n) =>
      if n !in s.attempts || s.attempts[n].phase.Lost? then s
      else
        var a := s.attempts[n];
        if Superseded(s, a.fence) || a.fence in s.released then
          s.(attempts := s.attempts[n := a.(phase := Lost)])
        else if a.phase.Created? then
          s.(attempts := s.attempts[n := a.(phase := Held, passed := true)])
        else s
    case Release(n) =>
      if n !in s.attempts || s.attempts[n].phase.Lost? then s
      else s.(released := s.released + {s.attempts[n].fence},
              attempts := s.attempts[n := s.attempts[n].(phase := Lost)])
    case ForceRelease(fence) => s.(released := s.released + {fence})
    case Prune(n, fence) =>
      if n in s.attempts && s.attempts[n].passed && fence + 1 < s.attempts[n].fence then
        s.(records := s.records - {fence}, released := s.released - {fence})
      else s
    case Raise(n) =>
      if n !in s.attempts || !s.attempts[n].phase.Held? then s
      else
        var a := s.attempts[n];
        if FenceAccepted(s.storeFence, Some(a.fence)) then
          s.(storeFence := Some(a.fence),
             attempts := s.attempts[n := a.(phase := Writing, raised := true)])
        else s.(attempts := s.attempts[n := a.(phase := Lost)])
    case Append(n) =>
      // A writer that has not yet noticed its loss still tries: only `raised` is asked of it.
      if n in s.attempts && s.attempts[n].raised
         && FenceAccepted(s.storeFence, Some(s.attempts[n].fence)) then
        s.(log := s.log + [Fenced(s.attempts[n].fence, n)])
      else s
    case AppendUnfenced =>
      if FenceAccepted(s.storeFence, None) then s.(log := s.log + [Unfenced]) else s
  }

  function Run(steps: seq<Step>): (s: State) {
    if steps == [] then INITIAL else Next(Run(steps[..|steps| - 1]), steps[|steps| - 1])
  }

  // ----- What every step keeps -----

  /** No record is lost for good unless a fence at least two above it exists. */
  ghost predicate RecordKept(s: State, n: Nonce)
    requires n in s.attempts
  {
    var f := s.attempts[n].fence;
    (f in s.records && s.records[f] == n) || Superseded(s, f)
  }

  ghost predicate Attempts(s: State) {
    && (forall n :: n in s.attempts ==> RecordKept(s, n))
    && (forall n :: n in s.attempts && s.attempts[n].phase in {Held, Writing} ==> s.attempts[n].passed)
    && (forall n :: n in s.attempts && s.attempts[n].phase.Writing? ==> s.attempts[n].raised)
    && (forall n :: n in s.attempts && s.attempts[n].raised ==> s.attempts[n].passed)
  }

  /** At most one attempt was ever a holder of a given fence. */
  ghost predicate OneHolderPerFence(s: State) {
    forall m, n ::
      (m in s.attempts && n in s.attempts && s.attempts[m].passed && s.attempts[n].passed
       && s.attempts[m].fence == s.attempts[n].fence) ==> m == n
  }

  /** The store's fence is the highest raised one. */
  ghost predicate StoreFenced(s: State) {
    && (forall n :: n in s.attempts && s.attempts[n].raised ==>
          s.storeFence.Some? && s.attempts[n].fence <= s.storeFence.value)
    && (s.storeFence.Some? ==>
          exists n :: n in s.attempts && s.attempts[n].raised && s.attempts[n].fence == s.storeFence.value)
  }

  ghost predicate CommitOwned(s: State, c: Commit) {
    c.Fenced? ==>
      && c.writer in s.attempts
      && s.attempts[c.writer].raised
      && s.attempts[c.writer].fence == c.fence
  }

  /** `c` may directly or indirectly precede `d`: fences never go back, and no unfenced
      commit follows a fenced one. */
  predicate Ordered(c: Commit, d: Commit) {
    c.Fenced? ==> d.Fenced? && c.fence <= d.fence
  }

  ghost predicate LogFenced(s: State) {
    && (forall i :: 0 <= i < |s.log| ==> CommitOwned(s, s.log[i]))
    && (forall i, j :: 0 <= i < j < |s.log| ==> Ordered(s.log[i], s.log[j]))
  }

  ghost predicate Inv(s: State) {
    Attempts(s) && OneHolderPerFence(s) && StoreFenced(s) && LogFenced(s)
  }

  /** Creating a record keeps every record that was there. */
  lemma CreateKeeps(s: State, n: Nonce, fence: nat)
    requires Inv(s)
    ensures Inv(Next(s, Create(n, fence)))
  {
    var s' := Next(s, Create(n, fence));
    if s' != s {
      forall m | m in s'.attempts ensures RecordKept(s', m) {
        if m != n {
          assert RecordKept(s, m);
          if Superseded(s, s.attempts[m].fence) {
            var g :| g in s.records && g > s.attempts[m].fence;
            assert g in s'.records;
          }
        }
      }
      LogCarries(s, s');
    }
  }

  /** A holder whose fence nothing supersedes is the only attempt at that fence: whoever tried
      it earlier would need the record this one finds under its own nonce. */
  lemma UnsupersededIsAlone(s: State, n: Nonce)
    requires Attempts(s) && n in s.attempts && !Superseded(s, s.attempts[n].fence)
    ensures forall m :: m in s.attempts && s.attempts[m].fence == s.attempts[n].fence ==> m == n
  {
    assert RecordKept(s, n);
    forall m | m in s.attempts && s.attempts[m].fence == s.attempts[n].fence ensures m == n {
      assert RecordKept(s, m);
    }
  }

  /** Changing one attempt's phase leaves every record where it was. */
  lemma RecordsCarry(s: State, s': State)
    requires forall n :: n in s.attempts ==> RecordKept(s, n)
    requires s'.records == s.records && s'.attempts.Keys == s.attempts.Keys && SameHistory(s, s')
    ensures forall n :: n in s'.attempts ==> RecordKept(s', n)
  {
    forall n | n in s'.attempts ensures RecordKept(s', n) {
      assert RecordKept(s, n);
      assert s'.attempts[n].fence == s.attempts[n].fence;
      if Superseded(s, s.attempts[n].fence) {
        var g :| g in s.records && g > s.attempts[n].fence;
        assert g in s'.records;
      }
    }
  }

  lemma RenewIsUnique(s: State, n: Nonce)
    requires Attempts(s) && OneHolderPerFence(s)
    ensures OneHolderPerFence(Next(s, Renew(n)))
  {
    var s' := Next(s, Renew(n));
    if s' != s && s'.attempts[n].phase.Held? {
      UnsupersededIsAlone(s, n);
    }
  }

  lemma RenewKeepsAttempts(s: State, n: Nonce)
    requires Attempts(s)
    ensures Attempts(Next(s, Renew(n)))
  {
    var s' := Next(s, Renew(n));
    if s' != s {
      RecordsCarry(s, s');
    }
  }

  lemma RenewKeepsStore(s: State, n: Nonce)
    requires StoreFenced(s)
    ensures StoreFenced(Next(s, Renew(n)))
  {
    StoreCarries(s, Next(s, Renew(n)));
  }

  lemma RenewKeeps(s: State, n: Nonce)
    requires Inv(s)
    ensures Inv(Next(s, Renew(n)))
  {
    RenewIsUnique(s, n);
    RenewKeepsAttempts(s, n);
    RenewKeepsStore(s, n);
    StepKeepsLog(s, Renew(n));
  }

  /** Pruning below `fence - 1` of a past holder leaves a higher record for every deleted one:
      the holder's own, or the one that outlived it. */
  lemma PruneKeeps(s: State, n: Nonce, fence: nat)
    requires Inv(s)
    ensures Inv(Next(s, Prune(n, fence)))
  {
    var s' := Next(s, Prune(n, fence));
    if s' != s {
      assert RecordKept(s, n);
      var top :| top in s.records && top >= s.attempts[n].fence;
      forall m | m in s'.attempts ensures RecordKept(s', m) {
        assert RecordKept(s, m);
        assert top in s'.records;
        if s.attempts[m].fence >= top && s.attempts[m].fence !in s.records {
          var g :| g in s.records && g > s.attempts[m].fence;
          assert g in s'.records;
        } else if s.attempts[m].fence >= top && s.records[s.attempts[m].fence] != m {
          var g :| g in s.records && g > s.attempts[m].fence;
          assert g in s'.records;
        }
      }
      StoreCarries(s, s');
      LogCarries(s, s');
    }
  }

  lemma RaiseKeepsAttempts(s: State, n: Nonce)
    requires Attempts(s) && OneHolderPerFence(s)
    ensures Attempts(Next(s, Raise(n))) && OneHolderPerFence(Next(s, Raise(n)))
  {
    var s' := Next(s, Raise(n));
    if s' != s {
      RecordsCarry(s, s');
    }
  }

  lemma RaiseKeepsStore(s: State, n: Nonce)
    requires StoreFenced(s)
    ensures StoreFenced(Next(s, Raise(n)))
  {
    var s' := Next(s, Raise(n));
    if s' != s {
      if FenceAccepted(s.storeFence, Some(s.attempts[n].fence)) {
        assert s'.storeFence == Some(s'.attempts[n].fence);
      } else {
        StoreCarries(s, s');
      }
    }
  }

  lemma RaiseKeeps(s: State, n: Nonce)
    requires Inv(s)
    ensures Inv(Next(s, Raise(n)))
  {
    RaiseKeepsAttempts(s, n);
    RaiseKeepsStore(s, n);
    StepKeepsLog(s, Raise(n));
  }

  lemma ReleaseKeeps(s: State, n: Nonce)
    requires Inv(s)
    ensures Inv(Next(s, Release(n)))
  {
    var s' := Next(s, Release(n));
    if s' != s {
      RecordsCarry(s, s');
      StoreCarries(s, s');
      LogCarries(s, s');
    }
  }

  /** An accepted commit is not below the store's fence, and so not below any earlier one's. */
  lemma AppendKeeps(s: State, n: Nonce)
    requires Inv(s)
    ensures Inv(Next(s, Append(n)))
  {
    var s' := Next(s, Append(n));
    if s' != s {
      RecordsCarry(s, s');
      StoreCarries(s, s');
      forall i | 0 <= i < |s.log| ensures Ordered(s.log[i], s'.log[|s.log|]) {
        assert CommitOwned(s, s.log[i]);
      }
      forall i | 0 <= i < |s'.log| ensures CommitOwned(s', s'.log[i]) {
        if i < |s.log| { assert CommitOwned(s, s.log[i]); }
      }
    }
  }

  lemma AppendUnfencedKeeps(s: State)
    requires Inv(s)
    ensures Inv(Next(s, AppendUnfenced))
  {
    var s' := Next(s, AppendUnfenced);
    if s' != s {
      RecordsCarry(s, s');
      StoreCarries(s, s');
      forall i | 0 <= i < |s.log| ensures s.log[i].Unfenced? {
        assert CommitOwned(s, s.log[i]);
      }
      forall i | 0 <= i < |s'.log| ensures CommitOwned(s', s'.log[i]) {
        if i < |s.log| { assert CommitOwned(s, s.log[i]); }
      }
    }
  }

  ghost predicate SameHistory(s: State, s': State) {
    forall m :: m in s.attempts ==>
      m in s'.attempts && s'.attempts[m].fence == s.attempts[m].fence
      && (s.attempts[m].raised ==> s'.attempts[m].raised)
  }

  /** No step forgets an attempt or a raise, takes back a commit or lowers the store's fence. */
  lemma StepGrows(s: State, step: Step)
    ensures SameHistory(s, Next(s, step))
    ensures s.log <= Next(s, step).log
    ensures s.storeFence.Some? ==>
      Next(s, step).storeFence.Some? && s.storeFence.value <= Next(s, step).storeFence.value
  {
  }

  lemma StepKeepsLog(s: State, step: Step)
    requires LogFenced(s) && Next(s, step).log == s.log
    ensures LogFenced(Next(s, step))
  {
    StepGrows(s, step);
    LogCarries(s, Next(s, step));
  }

  lemma StoreCarries(s: State, s': State)
    requires StoreFenced(s) && SameHistory(s, s') && s'.storeFence == s.storeFence
    requires forall m :: m in s'.attempts && s'.attempts[m].raised ==> m in s.attempts && s.attempts[m].raised
    ensures StoreFenced(s')
  {
    if s.storeFence.Some? {
      var n :| n in s.attempts && s.attempts[n].raised && s.attempts[n].fence == s.storeFence.value;
      assert s'.attempts[n].raised;
    }
  }

  lemma LogCarries(s: State, s': State)
    requires LogFenced(s) && SameHistory(s, s') && s'.log == s.log
    ensures LogFenced(s')
  {
    forall i | 0 <= i < |s'.log| ensures CommitOwned(s', s'.log[i]) {
      assert CommitOwned(s, s.log[i]);
    }
  }

  lemma StepKeeps(s: State, step: Step)
    requires Inv(s)
    ensures Inv(Next(s, step))
  {
    match step
    case Create(n, fence) => CreateKeeps(s, n, fence);
    case Renew(n) => RenewKeeps(s, n);
    case Release(n) => ReleaseKeeps(s, n);
    case ForceRelease(fence) =>
      var s' := Next(s, step);
      RecordsCarry(s, s');
      StoreCarries(s, s');
      LogCarries(s, s');
    case Prune(n, fence) => PruneKeeps(s, n, fence);
    case Raise(n) => RaiseKeeps(s, n);
    case Append(n) => AppendKeeps(s, n);
    case AppendUnfenced => AppendUnfencedKeeps(s);
  }

  lemma {:induction false} RunKeeps(steps: seq<Step>)
    ensures Inv(Run(steps))
  {
    if steps != [] {
      RunKeeps(steps[..|steps| - 1]);
      StepKeeps(Run(steps[..|steps| - 1]), steps[|steps| - 1]);
    }
  }

  // ----- The promises -----

  /** In every run the log is a concatenation of single-writer sessions: once a commit of
      fence `g` landed, nothing of a lower fence and nothing unfenced lands after it, and two
      commits of one fence are by one holder. */
  lemma SingleWriter(steps: seq<Step>, i: nat, j: nat)
    requires i < j < |Run(steps).log| && Run(steps).log[i].Fenced?
    ensures var log := Run(steps).log;
      && log[j].Fenced?
      && log[i].fence <= log[j].fence
      && (log[i].fence == log[j].fence <==> log[i].writer == log[j].writer)
  {
    RunKeeps(steps);
    var s := Run(steps);
    assert CommitOwned(s, s.log[i]) && CommitOwned(s, s.log[j]);
    assert Ordered(s.log[i], s.log[j]);
  }

  /** Extending a run never moves the store's fence back, never forgets a raise, and only
      adds to the log. */
  lemma {:induction false} Grows(steps: seq<Step>, more: seq<Step>)
    ensures SameHistory(Run(steps), Run(steps + more))
    ensures Run(steps).log <= Run(steps + more).log
    ensures Run(steps).storeFence.Some? ==>
      Run(steps + more).storeFence.Some? && Run(steps).storeFence.value <= Run(steps + more).storeFence.value
  {
    if more == [] {
      assert steps + more == steps;
    } else {
      var init, last := more[..|more| - 1], more[|more| - 1];
      Grows(steps, init);
      assert (steps + more)[..|steps + more| - 1] == steps + init;
      assert Run(steps + more) == Next(Run(steps + init), last);
      StepGrows(Run(steps + init), last);
    }
  }

  /** What one step can add to the log: at most one commit, and only one the store's fence lets in. */
  lemma StepAppends(s: State, step: Step)
    ensures var s' := Next(s, step);
      s'.log == s.log
      || exists c :: s'.log == s.log + [c]
                     && (s.storeFence.Some? ==>
                           c.Fenced? && c.writer in s.attempts && s.attempts[c.writer].fence >= s.storeFence.value)
  {
    if step.Append? && Next(s, step) != s {
      assert Next(s, step).log == s.log + [Fenced(s.attempts[step.n].fence, step.n)];
    } else if step.AppendUnfenced? && Next(s, step) != s {
      assert Next(s, step).log == s.log + [Unfenced];
    }
  }

  /** A superseded writer lands nothing more, however late it notices: after another holder
      raised a higher fence, no commit the stale writer sends is in what the log gains. */
  lemma {:induction false} SupersededWriterIsRefused(
    steps: seq<Step>, more: seq<Step>, stale: Nonce, current: Nonce, k: nat)
    requires stale in Run(steps).attempts && current in Run(steps).attempts
    requires Run(steps).attempts[current].raised
    requires Run(steps).attempts[stale].fence < Run(steps).attempts[current].fence
    requires |Run(steps).log| <= k < |Run(steps + more).log|
    ensures Run(steps + more).log[k].Fenced? && Run(steps + more).log[k].writer != stale
    decreases |more|
  {
    assert more == [] ==> steps + more == steps;
    if more != [] {
      var init, last := more[..|more| - 1], more[|more| - 1];
      assert (steps + more)[..|steps + more| - 1] == steps + init;
      assert Run(steps + more) == Next(Run(steps + init), last);
      RunKeeps(steps);
      Grows(steps, init);
      StepAppends(Run(steps + init), last);
      if k < |Run(steps + init).log| {
        SupersededWriterIsRefused(steps, init, stale, current, k);
      }
    }
  }

  // ----- Releases -----

  /** Lost is lost for good: no later step changes the attempt. */
  lemma {:induction false} LostForGood(steps: seq<Step>, n: Nonce, more: seq<Step>)
    requires n in Run(steps).attempts && Run(steps).attempts[n].phase.Lost?
    ensures n in Run(steps + more).attempts && Run(steps + more).attempts[n] == Run(steps).attempts[n]
    decreases |more|
  {
    if more == [] {
      assert steps + more == steps;
    } else {
      var init, last := more[..|more| - 1], more[|more| - 1];
      LostForGood(steps, n, init);
      RunOn(steps + init, last);
      assert steps + more == steps + init + [last];
    }
  }

  /** The step marks the fence as released: an operator does, or a holder gives it up. */
  predicate Releases(s: State, step: Step, fence: nat) {
    || step == ForceRelease(fence)
    || (step.Release? && step.n in s.attempts && s.attempts[step.n].fence == fence && !s.attempts[step.n].phase.Lost?)
  }

  /** The step deletes the fence's record and marker: somebody was a holder of a fence at least two
      above it. */
  predicate Prunes(s: State, step: Step, fence: nat) {
    && step.Prune? && step.fence == fence && step.n in s.attempts
    && s.attempts[step.n].passed && s.attempts[step.n].fence >= fence + 2
  }

  predicate ReleasedAt(steps: seq<Step>, i: nat, fence: nat)
    requires i < |steps|
  {
    Releases(Run(steps[..i]), steps[i], fence)
  }

  predicate PrunedAt(steps: seq<Step>, i: nat, fence: nat)
    requires i < |steps|
  {
    Prunes(Run(steps[..i]), steps[i], fence)
  }

  /** It was released and not pruned since. */
  ghost predicate IsMarked(steps: seq<Step>, fence: nat) {
    exists i: nat :: i < |steps| && ReleasedAt(steps, i, fence) && forall j: nat :: i < j < |steps| ==> !PrunedAt(steps, j, fence)
  }

  lemma SameAt(steps: seq<Step>, step: Step, i: nat, fence: nat)
    requires i < |steps|
    ensures ReleasedAt(steps + [step], i, fence) <==> ReleasedAt(steps, i, fence)
    ensures PrunedAt(steps + [step], i, fence) <==> PrunedAt(steps, i, fence)
  {
    assert (steps + [step])[..i] == steps[..i];
  }

  lemma MarkedAppend(steps: seq<Step>, step: Step, fence: nat)
    ensures IsMarked(steps + [step], fence)
       <==> Releases(Run(steps), step, fence) || (IsMarked(steps, fence) && !Prunes(Run(steps), step, fence))
  {
    var more, n := steps + [step], |steps|;
    assert more[..n] == steps && more[n] == step;
    forall i: nat | i < n
      ensures ReleasedAt(more, i, fence) <==> ReleasedAt(steps, i, fence)
      ensures PrunedAt(more, i, fence) <==> PrunedAt(steps, i, fence)
    {
      SameAt(steps, step, i, fence);
    }
    assert ReleasedAt(more, n, fence) <==> Releases(Run(steps), step, fence);
    assert PrunedAt(more, n, fence) <==> Prunes(Run(steps), step, fence);
    if IsMarked(steps, fence) && !Prunes(Run(steps), step, fence) {
      var i: nat :| i < n && ReleasedAt(steps, i, fence) && forall j: nat :: i < j < n ==> !PrunedAt(steps, j, fence);
      assert ReleasedAt(more, i, fence);
    }
  }

  /** A fence is marked exactly when it was released and not pruned since. */
  lemma {:induction false} ReleasedIff(steps: seq<Step>, fence: nat)
    ensures fence in Run(steps).released <==> IsMarked(steps, fence)
  {
    if steps != [] {
      var init, last := steps[..|steps| - 1], steps[|steps| - 1];
      ReleasedIff(init, fence);
      MarkedAppend(init, last, fence);
      assert steps == init + [last];
    }
  }

  /** A new attempt writes the fence's record, when there is none. */
  predicate CreatedAt(steps: seq<Step>, i: nat, fence: nat)
    requires i < |steps|
  {
    var s := Run(steps[..i]);
    steps[i].Create? && steps[i].fence == fence >= 1 && steps[i].n !in s.attempts && fence !in s.records
  }

  /** A record was written and not pruned since. */
  ghost predicate IsRecorded(steps: seq<Step>, fence: nat, n: Nonce) {
    exists i: nat ::
      && i < |steps| && CreatedAt(steps, i, fence) && steps[i].n == n
      && forall j: nat :: i < j < |steps| ==> !PrunedAt(steps, j, fence)
  }

  lemma RecordedAppend(steps: seq<Step>, step: Step, fence: nat, n: Nonce)
    ensures var s, more := Run(steps), steps + [step];
      IsRecorded(more, fence, n)
      <==> (CreatedAt(more, |steps|, fence) && step.n == n) || (IsRecorded(steps, fence, n) && !Prunes(s, step, fence))
  {
    var more, k := steps + [step], |steps|;
    assert more[..k] == steps && more[k] == step;
    forall i: nat | i < k
      ensures CreatedAt(more, i, fence) <==> CreatedAt(steps, i, fence)
      ensures PrunedAt(more, i, fence) <==> PrunedAt(steps, i, fence)
    {
      assert more[..i] == steps[..i];
      SameAt(steps, step, i, fence);
    }
    assert PrunedAt(more, k, fence) <==> Prunes(Run(steps), step, fence);
    if IsRecorded(steps, fence, n) && !Prunes(Run(steps), step, fence) {
      var i: nat :| i < k && CreatedAt(steps, i, fence) && steps[i].n == n
                    && forall j: nat :: i < j < k ==> !PrunedAt(steps, j, fence);
      assert CreatedAt(more, i, fence);
    }
  }

  /** The records are exactly those written and not pruned since, each by the attempt that wrote it. */
  lemma {:induction false} RecordedIff(steps: seq<Step>, fence: nat, n: Nonce)
    ensures (fence in Run(steps).records && Run(steps).records[fence] == n) <==> IsRecorded(steps, fence, n)
  {
    if steps != [] {
      var init, last := steps[..|steps| - 1], steps[|steps| - 1];
      RecordedIff(init, fence, n);
      RecordedAppend(init, last, fence, n);
      assert steps == init + [last] && steps[..|init|] == init;
    }
  }

  /** What a look at the listing makes of an attempt: it is lost when a higher fence is there or its own
      is released, and a holder otherwise. */
  lemma RenewMeans(steps: seq<Step>, n: Nonce)
    requires n in Run(steps).attempts && !Run(steps).attempts[n].phase.Lost?
    ensures var s, s' := Run(steps), Run(steps + [Renew(n)]); var fence := s.attempts[n].fence;
      && n in s'.attempts
      && (s'.attempts[n].phase.Lost? <==> fence in s.released || exists f :: f in s.records && f > fence)
      && (!s'.attempts[n].phase.Lost? ==> s'.attempts[n].passed && s'.attempts[n].phase in {Held, Writing})
  {
    RunOn(steps, Renew(n));
    RunKeeps(steps);
  }

  /** No attempt becomes a holder while its fence is released, whatever step is taken. */
  lemma NotHeldWhileReleased(steps: seq<Step>, step: Step, n: Nonce)
    requires n in Run(steps).attempts && Run(steps).attempts[n].fence in Run(steps).released
    ensures var s, s' := Run(steps), Run(steps + [step]);
      n in s'.attempts && (s'.attempts[n].passed ==> s.attempts[n].passed)
  {
    RunOn(steps, step);
  }

  lemma {:induction false} StaysReleased(steps: seq<Step>, fence: nat, more: seq<Step>)
    requires fence in Run(steps).released && forall m :: Prune(m, fence) !in more
    ensures fence in Run(steps + more).released
    decreases |more|
  {
    if more == [] {
      assert steps + more == steps;
    } else {
      var init, last := more[..|more| - 1], more[|more| - 1];
      StaysReleased(steps, fence, init);
      RunOn(steps + init, last);
      assert steps + more == steps + init + [last];
      assert last in more;
    }
  }

  /** However a fence was released, until it is pruned an attempt at it that looks at the listing is lost,
      and from then on it holds nothing and raises nothing more. */
  lemma ReleasedIsLost(steps: seq<Step>, release: Step, fence: nat, more: seq<Step>, n: Nonce, after: seq<Step>)
    requires Releases(Run(steps), release, fence) && forall m :: Prune(m, fence) !in more
    requires n in Run(steps + [release] + more).attempts && Run(steps + [release] + more).attempts[n].fence == fence
    ensures var s, s' := Run(steps + [release] + more), Run(steps + [release] + more + [Renew(n)] + after);
      n in s'.attempts && s'.attempts[n] == s.attempts[n].(phase := Lost)
  {
    RunOn(steps, release);
    StaysReleased(steps + [release], fence, more);
    var looked := steps + [release] + more;
    RunOn(looked, Renew(n));
    LostForGood(looked + [Renew(n)], n, after);
  }

  // ----- What the commit store lets in -----

  /** A holder raises the store's fence exactly when no higher one was raised. */
  lemma RaisesIff(steps: seq<Step>, n: Nonce)
    requires n in Run(steps).attempts && Run(steps).attempts[n].phase.Held?
    ensures var s, s' := Run(steps), Run(steps + [Raise(n)]);
      n in s'.attempts && (s'.attempts[n].raised <==> NoneHigher(s, s.attempts[n].fence))
  {
    RunOn(steps, Raise(n));
    RunKeeps(steps);
    HeldIsNotRaised(steps, n);
    StoreIsHighest(Run(steps));
  }

  /** A writer that raised a fence lands a commit exactly when no higher one was raised, and an unfenced
      commit lands exactly when none was raised at all. */
  lemma LandsIff(steps: seq<Step>, n: Nonce)
    ensures var s := Run(steps); n in s.attempts && s.attempts[n].raised ==>
      Run(steps + [Append(n)]).log
      == if NoneHigher(s, s.attempts[n].fence) then s.log + [Fenced(s.attempts[n].fence, n)] else s.log
    ensures var s := Run(steps);
      Run(steps + [AppendUnfenced]).log == if NoneRaised(s) then s.log + [Unfenced] else s.log
  {
    RunOn(steps, Append(n));
    RunOn(steps, AppendUnfenced);
    RunKeeps(steps);
    StoreIsHighest(Run(steps));
  }

  ghost predicate NoneRaised(s: State) {
    forall m :: m in s.attempts ==> !s.attempts[m].raised
  }

  lemma StoreIsHighest(s: State)
    requires StoreFenced(s)
    ensures s.storeFence.None? <==> NoneRaised(s)
    ensures forall fence :: NoneHigher(s, fence) <==> s.storeFence.None? || s.storeFence.value <= fence
  {
    if s.storeFence.Some? {
      var m :| m in s.attempts && s.attempts[m].raised && s.attempts[m].fence == s.storeFence.value;
    }
  }

  ghost predicate NoneHigher(s: State, fence: nat) {
    forall m :: m in s.attempts && s.attempts[m].raised ==> s.attempts[m].fence <= fence
  }

  lemma {:induction false} HeldIsNotRaised(steps: seq<Step>, n: Nonce)
    requires n in Run(steps).attempts
    ensures Run(steps).attempts[n].phase in {Created, Held} ==> !Run(steps).attempts[n].raised
  {
    if steps != [] && n in Run(steps[..|steps| - 1]).attempts { HeldIsNotRaised(steps[..|steps| - 1], n); }
  }

  lemma RunOn(steps: seq<Step>, step: Step)
    ensures Run(steps + [step]) == Next(Run(steps), step)
  {
    assert (steps + [step])[..|steps + [step]| - 1] == steps;
  }

  /** A run in which the second writer takes over: the first one's late commit is refused. */
  lemma TakeoverExample() returns (steps: seq<Step>)
    ensures Append(1) in steps && Run(steps).log == [Fenced(1, 1), Fenced(2, 2)]
  {
    steps := FirstWriterRuns();
    RunOn(steps, Create(2, 2));
    RunOn(steps + [Create(2, 2)], Renew(2));
    var taken := steps + [Create(2, 2)] + [Renew(2)];
    SecondTakes();
    RunOn(taken, Raise(2));
    RunOn(taken + [Raise(2)], Append(1));
    RunOn(taken + [Raise(2)] + [Append(1)], Append(2));
    SecondWrites();
    steps := taken + [Raise(2)] + [Append(1)] + [Append(2)];
    assert Append(1) in [Append(1)];
  }

  const SECOND_HOLDS := State(
    map[1 := 1, 2 := 2], {}, map[1 := Attempt(1, Writing, true, true), 2 := Attempt(2, Held, true, false)],
    Some(1), [Fenced(1, 1)])

  lemma SecondTakes()
    ensures Next(Next(FIRST_WRITES, Create(2, 2)), Renew(2)) == SECOND_HOLDS
  {
    var s := Next(FIRST_WRITES, Create(2, 2));
    assert s.records == map[1 := 1, 2 := 2] && s.attempts[2] == Attempt(2, Created, false, false);
    assert !Superseded(s, 2);
  }

  lemma SecondWrites()
    ensures Next(Next(Next(SECOND_HOLDS, Raise(2)), Append(1)), Append(2)).log == [Fenced(1, 1), Fenced(2, 2)]
  {
    var s := Next(SECOND_HOLDS, Raise(2));
    assert s.storeFence == Some(2) && s.attempts[1].fence == 1 && s.attempts[2].raised;
    assert Next(s, Append(1)) == s;
  }

  const FIRST_HOLDS := State(map[1 := 1], {}, map[1 := Attempt(1, Held, true, false)], None, [])

  const FIRST_WRITES := State(map[1 := 1], {}, map[1 := Attempt(1, Writing, true, true)], Some(1), [Fenced(1, 1)])

  lemma FirstTakes()
    ensures Next(Next(INITIAL, Create(1, 1)), Renew(1)) == FIRST_HOLDS
  {
    var s := Next(INITIAL, Create(1, 1));
    assert s == State(map[1 := 1], {}, map[1 := Attempt(1, Created, false, false)], None, []);
    assert !Superseded(s, 1);
  }

  lemma FirstWrites()
    ensures Next(Next(FIRST_HOLDS, Raise(1)), Append(1)) == FIRST_WRITES
  {
    assert Next(FIRST_HOLDS, Raise(1))
        == State(map[1 := 1], {}, map[1 := Attempt(1, Writing, true, true)], Some(1), []);
  }

  lemma FirstWriterRuns() returns (steps: seq<Step>)
    ensures Run(steps) == FIRST_WRITES
  {
    assert Run([]) == INITIAL;
    RunOn([], Create(1, 1));
    RunOn([] + [Create(1, 1)], Renew(1));
    FirstTakes();
    var taken := [] + [Create(1, 1)] + [Renew(1)];
    RunOn(taken, Raise(1));
    RunOn(taken + [Raise(1)], Append(1));
    FirstWrites();
    steps := taken + [Raise(1)] + [Append(1)];
  }
}
