/**
 `main` of `scripts/build_attestation.ts`: whatever runs are named, a document is written only
 from a clean checkout of the attested commit, for one run of each verification workflow, each
 of that commit, each having executed the committed definition; and the document says what the
 runs recorded.

 What git, the file system and the evaluator answer is a parameter.
 */
module Attestation {
  import opened Options
  import opened Text
  import opened Provenance
  import S = StrictProvenance
  import opened AttestationGate

  datatype World = World(
    resolve: string -> Option<string>,                    // a revision as a full commit id
    root: Option<string>,                                 // of the repository
    head: Option<string>,                                 // the commit checked out
    status: Option<string>,                               // one line per modified tracked file
    record: string -> Option<RunRecord>,                  // a run by its id
    definition: (string, string) -> Option<Value>,        // at a commit, of a workflow
    snapshot: RunRecord -> Option<Value>,                 // the definition the run executed
    inputsValid: (RunRecord, Value) -> bool,
    evaluator: (RunRecord, Value) -> S.Evaluator,
    affected: string -> Option<seq<string>>,              // the commands the commit affects
    accepts: (seq<StepData>, Gate, seq<string>) -> bool)  // the document's schema

  /** The run with its recorded commit resolved, if git can. */
  function Resolved(w: World, run: RunRecord): RunRecord {
    if run.commit.Some? && w.resolve(run.commit.value).Some? then run.(commit := w.resolve(run.commit.value)) else run
  }

  /** The run examined the commit: what it recorded is that commit in full, or git takes it for it. */
  predicate Examined(w: World, run: RunRecord, commit: string) {
    && run.commit.Some?
    && match w.resolve(run.commit.value)
       case Some(full) => full == commit
       case None => run.commit.value == commit
  }

  /** The run executed its workflow as committed. */
  ghost predicate Executed(w: World, commit: string, run: RunRecord) {
    var committed, evaluated := w.definition(commit, run.workflowName), w.snapshot(run);
    && committed.Some? && evaluated.Some? && w.inputsValid(run, committed.value) && S.CanBeWalked(committed.value)
    && S.IsExecuted(w.evaluator(run, committed.value), S.Root, committed.value, evaluated.value, true)
  }

  datatype Refusal =
    | Usage
    | NoCommit
    | NotCheckedOut(why: seq<CheckoutError>)
    | NoRecord(id: string)
    | NotMatched(m: Match)
    | NotBound(errors: seq<BindingError>)
    | NoDefinition(name: string)
    | NoSnapshot(id: string)
    | NotExecuted(id: string, verdict: S.Verdict)
    | NoAffectedCommands
    | NotConforming(steps: seq<StepData>, gate: Gate, affected: seq<string>)

  datatype Document =
    | Refused(refusal: Refusal)
    | Attested(commit: string, branch: string, steps: seq<StepData>, gate: Gate, affected: seq<string>)

  // ----- The checkout -----

  datatype CheckoutError = NotReadable | AnotherCommit | Modified(count: nat)

  /** The files on disk are those of the commit. */
  ghost predicate IsCheckedOut(w: World, commit: string) {
    && w.root.Some? && w.root.value != ""
    && w.head == Some(commit) && commit != "" && w.status.Some?
    && forall line :: line in Split(w.status.value, '\n') ==> AllBlank(line)
  }

  /** How many of the lines are not blank. */
  function CountInk(lines: seq<string>): nat {
    if lines == [] then 0
    else CountInk(lines[..|lines| - 1]) + (if AllBlank(lines[|lines| - 1]) then 0 else 1)
  }

  method CountModified(status: string) returns (count: nat)
    ensures count == CountInk(Split(status, '\n'))
    ensures count == 0 <==> forall line :: line in Split(status, '\n') ==> AllBlank(line)
  {
    var lines := Split(status, '\n');
    count := 0;
    for i := 0 to |lines|
      invariant count == CountInk(lines[..i])
      invariant count == 0 <==> forall k :: 0 <= k < i ==> AllBlank(lines[k])
    {
      TrimIsEmpty(lines[i]);
      assert lines[..i + 1][..i] == lines[..i];
      if Trim(lines[i]) != "" { count := count + 1; }
    }
    assert lines[..|lines|] == lines;
  }

  method CheckCheckout(head: Option<string>, status: Option<string>, commit: string) returns (errors: seq<CheckoutError>)
    ensures errors == [] <==>
      && head == Some(commit) && commit != "" && status.Some?
      && forall line :: line in Split(status.value, '\n') ==> AllBlank(line)
    ensures NotReadable in errors <==> head.None? || head.value == "" || status.None?
    ensures NotReadable !in errors ==> (AnotherCommit in errors <==> head != Some(commit))
    ensures forall n :: Modified(n) in errors ==>
      NotReadable !in errors && n > 0 && n == CountInk(Split(status.value, '\n'))
  {
    if head.None? || head.value == "" || status.None? { return [NotReadable]; }
    errors := if head.value != commit then [AnotherCommit] else [];
    var modified := CountModified(status.value);
    if modified > 0 { errors := errors + [Modified(modified)]; }
  }

  // ----- The runs -----

  method ReadRuns(w: World, ids: seq<string>) returns (runs: seq<RunRecord>, missing: Option<string>)
    ensures missing.None? <==> forall i :: 0 <= i < |ids| ==> w.record(ids[i]).Some?
    ensures missing.None? ==> runs == RunsOf(w, ids)
    ensures missing.Some? ==> missing.value in ids && w.record(missing.value).None?
  {
    runs := [];
    for i := 0 to |ids|
      invariant forall k :: 0 <= k < i ==> w.record(ids[k]).Some?
      invariant runs == RunsOf(w, ids[..i])
    {
      if w.record(ids[i]).None? { return runs, Some(ids[i]); }
      assert ids[..i + 1] == ids[..i] + [ids[i]];
      runs := runs + [w.record(ids[i]).value];
    }
    assert ids[..|ids|] == ids;
    missing := None;
  }

  function RunsOf(w: World, ids: seq<string>): (r: seq<RunRecord>)
    requires forall i :: 0 <= i < |ids| ==> w.record(ids[i]).Some?
    ensures |r| == |ids| && forall i :: 0 <= i < |r| ==> r[i] == w.record(ids[i]).value
  {
    seq(|ids|, i requires 0 <= i < |ids| => w.record(ids[i]).value)
  }

  method ResolveSources(w: World, sources: seq<Source>) returns (resolved: seq<Source>)
    ensures |resolved| == |sources|
    ensures forall i :: 0 <= i < |sources| ==> resolved[i] == sources[i].(run := Resolved(w, sources[i].run))
  {
    resolved := [];
    for i := 0 to |sources|
      invariant |resolved| == i
      invariant forall k :: 0 <= k < i ==> resolved[k] == sources[k].(run := Resolved(w, sources[k].run))
    {
      resolved := resolved + [sources[i].(run := Resolved(w, sources[i].run))];
    }
  }

  /** Why the run cannot be shown to have executed its workflow as committed. */
  predicate IsReasonOf(w: World, commit: string, run: RunRecord, refusal: Refusal) {
    var committed, evaluated := w.definition(commit, run.workflowName), w.snapshot(run);
    match refusal
    case NoDefinition(name) => committed.None? && name == run.workflowName
    case NoSnapshot(id) => committed.Some? && evaluated.None? && id == run.id
    case NotExecuted(id, verdict) =>
      && committed.Some? && evaluated.Some? && id == run.id && verdict != S.Passed
      && verdict == S.CheckVerification(w.evaluator(run, committed.value), w.inputsValid(run, committed.value),
                                        committed.value, evaluated.value)
    case _ => false
  }

  /** The first run that cannot, and why. */
  ghost predicate IsFirstReason(w: World, commit: string, sources: seq<Source>, i: nat, refusal: Refusal) {
    && i < |sources| && IsReasonOf(w, commit, sources[i].run, refusal)
    && forall k :: 0 <= k < i ==> Executed(w, commit, sources[k].run)
  }

  method CheckExecutions(w: World, commit: string, sources: seq<Source>) returns (refusal: Option<Refusal>)
    requires forall i :: 0 <= i < |sources| ==> sources[i].name == sources[i].run.workflowName
    ensures refusal.None? <==> forall i :: 0 <= i < |sources| ==> Executed(w, commit, sources[i].run)
    ensures refusal.Some? ==> exists i :: IsFirstReason(w, commit, sources, i, refusal.value)
  {
    for i := 0 to |sources|
      invariant forall k :: 0 <= k < i ==> Executed(w, commit, sources[k].run)
    {
      var run := sources[i].run;
      var committed := w.definition(commit, sources[i].name);
      if committed.None? {
        assert IsFirstReason(w, commit, sources, i, NoDefinition(sources[i].name));
        return Some(NoDefinition(sources[i].name));
      }
      var evaluated := w.snapshot(run);
      if evaluated.None? {
        assert IsFirstReason(w, commit, sources, i, NoSnapshot(run.id));
        return Some(NoSnapshot(run.id));
      }
      var ev, inputsValid := w.evaluator(run, committed.value), w.inputsValid(run, committed.value);
      var verdict := S.CheckVerification(ev, inputsValid, committed.value, evaluated.value);
      S.VerificationIff(ev, inputsValid, committed.value, evaluated.value);
      if verdict != S.Passed {
        assert IsFirstReason(w, commit, sources, i, NotExecuted(run.id, verdict));
        return Some(NotExecuted(run.id, verdict));
      }
    }
    return None;
  }

  lemma SourcesAreNamed(runs: seq<RunRecord>, sources: seq<Source>)
    requires AreSources(runs, sources)
    ensures forall i :: 0 <= i < |sources| ==> sources[i].name == sources[i].run.workflowName
  {
    forall i | 0 <= i < |sources| ensures sources[i].name == sources[i].run.workflowName {
      assert IsSourceOf(runs, WORKFLOWS[i], sources[i]);
      NamedCounts(runs, WORKFLOWS[i].name);
      assert Named(runs, WORKFLOWS[i].name)[0] == sources[i].run;
    }
  }

  ghost predicate AllExamined(w: World, runs: seq<RunRecord>, commit: string) {
    forall run :: run in runs ==> Examined(w, run, commit)
  }

  ghost predicate AllExecuted(w: World, runs: seq<RunRecord>, commit: string) {
    forall run :: run in runs ==> Executed(w, commit, run)
  }

  ghost predicate AllRunsVouched(runs: seq<RunRecord>) {
    forall run :: run in runs ==> AllVouched(run)
  }

  lemma ExaminedIff(w: World, runs: seq<RunRecord>, sources: seq<Source>, commit: string)
    requires SameRuns(runs, sources)
    ensures AllExamined(w, runs, commit) <==> forall i :: 0 <= i < |sources| ==> Examined(w, sources[i].run, commit)
  {
  }

  lemma ExecutedIff(w: World, runs: seq<RunRecord>, sources: seq<Source>, commit: string)
    requires SameRuns(runs, sources)
    ensures AllExecuted(w, runs, commit) <==> forall i :: 0 <= i < |sources| ==> Executed(w, commit, sources[i].run)
  {
  }

  lemma RunsVouchedIff(runs: seq<RunRecord>, sources: seq<Source>)
    requires SameRuns(runs, sources)
    ensures AllRunsVouched(runs) <==> forall i :: 0 <= i < |sources| ==> AllVouched(sources[i].run)
  {
  }

  method CheckBinding(w: World, sources: seq<Source>, commit: string) returns (errors: seq<BindingError>)
    ensures errors == [] <==> forall i :: 0 <= i < |sources| ==> Examined(w, sources[i].run, commit)
  {
    var resolved := ResolveSources(w, sources);
    errors := CheckCommitBinding(resolved, commit);
  }

  /** The runs are one of each workflow, each examined the commit, and each executed its workflow as
      committed. */
  ghost predicate AreAttestable(w: World, runs: seq<RunRecord>, commit: string) {
    OneOfEach(runs) && AllExamined(w, runs, commit) && AllExecuted(w, runs, commit)
  }

  ghost predicate SourcesHold(w: World, sources: seq<Source>, commit: string) {
    && (forall i :: 0 <= i < |sources| ==> Examined(w, sources[i].run, commit))
    && (forall i :: 0 <= i < |sources| ==> Executed(w, commit, sources[i].run))
  }

  lemma AttestableIff(w: World, runs: seq<RunRecord>, sources: seq<Source>, commit: string)
    requires OneOfEach(runs) && AreSources(runs, sources)
    ensures AreAttestable(w, runs, commit) <==> SourcesHold(w, sources, commit)
  {
    SourcesAreTheRuns(runs, sources);
    ExaminedIff(w, runs, sources, commit);
    ExecutedIff(w, runs, sources, commit);
  }

  predicate IsAboutRuns(r: Refusal) {
    r.NotMatched? || r.NotBound? || r.NoDefinition? || r.NoSnapshot? || r.NotExecuted?
  }

  method CheckSources(w: World, sources: seq<Source>, commit: string) returns (refusal: Option<Refusal>)
    requires forall i :: 0 <= i < |sources| ==> sources[i].name == sources[i].run.workflowName
    ensures refusal.None? <==> SourcesHold(w, sources, commit)
    ensures refusal.Some? ==> IsAboutRuns(refusal.value) && !refusal.value.NotMatched?
  {
    var errors := CheckBinding(w, sources, commit);
    if errors != [] { return Some(NotBound(errors)); }
    refusal := CheckExecutions(w, commit, sources);
  }

  /** The sources of attestable runs; otherwise why they are not. */
  method CheckRuns(w: World, runs: seq<RunRecord>, commit: string) returns (sources: seq<Source>, refusal: Option<Refusal>)
    ensures refusal.None? <==> AreAttestable(w, runs, commit)
    ensures refusal.None? ==> AreSources(runs, sources)
    ensures refusal.Some? ==> IsAboutRuns(refusal.value) && (refusal.value.NotMatched? <==> !OneOfEach(runs))
  {
    var m := MatchRunsToWorkflows(runs);
    if !m.Matched? { return [], Some(NotMatched(m)); }
    sources := m.sources;
    SourcesAreNamed(runs, sources);
    AttestableIff(w, runs, sources, commit);
    refusal := CheckSources(w, sources, commit);
  }

  /** What was asked for can be attested: a commit, checked out, with its affected commands, and
      attestable runs. */
  ghost predicate CanAttest(w: World, ids: seq<string>, revision: string, branch: string) {
    && ids != [] && revision != "" && branch != ""
    && w.resolve(revision).Some?
    && var commit := w.resolve(revision).value;
       && IsCheckedOut(w, commit) && w.affected(commit).Some?
       && (forall i :: 0 <= i < |ids| ==> w.record(ids[i]).Some?)
       && AreAttestable(w, RunsOf(w, ids), commit)
  }

  /** The first thing that stands against a document: what was asked for, the revision, the checkout, the
      runs, what they are and did, and the commands affected, in this order. */
  ghost predicate SaysWhy(w: World, ids: seq<string>, revision: string, branch: string, refusal: Refusal) {
    var asked := ids != [] && revision != "" && branch != "";
    var found := asked && w.resolve(revision).Some?;
    var ready := found && IsCheckedOut(w, w.resolve(revision).value);
    var read := ready && forall i :: 0 <= i < |ids| ==> w.record(ids[i]).Some?;
    && (refusal.Usage? <==> !asked)
    && (refusal.NoCommit? <==> asked && !found)
    && (refusal.NotCheckedOut? <==> found && !ready)
    && (refusal.NoRecord? <==> ready && !read)
    && (refusal.NoRecord? ==> refusal.id in ids && w.record(refusal.id).None?)
    && (refusal.NoAffectedCommands? || refusal.NotConforming? ==>
          read && AreAttestable(w, RunsOf(w, ids), w.resolve(revision).value))
    && (refusal.NotMatched? ==> read && !OneOfEach(RunsOf(w, ids)))
  }

  /** A document exists exactly when what was asked for can be attested and the schema accepts it; it
      names the full commit and the commands affected, lists the steps that count as the runs recorded
      them, and says "all passed" exactly when every
      step of every job that counts, in every run named, succeeded or was skipped.  An option that is
      not given is an empty text. */
  method Attest(w: World, ids: seq<string>, revision: string, branch: string) returns (d: Document)
    ensures CanAttest(w, ids, revision, branch) <==> d.Attested? || d.refusal.NotConforming?
    ensures d.Attested? ==>
      && Some(d.commit) == w.resolve(revision) && d.branch == branch && Some(d.affected) == w.affected(d.commit)
      && (exists sources, places :: AreSources(RunsOf(w, ids), sources) && AreTheSteps(sources, d.steps, places))
      && (d.gate.allPassed <==> AllRunsVouched(RunsOf(w, ids)))
      && w.accepts(d.steps, d.gate, d.affected)
    ensures d.Refused? ==> SaysWhy(w, ids, revision, branch, d.refusal)
    ensures d.Refused? && d.refusal.NotConforming? ==> !w.accepts(d.refusal.steps, d.refusal.gate, d.refusal.affected)
  {
    if ids == [] || revision == "" || branch == "" { return Refused(Usage); }
    if w.resolve(revision).None? { return Refused(NoCommit); }
    var commit := w.resolve(revision).value;
    var errors := CheckCheckout(w.head, w.status, commit);
    if w.root.None? || w.root.value == "" || errors != [] { return Refused(NotCheckedOut(errors)); }
    var runs, missing := ReadRuns(w, ids);
    if missing.Some? { return Refused(NoRecord(missing.value)); }
    var sources, refusal := CheckRuns(w, runs, commit);
    if refusal.Some? { return Refused(refusal.value); }
    SourcesAreTheRuns(runs, sources);
    RunsVouchedIff(runs, sources);
    if w.affected(commit).None? { return Refused(NoAffectedCommands); }
    var affected := w.affected(commit).value;
    var steps, gate := BuildGate(sources);
    if !w.accepts(steps, gate, affected) { return Refused(NotConforming(steps, gate, affected)); }
    return Attested(commit, branch, steps, gate, affected);
  }
}
