/**
 The gate of `scripts/build_attestation.ts`: the runs given must be one of each verification
 workflow, each of the attested commit, and the document says "all passed" only when every
 step that counts succeeded or was skipped.
 */
module AttestationGate {
  import opened Options

  datatype SkipKind = ByGuard | ByDependency | ByJob

  datatype Step = Step(name: string, status: string, skipReason: Option<SkipKind>)

  datatype Job = Job(name: string, steps: seq<Step>)

  /** `commit`: the recorded `commit` input, if it is a string. */
  datatype RunRecord = RunRecord(id: string, workflowName: string, commit: Option<string>, jobs: seq<Job>)

  datatype Workflow = Workflow(key: string, name: string)

  const WORKFLOWS: seq<Workflow> := [
    Workflow("build", "verify-build"), Workflow("reviews", "verify-reviews"), Workflow("skills", "verify-skills")
  ]

  const MACHINERY_JOBS: set<string> := {"setup", "detect-changes", "cleanup"}

  const REVIEW_JOB := "reviews"

  datatype Source = Source(key: string, name: string, run: RunRecord)

  // ----- Matching runs to workflows -----

  function Names(runs: seq<RunRecord>): (r: seq<string>)
    ensures |r| == |runs| && forall i :: 0 <= i < |r| ==> r[i] == runs[i].workflowName
  {
    seq(|runs|, i requires 0 <= i < |runs| => runs[i].workflowName)
  }

  /** The runs of a name, in order. */
  function Named(runs: seq<RunRecord>, name: string): seq<RunRecord> {
    if runs == [] then []
    else
      var init, last := Named(runs[..|runs| - 1], name), runs[|runs| - 1];
      if last.workflowName == name then init + [last] else init
  }

  method GroupByName(runs: seq<RunRecord>) returns (byName: map<string, seq<RunRecord>>)
    ensures byName.Keys == set name | name in Names(runs)
    ensures forall name :: name in byName ==> byName[name] == Named(runs, name)
    ensures forall name :: name !in byName ==> Named(runs, name) == []
  {
    byName := map[];
    for i := 0 to |runs|
      invariant byName.Keys == set name | name in Names(runs[..i])
      invariant forall name :: name in byName ==> byName[name] == Named(runs[..i], name)
      invariant forall name :: name !in byName ==> Named(runs[..i], name) == []
    {
      var name := runs[i].workflowName;
      var existing := if name in byName then byName[name] else [];
      byName := byName[name := existing + [runs[i]]];
      assert runs[..i + 1][..i] == runs[..i];
      assert Names(runs[..i + 1]) == Names(runs[..i]) + [name];
    }
    assert runs[..|runs|] == runs;
  }

  datatype Match = MoreThanOne(name: string) | NoRunFor(missing: seq<string>) | NotAWorkflow(unknown: set<string>) | Matched(sources: seq<Source>)

  function NamesOf(workflows: seq<Workflow>): (r: seq<string>)
    ensures |r| == |workflows| && forall i :: 0 <= i < |r| ==> r[i] == workflows[i].name
  {
    seq(|workflows|, i requires 0 <= i < |workflows| => workflows[i].name)
  }

  /** Exactly one run of each workflow, and no others. */
  ghost predicate OneOfEach(runs: seq<RunRecord>) {
    multiset(Names(runs)) == multiset(NamesOf(WORKFLOWS))
  }

  lemma {:induction false} NamedCounts(runs: seq<RunRecord>, name: string)
    ensures |Named(runs, name)| == multiset(Names(runs))[name]
    ensures forall i :: 0 <= i < |Named(runs, name)| ==>
      Named(runs, name)[i] in runs && Named(runs, name)[i].workflowName == name
  {
    if runs != [] {
      var init, last := runs[..|runs| - 1], runs[|runs| - 1];
      NamedCounts(init, name);
      assert Names(runs) == Names(init) + [last.workflowName];
      assert runs == init + [last];
    }
  }

  lemma WorkflowNames()
    ensures NamesOf(WORKFLOWS) == ["verify-build", "verify-reviews", "verify-skills"]
    ensures forall name :: multiset(NamesOf(WORKFLOWS))[name] == if name in NamesOf(WORKFLOWS) then 1 else 0
  {
    var names := NamesOf(WORKFLOWS);
    assert names == ["verify-build", "verify-reviews", "verify-skills"];
    assert |"verify-build"| == 12 && |"verify-reviews"| == 14 && |"verify-skills"| == 13;
    assert multiset(names) == multiset{"verify-build", "verify-reviews", "verify-skills"};
  }

  predicate EachOnce(runs: seq<RunRecord>) {
    forall i :: 0 <= i < |WORKFLOWS| ==> |Named(runs, WORKFLOWS[i].name)| == 1
  }

  predicate NoOthers(runs: seq<RunRecord>) {
    forall name :: name in Names(runs) ==> name in NamesOf(WORKFLOWS)
  }

  lemma OneOfEachIff(runs: seq<RunRecord>)
    ensures OneOfEach(runs) <==> EachOnce(runs) && NoOthers(runs)
  {
    if OneOfEach(runs) { OneOfEachMeans(runs); }
    if EachOnce(runs) && NoOthers(runs) { EachOnceIsOneOfEach(runs); }
  }

  lemma OneOfEachMeans(runs: seq<RunRecord>)
    requires OneOfEach(runs)
    ensures EachOnce(runs) && NoOthers(runs)
  {
    WorkflowNames();
    var wanted := NamesOf(WORKFLOWS);
    forall i | 0 <= i < |WORKFLOWS| ensures |Named(runs, WORKFLOWS[i].name)| == 1 {
      NamedCounts(runs, wanted[i]);
      assert wanted[i] in wanted;
    }
    forall name | name in Names(runs) ensures name in wanted {
      assert name in multiset(Names(runs));
    }
  }

  lemma EachOnceIsOneOfEach(runs: seq<RunRecord>)
    requires EachOnce(runs) && NoOthers(runs)
    ensures OneOfEach(runs)
  {
    WorkflowNames();
    var wanted := NamesOf(WORKFLOWS);
    forall name ensures multiset(Names(runs))[name] == multiset(wanted)[name] {
      NamedCounts(runs, name);
      if name in wanted {
        var i :| 0 <= i < |wanted| && wanted[i] == name;
        assert |Named(runs, WORKFLOWS[i].name)| == 1;
      } else {
        assert name !in multiset(Names(runs));
      }
    }
  }

  /** The source of the `i`-th workflow is its one run. */
  predicate IsSourceOf(runs: seq<RunRecord>, w: Workflow, s: Source) {
    s.key == w.key && s.name == w.name && Named(runs, w.name) == [s.run]
  }

  predicate AreSources(runs: seq<RunRecord>, sources: seq<Source>) {
    |sources| == |WORKFLOWS| && forall i :: 0 <= i < |WORKFLOWS| ==> IsSourceOf(runs, WORKFLOWS[i], sources[i])
  }

  method FindSources(runs: seq<RunRecord>, byName: map<string, seq<RunRecord>>) returns (m: Match)
    requires forall name :: Named(runs, name) == if name in byName then byName[name] else []
    ensures m.Matched? <==> EachOnce(runs)
    ensures m.Matched? ==> AreSources(runs, m.sources)
    ensures m.MoreThanOne? ==> m.name in NamesOf(WORKFLOWS) && |Named(runs, m.name)| > 1
    ensures m.NoRunFor? ==> m.missing != [] && forall name :: name in m.missing <==>
      name in NamesOf(WORKFLOWS) && Named(runs, name) == []
    ensures !m.NotAWorkflow?
  {
    var sources: seq<Source> := [];
    var missing: seq<string> := [];
    for i := 0 to |WORKFLOWS|
      invariant forall name :: name in missing <==> name in NamesOf(WORKFLOWS)[..i] && Named(runs, name) == []
      invariant missing == [] ==> |sources| == i
      invariant missing != [] ==> !EachOnce(runs)
      invariant missing == [] ==> forall k :: 0 <= k < i ==> IsSourceOf(runs, WORKFLOWS[k], sources[k])
    {
      var w := WORKFLOWS[i];
      assert NamesOf(WORKFLOWS)[..i + 1] == NamesOf(WORKFLOWS)[..i] + [w.name];
      var matches := if w.name in byName then byName[w.name] else [];
      if |matches| == 0 {
        missing := missing + [w.name];
        continue;
      }
      if |matches| > 1 {
        assert NamesOf(WORKFLOWS)[i] == w.name;
        return MoreThanOne(w.name);
      }
      sources := sources + [Source(w.key, w.name, matches[0])];
    }
    assert NamesOf(WORKFLOWS)[..|WORKFLOWS|] == NamesOf(WORKFLOWS);
    if |missing| > 0 { return NoRunFor(missing); }
    return Matched(sources);
  }

  /** Runs are matched by the name they record: exactly when there is one of each workflow and no
      other, whatever the order, and then each workflow's source is its one run. */
  method MatchRunsToWorkflows(runs: seq<RunRecord>) returns (m: Match)
    ensures m.Matched? <==> OneOfEach(runs)
    ensures m.Matched? ==> AreSources(runs, m.sources)
    ensures m.MoreThanOne? ==> m.name in NamesOf(WORKFLOWS) && |Named(runs, m.name)| > 1
    ensures m.NoRunFor? ==> m.missing != [] && forall name :: name in m.missing <==>
      name in NamesOf(WORKFLOWS) && Named(runs, name) == []
    ensures m.NotAWorkflow? ==> m.unknown != {} && forall name :: name in m.unknown <==>
      name in Names(runs) && name !in NamesOf(WORKFLOWS)
  {
    OneOfEachIff(runs);
    var byName := GroupByName(runs);
    m := FindSources(runs, byName);
    if m.Matched? {
      var unknown := set name | name in byName && name !in NamesOf(WORKFLOWS);
      assert unknown == {} <==> NoOthers(runs) by { UnknownIff(runs, unknown); }
      if unknown != {} { m := NotAWorkflow(unknown); }
    }
  }

  lemma UnknownIff(runs: seq<RunRecord>, unknown: set<string>)
    requires forall name :: name in unknown <==> name in Names(runs) && name !in NamesOf(WORKFLOWS)
    ensures unknown == {} <==> NoOthers(runs)
  {
    if unknown != {} {
      var name :| name in unknown;
    }
  }

  ghost predicate SameRuns(runs: seq<RunRecord>, sources: seq<Source>) {
    forall run :: run in runs <==> exists i :: 0 <= i < |sources| && sources[i].run == run
  }

  /** The sources are exactly the runs given. */
  lemma SourcesAreTheRuns(runs: seq<RunRecord>, sources: seq<Source>)
    requires OneOfEach(runs) && AreSources(runs, sources)
    ensures SameRuns(runs, sources)
  {
    OneOfEachIff(runs);
    forall run ensures run in runs <==> exists i :: 0 <= i < |sources| && sources[i].run == run {
      if run in runs {
        var k :| 0 <= k < |runs| && runs[k] == run;
        assert Names(runs)[k] in Names(runs);
        var i :| 0 <= i < |WORKFLOWS| && NamesOf(WORKFLOWS)[i] == run.workflowName;
        assert IsSourceOf(runs, WORKFLOWS[i], sources[i]);
        NamedHolds(runs, k);
        assert run in Named(runs, WORKFLOWS[i].name);
      }
      if i: int :| 0 <= i < |sources| && sources[i].run == run {
        assert IsSourceOf(runs, WORKFLOWS[i], sources[i]);
        NamedCounts(runs, WORKFLOWS[i].name);
        assert Named(runs, WORKFLOWS[i].name)[0] == run;
      }
    }
  }

  lemma {:induction false} NamedHolds(runs: seq<RunRecord>, k: nat)
    requires k < |runs|
    ensures runs[k] in Named(runs, runs[k].workflowName)
  {
    var init := runs[..|runs| - 1];
    if k < |init| {
      NamedHolds(init, k);
      assert init[k] == runs[k];
    }
  }

  // ----- Binding to the commit -----

  datatype BindingError = NoCommitRecorded(run: string) | OtherCommit(run: string, ran: string)

  /** What is wrong with a run that cannot be shown to have examined the commit. */
  predicate IsErrorOf(run: RunRecord, commit: string, e: BindingError) {
    match e
    case NoCommitRecorded(id) => id == run.id && run.commit.None?
    case OtherCommit(id, ran) => id == run.id && run.commit == Some(ran) && ran != commit
  }

  ghost predicate IsErrorIn(sources: seq<Source>, commit: string, e: BindingError) {
    exists i :: 0 <= i < |sources| && IsErrorOf(sources[i].run, commit, e)
  }

  /** Exactly the runs that record another commit, or none, are reported. */
  method CheckCommitBinding(sources: seq<Source>, commit: string) returns (errors: seq<BindingError>)
    ensures errors == [] <==> forall i :: 0 <= i < |sources| ==> sources[i].run.commit == Some(commit)
    ensures forall e :: e in errors <==> IsErrorIn(sources, commit, e)
  {
    errors := [];
    for i := 0 to |sources|
      invariant errors == [] <==> forall k :: 0 <= k < i ==> sources[k].run.commit == Some(commit)
      invariant forall e :: e in errors <==> IsErrorIn(sources[..i], commit, e)
    {
      var run := sources[i].run;
      ErrorStep(sources, commit, i);
      if run.commit.None? {
        errors := errors + [NoCommitRecorded(run.id)];
      } else if run.commit.value != commit {
        errors := errors + [OtherCommit(run.id, run.commit.value)];
      }
    }
    assert sources[..|sources|] == sources;
  }

  lemma ErrorStep(sources: seq<Source>, commit: string, i: nat)
    requires i < |sources|
    ensures forall e ::
      IsErrorIn(sources[..i + 1], commit, e) <==> IsErrorIn(sources[..i], commit, e) || IsErrorOf(sources[i].run, commit, e)
  {
    var before, after := sources[..i], sources[..i + 1];
    forall e ensures IsErrorIn(after, commit, e) <==> IsErrorIn(before, commit, e) || IsErrorOf(sources[i].run, commit, e) {
      if k: int :| 0 <= k < |before| && IsErrorOf(before[k].run, commit, e) {
        assert after[k] == before[k];
      }
      if k: int :| 0 <= k < |after| && IsErrorOf(after[k].run, commit, e) {
        assert k < i ==> before[k] == after[k];
      }
      assert after[i] == sources[i];
    }
  }

  // ----- The gate -----

  datatype StepData = StepData(job: string, step: string, status: string, verdict: bool, skipKind: Option<SkipKind>)

  predicate IsMachinery(job: Job) {
    job.name in MACHINERY_JOBS
  }

  function DataOf(job: Job, step: Step): StepData {
    StepData(job.name, step.name, step.status, job.name == REVIEW_JOB && step.status == "succeeded",
             if step.status == "skipped" then step.skipReason else None)
  }

  function JobData(job: Job): (r: seq<StepData>)
    ensures |r| == |job.steps| && forall i :: 0 <= i < |r| ==> r[i] == DataOf(job, job.steps[i])
  {
    seq(|job.steps|, i requires 0 <= i < |job.steps| => DataOf(job, job.steps[i]))
  }

  function RunData(jobs: seq<Job>): seq<StepData> {
    if jobs == [] then []
    else
      var init, last := RunData(jobs[..|jobs| - 1]), jobs[|jobs| - 1];
      if IsMachinery(last) then init else init + JobData(last)
  }

  function AllData(sources: seq<Source>): seq<StepData> {
    if sources == [] then []
    else AllData(sources[..|sources| - 1]) + RunData(sources[|sources| - 1].run.jobs)
  }

  /** The loop over sources, jobs and steps. */
  method CollectSteps(sources: seq<Source>) returns (steps: seq<StepData>)
    ensures steps == AllData(sources)
  {
    steps := [];
    for i := 0 to |sources|
      invariant steps == AllData(sources[..i])
    {
      ghost var before := steps;
      var jobs := sources[i].run.jobs;
      for j := 0 to |jobs|
        invariant steps == before + RunData(jobs[..j])
      {
        assert jobs[..j + 1][..j] == jobs[..j];
        if !IsMachinery(jobs[j]) {
          steps := AddSteps(steps, jobs[j]);
        }
      }
      assert jobs[..|jobs|] == jobs && sources[..i + 1][..i] == sources[..i];
    }
    assert sources[..|sources|] == sources;
  }

  method AddSteps(before: seq<StepData>, job: Job) returns (steps: seq<StepData>)
    ensures steps == before + JobData(job)
  {
    steps := before;
    for k := 0 to |job.steps|
      invariant steps == before + JobData(job)[..k]
    {
      steps := steps + [DataOf(job, job.steps[k])];
    }
  }

  // ----- What the document says of the steps -----

  /** A step of a run, by the indices of its run, its job and itself. */
  datatype Place = Place(source: nat, job: nat, step: nat)

  predicate IsPlace(sources: seq<Source>, p: Place) {
    && p.source < |sources| && p.job < |sources[p.source].run.jobs|
    && p.step < |sources[p.source].run.jobs[p.job].steps|
  }

  /** A step of a job that counts: of any but the three that only run the machinery. */
  predicate IsCountedPlace(sources: seq<Source>, p: Place) {
    IsPlace(sources, p) && sources[p.source].run.jobs[p.job].name !in {"setup", "detect-changes", "cleanup"}
  }

  predicate ComesBefore(p: Place, q: Place) {
    || p.source < q.source
    || (p.source == q.source && (p.job < q.job || (p.job == q.job && p.step < q.step)))
  }

  /** The data says what the run recorded: a verdict exactly for a review that succeeded, and a skip kind
      exactly for a skipped step with a recorded reason. */
  predicate Describes(sources: seq<Source>, p: Place, d: StepData)
    requires IsPlace(sources, p)
  {
    var job := sources[p.source].run.jobs[p.job];
    var step := job.steps[p.step];
    && d.job == job.name && d.step == step.name && d.status == step.status
    && (d.verdict <==> job.name == "reviews" && step.status == "succeeded")
    && (d.skipKind.Some? <==> step.status == "skipped" && step.skipReason.Some?)
    && (d.skipKind.Some? ==> d.skipKind == step.skipReason)
  }

  /** The steps of these places, one for one. */
  predicate AreDescribed(sources: seq<Source>, steps: seq<StepData>, places: seq<Place>) {
    && |places| == |steps|
    && forall i :: 0 <= i < |places| ==> IsPlace(sources, places[i]) && Describes(sources, places[i], steps[i])
  }

  /** All the steps that count and no others, each once, in the order of the runs, their jobs and their
      steps. */
  ghost predicate AreTheSteps(sources: seq<Source>, steps: seq<StepData>, places: seq<Place>) {
    && AreDescribed(sources, steps, places)
    && (forall p :: p in places <==> IsCountedPlace(sources, p))
    && InOrder(places)
  }

  function JobPlaces(i: nat, j: nat, n: nat): (r: seq<Place>)
    ensures |r| == n && forall k :: 0 <= k < n ==> r[k] == Place(i, j, k)
  {
    seq(n, k requires 0 <= k < n => Place(i, j, k))
  }

  /** The places of the steps that count of these jobs of run `i`. */
  function RunPlaces(jobs: seq<Job>, i: nat): seq<Place> {
    if jobs == [] then []
    else
      var init, last := RunPlaces(jobs[..|jobs| - 1], i), jobs[|jobs| - 1];
      if IsMachinery(last) then init else init + JobPlaces(i, |jobs| - 1, |last.steps|)
  }

  function AllPlaces(sources: seq<Source>): seq<Place> {
    if sources == [] then []
    else AllPlaces(sources[..|sources| - 1]) + RunPlaces(sources[|sources| - 1].run.jobs, |sources| - 1)
  }

  ghost predicate InOrder(places: seq<Place>) {
    forall i, j :: 0 <= i < j < |places| ==> ComesBefore(places[i], places[j])
  }

  lemma OrderedConcat(a: seq<Place>, b: seq<Place>)
    requires InOrder(a) && InOrder(b) && forall p, q :: p in a && q in b ==> ComesBefore(p, q)
    ensures InOrder(a + b)
  {
    forall i, j | 0 <= i < j < |a + b| ensures ComesBefore((a + b)[i], (a + b)[j]) {
      if i < |a| <= j { assert a[i] in a && b[j - |a|] in b; }
    }
  }

  predicate IsRunPlace(jobs: seq<Job>, i: nat, p: Place) {
    p.source == i && p.job < |jobs| && p.step < |jobs[p.job].steps| && !IsMachinery(jobs[p.job])
  }

  lemma {:induction false} RunPlacesAre(jobs: seq<Job>, i: nat)
    ensures InOrder(RunPlaces(jobs, i)) && forall p :: p in RunPlaces(jobs, i) <==> IsRunPlace(jobs, i, p)
    decreases |jobs|
  {
    if jobs != [] {
      var init, last := jobs[..|jobs| - 1], jobs[|jobs| - 1];
      RunPlacesAre(init, i);
      if !IsMachinery(last) {
        var more := JobPlaces(i, |jobs| - 1, |last.steps|);
        forall p ensures p in more <==> p.source == i && p.job == |jobs| - 1 && p.step < |last.steps| {
          if p.source == i && p.job == |jobs| - 1 && p.step < |last.steps| { assert more[p.step] == p; }
        }
        OrderedConcat(RunPlaces(init, i), more);
      }
    }
  }

  lemma {:induction false} AllPlacesAre(sources: seq<Source>)
    ensures InOrder(AllPlaces(sources)) && forall p :: p in AllPlaces(sources) <==> IsCountedPlace(sources, p)
    decreases |sources|
  {
    if sources != [] {
      var init, n := sources[..|sources| - 1], |sources| - 1;
      AllPlacesAre(init);
      RunPlacesAre(sources[n].run.jobs, n);
      OrderedConcat(AllPlaces(init), RunPlaces(sources[n].run.jobs, n));
      forall p ensures IsCountedPlace(sources, p) <==>
        IsCountedPlace(init, p) || IsRunPlace(sources[n].run.jobs, n, p)
      {
      }
    }
  }

  lemma DescribedConcat(
    sources: seq<Source>, a: seq<StepData>, p: seq<Place>, b: seq<StepData>, q: seq<Place>)
    requires AreDescribed(sources, a, p) && AreDescribed(sources, b, q)
    ensures AreDescribed(sources, a + b, p + q)
  {
  }

  lemma {:induction false} RunIsDescribed(sources: seq<Source>, i: nat, n: nat)
    requires i < |sources| && n <= |sources[i].run.jobs|
    ensures AreDescribed(sources, RunData(sources[i].run.jobs[..n]), RunPlaces(sources[i].run.jobs[..n], i))
    decreases n
  {
    if n > 0 {
      var jobs := sources[i].run.jobs[..n];
      RunIsDescribed(sources, i, n - 1);
      assert jobs[..n - 1] == sources[i].run.jobs[..n - 1];
      var last := jobs[n - 1];
      if !IsMachinery(last) {
        assert AreDescribed(sources, JobData(last), JobPlaces(i, n - 1, |last.steps|));
        DescribedConcat(sources, RunData(jobs[..n - 1]), RunPlaces(jobs[..n - 1], i),
                        JobData(last), JobPlaces(i, n - 1, |last.steps|));
      }
    }
  }

  lemma {:induction false} AllAreDescribed(sources: seq<Source>, n: nat)
    requires n <= |sources|
    ensures AreDescribed(sources, AllData(sources[..n]), AllPlaces(sources[..n]))
    decreases n
  {
    if n > 0 {
      AllAreDescribed(sources, n - 1);
      assert sources[..n][..n - 1] == sources[..n - 1];
      var jobs := sources[n - 1].run.jobs;
      RunIsDescribed(sources, n - 1, |jobs|);
      assert jobs[..|jobs|] == jobs;
      DescribedConcat(sources, AllData(sources[..n - 1]), AllPlaces(sources[..n - 1]),
                      RunData(jobs), RunPlaces(jobs, n - 1));
    }
  }

  /** The collected data are the steps that count, as the runs recorded them. */
  lemma DataAreTheSteps(sources: seq<Source>)
    ensures AreTheSteps(sources, AllData(sources), AllPlaces(sources))
  {
    AllAreDescribed(sources, |sources|);
    assert sources[..|sources|] == sources;
    AllPlacesAre(sources);
  }

  // ----- Counts -----

  function CountStatus(steps: seq<StepData>, status: string): nat {
    if steps == [] then 0
    else CountStatus(steps[..|steps| - 1], status) + (if steps[|steps| - 1].status == status then 1 else 0)
  }

  /** The steps skipped for one recorded kind, or for none. */
  function CountSkipped(steps: seq<StepData>, kind: Option<SkipKind>): nat {
    if steps == [] then 0
    else
      var last := steps[|steps| - 1];
      CountSkipped(steps[..|steps| - 1], kind) + (if last.status == "skipped" && last.skipKind == kind then 1 else 0)
  }

  datatype Gate = Gate(
    allPassed: bool, completed: nat, total: nat, skipped: nat, failed: nat, skippedByKind: map<Option<SkipKind>, nat>)

  function Kept(m: map<Option<SkipKind>, nat>, kind: Option<SkipKind>): nat {
    if kind in m then m[kind] else 0
  }

  method CountByKind(steps: seq<StepData>) returns (byKind: map<Option<SkipKind>, nat>)
    ensures forall kind :: Kept(byKind, kind) == CountSkipped(steps, kind)
  {
    byKind := map[];
    for i := 0 to |steps|
      invariant forall kind :: Kept(byKind, kind) == CountSkipped(steps[..i], kind)
    {
      assert steps[..i + 1][..i] == steps[..i];
      if steps[i].status == "skipped" {
        byKind := byKind[steps[i].skipKind := Kept(byKind, steps[i].skipKind) + 1];
      }
    }
    assert steps[..|steps|] == steps;
  }

  lemma {:induction false} CountsFit(steps: seq<StepData>)
    ensures CountStatus(steps, "succeeded") + CountStatus(steps, "skipped") <= |steps|
    ensures CountStatus(steps, "succeeded") + CountStatus(steps, "skipped") == |steps|
       <==> forall i :: 0 <= i < |steps| ==> steps[i].status in {"succeeded", "skipped"}
  {
    if steps != [] {
      CountsFit(steps[..|steps| - 1]);
      assert "succeeded"[0] == 's' && "succeeded" != "skipped" by { assert "succeeded"[1] == 'u' && "skipped"[1] == 'k'; }
    }
  }

  /** The kinds of skips add up to the skipped steps. */
  lemma {:induction false} KindsAddUp(steps: seq<StepData>)
    ensures CountSkipped(steps, None) + CountSkipped(steps, Some(ByGuard)) + CountSkipped(steps, Some(ByDependency))
            + CountSkipped(steps, Some(ByJob)) == CountStatus(steps, "skipped")
  {
    if steps != [] {
      KindsAddUp(steps[..|steps| - 1]);
      var kind := steps[|steps| - 1].skipKind;
      assert kind == None || kind == Some(ByGuard) || kind == Some(ByDependency) || kind == Some(ByJob) by {
        assert kind.Some? ==> kind.value.ByGuard? || kind.value.ByDependency? || kind.value.ByJob?;
      }
    }
  }

  /** A step nobody can vouch for, neither succeeded nor skipped, in a job that counts. */
  ghost predicate Unvouched(run: RunRecord, j: nat, k: nat) {
    && j < |run.jobs| && !IsMachinery(run.jobs[j]) && k < |run.jobs[j].steps|
    && run.jobs[j].steps[k].status !in {"succeeded", "skipped"}
  }

  ghost predicate AllVouched(run: RunRecord) {
    forall j, k :: !Unvouched(run, j, k)
  }

  predicate AllGood(steps: seq<StepData>) {
    forall i :: 0 <= i < |steps| ==> steps[i].status in {"succeeded", "skipped"}
  }

  ghost predicate JobsVouched(jobs: seq<Job>) {
    forall j :: 0 <= j < |jobs| && !IsMachinery(jobs[j]) ==> AllGood(JobData(jobs[j]))
  }

  lemma {:induction false} RunDataGood(jobs: seq<Job>)
    ensures AllGood(RunData(jobs)) <==> JobsVouched(jobs)
  {
    if jobs != [] {
      var init, last := jobs[..|jobs| - 1], jobs[|jobs| - 1];
      RunDataGood(init);
      assert jobs == init + [last];
      if !IsMachinery(last) { GoodConcat(RunData(init), JobData(last)); }
    }
  }

  lemma GoodConcat(a: seq<StepData>, b: seq<StepData>)
    ensures AllGood(a + b) <==> AllGood(a) && AllGood(b)
  {
    if AllGood(a + b) {
      assert forall i :: 0 <= i < |a| ==> a[i] == (a + b)[i];
      assert forall i :: 0 <= i < |b| ==> b[i] == (a + b)[|a| + i];
    }
  }

  lemma VouchedIff(run: RunRecord)
    ensures AllVouched(run) <==> JobsVouched(run.jobs)
  {
    if AllVouched(run) {
      forall j | 0 <= j < |run.jobs| && !IsMachinery(run.jobs[j]) ensures AllGood(JobData(run.jobs[j])) {
        forall k | 0 <= k < |run.jobs[j].steps| ensures JobData(run.jobs[j])[k].status in {"succeeded", "skipped"} {
          assert !Unvouched(run, j, k);
        }
      }
    }
    if JobsVouched(run.jobs) {
      forall j: nat, k: nat ensures !Unvouched(run, j, k) {
        if j < |run.jobs| && !IsMachinery(run.jobs[j]) && k < |run.jobs[j].steps| {
          assert JobData(run.jobs[j])[k].status == run.jobs[j].steps[k].status;
        }
      }
    }
  }

  lemma {:induction false} AllDataGood(sources: seq<Source>)
    ensures AllGood(AllData(sources)) <==> forall i :: 0 <= i < |sources| ==> AllVouched(sources[i].run)
  {
    if sources != [] {
      var init, last := sources[..|sources| - 1], sources[|sources| - 1];
      AllDataGood(init);
      RunDataGood(last.run.jobs);
      VouchedIff(last.run);
      GoodConcat(AllData(init), RunData(last.run.jobs));
      assert sources == init + [last];
    }
  }

  /** The counts partition the steps, the kinds of skips add up, and "all passed" means that every
      workflow contributed and every step of every job that counts succeeded or was skipped. */
  method BuildGate(sources: seq<Source>) returns (steps: seq<StepData>, gate: Gate)
    ensures exists places :: AreTheSteps(sources, steps, places)
    ensures gate.completed == CountStatus(steps, "succeeded") && gate.skipped == CountStatus(steps, "skipped")
    ensures gate.completed + gate.skipped + gate.failed == gate.total == |steps|
    ensures forall kind :: Kept(gate.skippedByKind, kind) == CountSkipped(steps, kind)
    ensures Kept(gate.skippedByKind, None) + Kept(gate.skippedByKind, Some(ByGuard))
            + Kept(gate.skippedByKind, Some(ByDependency)) + Kept(gate.skippedByKind, Some(ByJob)) == gate.skipped
    ensures gate.allPassed <==>
      |sources| == |WORKFLOWS| && forall i :: 0 <= i < |sources| ==> AllVouched(sources[i].run)
  {
    steps := CollectSteps(sources);
    DataAreTheSteps(sources);
    var succeeded, skipped := CountStatus(steps, "succeeded"), CountStatus(steps, "skipped");
    CountsFit(steps);
    var failed := |steps| - succeeded - skipped;
    var byKind := CountByKind(steps);
    KindsAddUp(steps);
    AllDataGood(sources);
    gate := Gate(failed == 0 && |sources| == |WORKFLOWS|, succeeded, |steps|, skipped, failed, byKind);
  }
}
