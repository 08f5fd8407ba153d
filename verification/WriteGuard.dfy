/**
 `integration/unscoped_write_guard.ts`: a test that makes a hooked write outside every unit
 of work fails, even when the error the write raised was caught on the way.

 What runs under the guard is a program of writes, throws, catches, sequences and further
 guards; a program has one thread of control.
 */
module WriteGuard {
  import opened Options
  import opened Text

  // ----- Reports -----

  datatype Caller = Caller(file: string, line: string, fn: Option<string>)

  /** A hooked write outside every unit: its kind, its path (or the reason of a bulk change), and
      where it was made, if that is known. */
  datatype Write = Write(kind: string, target: string, caller: Option<Caller>)

  /** The key production code is pinned under; none for unknown callers, tests and other trees. */
  function UnscopedWriterKey(caller: Option<Caller>): Option<string> {
    if caller.None? || !StartsWith(caller.value.file, "src/")
       || EndsWith(caller.value.file, "_test.ts") || EndsWith(caller.value.file, "_test.tsx") then None
    else Some(caller.value.file + ": " + (if caller.value.fn.Some? then caller.value.fn.value else "<anonymous>"))
  }

  predicate Counts(pinned: set<string>, w: Write) {
    UnscopedWriterKey(w.caller).Some? && UnscopedWriterKey(w.caller).value !in pinned
  }

  function FormatCaller(caller: Option<Caller>): string {
    match caller
    case None => "an unknown caller"
    case Some(c) => c.file + ":" + c.line + (if c.fn.Some? then " (" + c.fn.value + ")" else "")
  }

  function Describe(w: Write): string {
    w.kind + " " + w.target + " from " + FormatCaller(w.caller)
  }

  const HEADER := "Hooked writes ran" + " outside a unit" + " of work (route 2):"

  function Item(line: string): string {
    "  - " + line
  }

  function Items(unscoped: seq<string>): (r: seq<string>)
    ensures |r| == |unscoped| && forall i :: 0 <= i < |r| ==> r[i] == Item(unscoped[i])
  {
    seq(|unscoped|, i requires 0 <= i < |unscoped| => Item(unscoped[i]))
  }

  function Message(unscoped: seq<string>): string {
    HEADER + "\n" + Join(Items(unscoped), "\n")
  }

  // ----- Programs -----

  datatype Error = Thrown(text: string) | Refused(description: string) | GuardFailed(message: string, cause: Option<Error>)

  /** `Catch` runs its handler when the body fails; it may throw the body's error again. */
  datatype Program =
    | Skip
    | Report(write: Write)
    | Throw(error: Error)
    | Sequence(first: Program, second: Program)
    | Catch(body: Program, handler: Program, rethrows: bool)
    | Guarded(body: Program)

  datatype Outcome = Returned | Failed(error: Error)

  /** How a program ends under an active guard, and the writes it made. */
  datatype Run = Run(outcome: Outcome, writes: seq<Write>)

  function Inside(pinned: set<string>, p: Program): Run {
    match p
    case Skip => Run(Returned, [])
    case Report(w) => Run(if Counts(pinned, w) then Failed(Refused(Describe(w))) else Returned, [w])
    case Throw(e) => Run(Failed(e), [])
    case Sequence(a, b) =>
      var ra := Inside(pinned, a);
      if ra.outcome.Failed? then ra
      else
        var rb := Inside(pinned, b);
        Run(rb.outcome, ra.writes + rb.writes)
    case Catch(body, handler, rethrows) =>
      var rb := Inside(pinned, body);
      if rb.outcome.Returned? then rb
      else
        var rh := Inside(pinned, handler);
        Run(AfterHandler(rb.outcome, rh.outcome, rethrows), rb.writes + rh.writes)
    case Guarded(body) => Inside(pinned, body)
  }

  function AfterHandler(body: Outcome, handler: Outcome, rethrows: bool): Outcome {
    if handler.Failed? then handler else if rethrows then body else Returned
  }

  /** The descriptions of the writes that count. */
  function Unscoped(pinned: set<string>, writes: seq<Write>): seq<string> {
    if writes == [] then []
    else
      var init, last := Unscoped(pinned, writes[..|writes| - 1]), writes[|writes| - 1];
      if Counts(pinned, last) then init + [Describe(last)] else init
  }

  /** What a program adds to the active guard's list. */
  function Listed(pinned: set<string>, p: Program): seq<string> {
    Unscoped(pinned, Inside(pinned, p).writes)
  }

  lemma SequenceLists(pinned: set<string>, a: Program, b: Program, before: seq<string>)
    requires Inside(pinned, a).outcome.Returned?
    ensures before + Listed(pinned, a) + Listed(pinned, b) == before + Listed(pinned, Sequence(a, b))
    ensures Inside(pinned, Sequence(a, b)).outcome == Inside(pinned, b).outcome
  {
    UnscopedConcat(pinned, Inside(pinned, a).writes, Inside(pinned, b).writes);
    Regroup(before, Listed(pinned, a), Listed(pinned, b));
  }

  lemma CatchLists(pinned: set<string>, body: Program, handler: Program, rethrows: bool, before: seq<string>)
    requires Inside(pinned, body).outcome.Failed?
    ensures before + Listed(pinned, body) + Listed(pinned, handler)
         == before + Listed(pinned, Catch(body, handler, rethrows))
    ensures Inside(pinned, Catch(body, handler, rethrows)).outcome
         == AfterHandler(Inside(pinned, body).outcome, Inside(pinned, handler).outcome, rethrows)
  {
    CatchRuns(pinned, body, handler, rethrows);
    UnscopedConcat(pinned, Inside(pinned, body).writes, Inside(pinned, handler).writes);
    Regroup(before, Listed(pinned, body), Listed(pinned, handler));
  }

  lemma CatchRuns(pinned: set<string>, body: Program, handler: Program, rethrows: bool)
    requires Inside(pinned, body).outcome.Failed?
    ensures var rb, rh := Inside(pinned, body), Inside(pinned, handler);
      Inside(pinned, Catch(body, handler, rethrows))
      == Run(AfterHandler(rb.outcome, rh.outcome, rethrows), rb.writes + rh.writes)
  {
  }

  lemma Regroup(a: seq<string>, b: seq<string>, c: seq<string>)
    ensures a + b + c == a + (b + c)
  {
  }

  /** How a guard that is not nested ends, from how its body ran. */
  function GuardOutcome(pinned: set<string>, run: Run): Outcome {
    var unscoped := Unscoped(pinned, run.writes);
    if unscoped == [] then run.outcome
    else Failed(GuardFailed(Message(unscoped), if run.outcome.Failed? then Some(run.outcome.error) else None))
  }

  /** How a program ends when no guard is active: a write is only warned about. */
  function Outside(pinned: set<string>, p: Program): Outcome {
    match p
    case Skip => Returned
    case Report(_) => Returned
    case Throw(e) => Failed(e)
    case Sequence(a, b) => if Outside(pinned, a).Failed? then Outside(pinned, a) else Outside(pinned, b)
    case Catch(body, handler, rethrows) =>
      if Outside(pinned, body).Returned? then Returned
      else AfterHandler(Outside(pinned, body), Outside(pinned, handler), rethrows)
    case Guarded(body) => GuardOutcome(pinned, Inside(pinned, body))
  }

  // ----- The guard with its flag -----

  lemma ListsOne(pinned: set<string>, w: Write)
    ensures Unscoped(pinned, [w]) == if Counts(pinned, w) then [Describe(w)] else []
  {
    assert [w][..0] == [] && Unscoped(pinned, []) == [];
  }

  class UnscopedWriteGuard {
    const pinned: set<string>
    var active: bool
    var installed: bool           // the reporter is installed
    var unscoped: seq<string>     // the list of the active guard

    ghost predicate Valid()
      reads this
    {
      installed == active
    }

    constructor (pinned: set<string>)
      ensures Valid() && !active && this.pinned == pinned
    {
      this.pinned := pinned;
      active, installed, unscoped := false, false, [];
    }

    /** The reporter. */
    method ReportWrite(w: Write) returns (outcome: Outcome)
      requires Valid()
      modifies this`unscoped
      ensures active && Counts(pinned, w) ==>
        outcome == Failed(Refused(Describe(w))) && unscoped == old(unscoped) + [Describe(w)]
      ensures !(active && Counts(pinned, w)) ==> outcome == Returned && unscoped == old(unscoped)
    {
      if !installed { return Returned; }
      var key := UnscopedWriterKey(w.caller);
      if key.None? || key.value in pinned { return Returned; }
      unscoped := unscoped + [Describe(w)];
      return Failed(Refused(Describe(w)));
    }

    method WithUnscopedWriteGuard(body: Program) returns (outcome: Outcome)
      requires Valid()
      modifies this
      ensures Valid() && active == old(active)
      ensures old(active) ==> outcome == Inside(pinned, body).outcome
      ensures old(active) ==> unscoped == old(unscoped) + Listed(pinned, body)
      ensures !old(active) ==> outcome == GuardOutcome(pinned, Inside(pinned, body))
      decreases body, 2
    {
      if active {
        outcome := Execute(body);
        return;
      }
      unscoped, installed, active := [], true, true;
      outcome := Execute(body);
      active, installed := false, false;
      assert unscoped == Listed(pinned, body);
      if unscoped != [] {
        var cause := if outcome.Failed? then Some(outcome.error) else None;
        outcome := Failed(GuardFailed(Message(unscoped), cause));
      }
    }

    /** Runs a program; whatever it does, the guard is as active afterwards as it was before. */
    method Execute(p: Program) returns (outcome: Outcome)
      requires Valid()
      modifies this
      ensures Valid() && active == old(active)
      ensures old(active) ==> outcome == Inside(pinned, p).outcome
      ensures old(active) ==> unscoped == old(unscoped) + Listed(pinned, p)
      ensures !old(active) ==> outcome == Outside(pinned, p)
      decreases p, 1
    {
      assert unscoped + [] == unscoped;
      match p
      case Skip => outcome := Returned;
      case Report(w) =>
        ListsOne(pinned, w);
        outcome := ReportWrite(w);
      case Throw(e) => outcome := Failed(e);
      case Sequence(a, b) => outcome := ExecuteSequence(p, a, b);
      case Catch(body, handler, rethrows) => outcome := ExecuteCatch(p, body, handler, rethrows);
      case Guarded(body) => outcome := WithUnscopedWriteGuard(body);
    }

    method ExecuteSequence(ghost p: Program, a: Program, b: Program) returns (outcome: Outcome)
      requires Valid() && p == Sequence(a, b)
      modifies this
      ensures Valid() && active == old(active)
      ensures old(active) ==> outcome == Inside(pinned, p).outcome
      ensures old(active) ==> unscoped == old(unscoped) + Listed(pinned, p)
      ensures !old(active) ==> outcome == Outside(pinned, p)
      decreases p, 0
    {
      outcome := Execute(a);
      if outcome.Returned? {
        if old(active) { SequenceLists(pinned, a, b, old(unscoped)); }
        outcome := Execute(b);
      }
    }

    method ExecuteCatch(ghost p: Program, body: Program, handler: Program, rethrows: bool) returns (outcome: Outcome)
      requires Valid() && p == Catch(body, handler, rethrows)
      modifies this
      ensures Valid() && active == old(active)
      ensures old(active) ==> outcome == Inside(pinned, p).outcome
      ensures old(active) ==> unscoped == old(unscoped) + Listed(pinned, p)
      ensures !old(active) ==> outcome == Outside(pinned, p)
      decreases p, 0
    {
      outcome := Execute(body);
      if outcome.Failed? {
        if old(active) { CatchLists(pinned, body, handler, rethrows, old(unscoped)); }
        var after := Execute(handler);
        outcome := AfterHandler(outcome, after, rethrows);
      }
    }
  }

  // ----- The promises -----

  lemma {:induction false} UnscopedConcat(pinned: set<string>, a: seq<Write>, b: seq<Write>)
    ensures Unscoped(pinned, a + b) == Unscoped(pinned, a) + Unscoped(pinned, b)
  {
    if b == [] {
      assert a + b == a;
    } else {
      UnscopedConcat(pinned, a, b[..|b| - 1]);
      assert (a + b)[..|a + b| - 1] == a + b[..|b| - 1];
    }
  }

  lemma {:induction false} UnscopedIff(pinned: set<string>, writes: seq<Write>)
    ensures Unscoped(pinned, writes) != [] <==> exists i :: 0 <= i < |writes| && Counts(pinned, writes[i])
  {
    if writes != [] {
      var init := writes[..|writes| - 1];
      UnscopedIff(pinned, init);
      if i: int :| 0 <= i < |writes| && Counts(pinned, writes[i]) {
        assert i < |init| ==> init[i] == writes[i];
      }
      if i: int :| 0 <= i < |init| && Counts(pinned, init[i]) {
        assert writes[i] == init[i];
      }
    }
  }

  // ----- What counts, and what programs do -----

  /** Only production code that is not pinned counts: a caller under `src/` that is no test. */
  lemma CountsIff(pinned: set<string>, w: Write)
    ensures Counts(pinned, w) <==>
      w.caller.Some? && var c := w.caller.value;
      && StartsWith(c.file, "src/") && !EndsWith(c.file, "_test.ts") && !EndsWith(c.file, "_test.tsx")
      && (match c.fn case Some(fn) => c.file + ": " + fn !in pinned case None => c.file + ": <anonymous>" !in pinned)
  {
    if w.caller.Some? {
      assert w.caller.value.file + ": " + "<anonymous>" == w.caller.value.file + ": <anonymous>";
    }
  }

  /** How a write is named, with and without its caller and its function. */
  lemma DescriptionsRead(kind: string, target: string, file: string, line: string, fn: string)
    ensures Describe(Write(kind, target, None)) == kind + " " + target + " from an unknown caller"
    ensures Describe(Write(kind, target, Some(Caller(file, line, None)))) == kind + " " + target + " from " + file + ":" + line
    ensures Describe(Write(kind, target, Some(Caller(file, line, Some(fn)))))
         == kind + " " + target + " from " + file + ":" + line + " (" + fn + ")"
  {
    var head := kind + " " + target;
    assert " from " + "an unknown caller" == " from an unknown caller";
    assert head + " from " + (file + ":" + line + "") == head + " from " + file + ":" + line;
    assert head + " from " + (file + ":" + line + (" (" + fn + ")")) == head + " from " + file + ":" + line + " (" + fn + ")";
  }

  /** Programs under the guard compose as the runtime's do: what fails goes no further, a handler runs
      only on a failure, and its own failure wins. */
  lemma ProgramLaws(pinned: set<string>, p: Program, q: Program, r: Program, e: Error, f: Error)
    ensures Inside(pinned, Sequence(Skip, p)) == Inside(pinned, p) == Inside(pinned, Sequence(p, Skip))
    ensures Inside(pinned, Sequence(Throw(e), p)) == Inside(pinned, Throw(e)) == Run(Failed(e), [])
    ensures Inside(pinned, Sequence(Sequence(p, q), r)) == Inside(pinned, Sequence(p, Sequence(q, r)))
    ensures forall rethrows :: Inside(pinned, Catch(Skip, p, rethrows)) == Inside(pinned, Skip) == Run(Returned, [])
    ensures Inside(pinned, Catch(Throw(e), Skip, false)) == Inside(pinned, Skip)
    ensures Inside(pinned, Catch(Throw(e), Skip, true)) == Inside(pinned, Throw(e))
    ensures forall rethrows :: Inside(pinned, Catch(Throw(e), Throw(f), rethrows)) == Inside(pinned, Throw(f))
  {
    SequenceAssociates(pinned, p, q, r);
    SkipIsUnit(pinned, p);
  }

  lemma SkipIsUnit(pinned: set<string>, p: Program)
    ensures Inside(pinned, Sequence(Skip, p)) == Inside(pinned, p) == Inside(pinned, Sequence(p, Skip))
  {
    assert [] + Inside(pinned, p).writes == Inside(pinned, p).writes == Inside(pinned, p).writes + [];
  }

  lemma SequenceAssociates(pinned: set<string>, p: Program, q: Program, r: Program)
    ensures Inside(pinned, Sequence(Sequence(p, q), r)) == Inside(pinned, Sequence(p, Sequence(q, r)))
  {
    var a, b, c := Inside(pinned, p), Inside(pinned, q), Inside(pinned, r);
    assert a.writes + b.writes + c.writes == a.writes + (b.writes + c.writes);
  }

  /** A write that counts fails where it is made, and one that does not passes; both are made. */
  lemma ReportLaws(pinned: set<string>, w: Write, p: Program)
    ensures Counts(pinned, w) ==>
      Inside(pinned, Sequence(Report(w), p)) == Inside(pinned, Report(w)) == Run(Failed(Refused(Describe(w))), [w])
    ensures !Counts(pinned, w) ==> Inside(pinned, Report(w)) == Run(Returned, [w])
  {
  }

  /** The descriptions listed are those of the writes that count, in order. */
  lemma {:induction false} ListedInOrder(pinned: set<string>, writes: seq<Write>) returns (at: seq<nat>)
    ensures |at| == |Unscoped(pinned, writes)|
    ensures forall i :: 0 <= i < |at| ==> at[i] < |writes| && Unscoped(pinned, writes)[i] == Describe(writes[at[i]])
    ensures forall i, j :: 0 <= i < j < |at| ==> at[i] < at[j]
    ensures forall k: nat :: k in at <==> k < |writes| && Counts(pinned, writes[k])
  {
    at := [];
    if writes != [] {
      var init := writes[..|writes| - 1];
      at := ListedInOrder(pinned, init);
      if Counts(pinned, writes[|writes| - 1]) { at := at + [|writes| - 1]; }
    }
  }

  /** The error of a guard that found writes names them all, and its cause is the body's own error, if
      there was one; a guard that found none passes its body's ending on. */
  lemma GuardSays(pinned: set<string>, body: Program)
    ensures var run := Inside(pinned, body);
      Outside(pinned, Guarded(body)) ==
        if forall i :: 0 <= i < |run.writes| ==> !Counts(pinned, run.writes[i]) then run.outcome
        else Failed(GuardFailed(Message(Unscoped(pinned, run.writes)),
                                if run.outcome.Failed? then Some(run.outcome.error) else None))
  {
    UnscopedIff(pinned, Inside(pinned, body).writes);
  }

  /** The outermost guard fails exactly when its body fails or a write that counts was made, caught
      or not. */
  lemma GuardFailsIff(pinned: set<string>, body: Program)
    ensures var run := Inside(pinned, body);
      Outside(pinned, Guarded(body)).Failed?
      <==> run.outcome.Failed? || exists i :: 0 <= i < |run.writes| && Counts(pinned, run.writes[i])
  {
    UnscopedIff(pinned, Inside(pinned, body).writes);
  }

  /** Whatever handler catches the error of a write, the guard still fails. */
  lemma SwallowingHidesNothing(pinned: set<string>, body: Program, handler: Program, rethrows: bool, i: nat)
    requires i < |Inside(pinned, body).writes| && Counts(pinned, Inside(pinned, body).writes[i])
    ensures Outside(pinned, Guarded(Catch(body, handler, rethrows))).Failed?
  {
    var run := Inside(pinned, Catch(body, handler, rethrows));
    assert run.writes[i] == Inside(pinned, body).writes[i];
    UnscopedIff(pinned, run.writes);
  }

  /** The program without its guards. */
  function WithoutGuards(p: Program): Program {
    match p
    case Sequence(a, b) => Sequence(WithoutGuards(a), WithoutGuards(b))
    case Catch(body, handler, rethrows) => Catch(WithoutGuards(body), WithoutGuards(handler), rethrows)
    case Guarded(body) => WithoutGuards(body)
    case _ => p
  }

  /** Guards inside an active guard change nothing. */
  lemma {:induction false} NestedGuardsAreTransparent(pinned: set<string>, p: Program)
    ensures Inside(pinned, WithoutGuards(p)) == Inside(pinned, p)
  {
    match p
    case Sequence(a, b) =>
      NestedGuardsAreTransparent(pinned, a);
      NestedGuardsAreTransparent(pinned, b);
    case Catch(body, handler, _) =>
      NestedGuardsAreTransparent(pinned, body);
      NestedGuardsAreTransparent(pinned, handler);
    case Guarded(body) => NestedGuardsAreTransparent(pinned, body);
    case _ =>
  }

  /** A program that makes no write that counts ends alike with and without a guard around it. */
  lemma {:induction false} GuardIsInvisible(pinned: set<string>, p: Program)
    requires Unscoped(pinned, Inside(pinned, p).writes) == []
    ensures Outside(pinned, p) == Inside(pinned, p).outcome == Outside(pinned, Guarded(p))
  {
    match p
    case Report(w) => assert [w][..0] == [];
    case Sequence(a, b) =>
      UnscopedConcat(pinned, Inside(pinned, a).writes, Inside(pinned, b).writes);
      GuardIsInvisible(pinned, a);
      if Inside(pinned, a).outcome.Returned? { GuardIsInvisible(pinned, b); }
    case Catch(body, handler, _) =>
      UnscopedConcat(pinned, Inside(pinned, body).writes, Inside(pinned, handler).writes);
      GuardIsInvisible(pinned, body);
      if Inside(pinned, body).outcome.Failed? { GuardIsInvisible(pinned, handler); }
    case Guarded(body) => GuardIsInvisible(pinned, body);
    case _ =>
  }

  /** The message is the header and then every write that counts, in order, whatever its lines; it is
      one line a write exactly when no description holds a newline. */
  lemma MessageListsAll(unscoped: seq<string>)
    requires unscoped != []
    ensures Split(Message(unscoped), '\n') == [HEADER] + LinesOfParts(Items(unscoped))
    ensures Split(Message(unscoped), '\n') == [HEADER] + Items(unscoped)
       <==> forall i :: 0 <= i < |unscoped| ==> '\n' !in unscoped[i]
  {
    var items := Items(unscoped);
    assert "\n" == ['\n'];
    SplitIntoLines(items);
    HeaderIsOneLine();
    SplitFirst(HEADER, '\n', Join(items, "\n"));
    LinesArePartsIff(items);
    forall i | 0 <= i < |items| ensures '\n' in items[i] <==> '\n' in unscoped[i] {
      ItemLines(unscoped[i]);
    }
    assert ([HEADER] + LinesOfParts(items))[1..] == LinesOfParts(items) && ([HEADER] + items)[1..] == items;
  }

  lemma ItemLines(line: string)
    ensures '\n' in Item(line) <==> '\n' in line
  {
    assert '\n' !in "  - ";
  }

  lemma HeaderIsOneLine()
    ensures '\n' !in HEADER
  {
    assert '\n' !in "Hooked writes ran";
    assert '\n' !in " outside a unit";
    assert '\n' !in " of work (route 2):";
  }
}
