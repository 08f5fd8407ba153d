/**
 `checkVerificationProvenance` of `scripts/build_attestation.ts`: the shells of a
 verification workflow (`jobs[].steps[].task.inputs.run`) must be exactly the committed
 ones with their expressions evaluated; everything else is checked as a template.

 The expression scanner, the CEL evaluator and the printing of values are parameters.
 */
module StrictProvenance {
  import opened Options
  import opened Text
  import opened Provenance

  /** An expression as written, and the text from it to the next one. */
  datatype Piece = Piece(raw: string, after: string)

  /** A string as the scanner cuts it.  Its expressions need not be those of the template check: the
      scanner knows quotes, so a quoted `}}` does not end one. */
  datatype Scan = Scan(before: string, pieces: seq<Piece>)

  datatype Evaluator = Evaluator(
    scan: string -> Scan,
    expression: string -> string,        // the CEL text of a raw `${{ … }}`
    evaluate: string -> Option<Value>,   // None: evaluation throws
    show: Value -> string)               // a value that is neither null nor a string, as text

  function ValueOf(ev: Evaluator, raw: string): Option<Value> {
    if ev.expression(raw) == "run.id" then Some(Str(raw)) else ev.evaluate(ev.expression(raw))
  }

  function TextOf(ev: Evaluator, v: Value): string {
    match v
    case Null => ""
    case Str(s) => s
    case _ => ev.show(v)
  }

  /** The pieces with each expression replaced by its value's text. */
  function Replaced(ev: Evaluator, pieces: seq<Piece>): Option<string> {
    if pieces == [] then Some("")
    else
      var first, rest := ValueOf(ev, pieces[0].raw), Replaced(ev, pieces[1..]);
      if first.Some? && rest.Some? then Some(TextOf(ev, first.value) + pieces[0].after + rest.value) else None
  }

  predicate IsSingle(scan: Scan) {
    |scan.pieces| == 1 && scan.before == "" && Trim(scan.pieces[0].after) == ""
  }

  /** The shell with its expressions replaced by their values.  A shell that is one expression
      becomes the value itself, of whatever type. */
  function ExpectedShell(ev: Evaluator, shell: string): Option<Value> {
    var Scan(before, pieces) := ev.scan(shell);
    if pieces == [] then Some(Str(shell))
    else if IsSingle(ev.scan(shell)) then ValueOf(ev, pieces[0].raw)
    else
      var text := Replaced(ev, pieces);
      if text.Some? then Some(Str(before + text.value)) else None
  }

  // ----- Where the shells are -----

  datatype Level = Root | Jobs | Job | Steps | Step | Task | Inputs | Run | Outside

  function Below(level: Level, key: string): Level {
    if level.Root? && key == "jobs" then Jobs
    else if level.Job? && key == "steps" then Steps
    else if level.Step? && key == "task" then Task
    else if level.Task? && key == "inputs" then Inputs
    else if level.Inputs? && key == "run" then Run
    else if level.Run? then Run
    else Outside
  }

  function ItemOf(level: Level): Level {
    if level.Jobs? then Job else if level.Steps? then Step else if level.Run? then Run else Outside
  }

  /** A step into a definition: to a key, or to some item of a list. */
  datatype Hop = Key(key: string) | Item

  function LevelOf(path: seq<Hop>): Level {
    if path == [] then Root
    else
      match path[|path| - 1]
      case Key(key) => Below(LevelOf(path[..|path| - 1]), key)
      case Item => ItemOf(LevelOf(path[..|path| - 1]))
  }

  /** `jobs[].steps[].task.inputs.run` */
  const SHELL_PATH := [Key("jobs"), Item, Key("steps"), Item, Key("task"), Key("inputs"), Key("run")]

  /** The level that stands for the first `n` steps of the path to a shell. */
  function LevelAt(n: nat): Level {
    if n == 0 then Root else if n == 1 then Jobs else if n == 2 then Job else if n == 3 then Steps
    else if n == 4 then Step else if n == 5 then Task else if n == 6 then Inputs else if n == 7 then Run else Outside
  }

  lemma {:induction false} LevelIsPlace(path: seq<Hop>, n: nat)
    requires n < 7
    ensures LevelOf(path) == LevelAt(n) <==> path == SHELL_PATH[..n]
    decreases n
  {
    if path != [] {
      var init, last := path[..|path| - 1], path[|path| - 1];
      assert path == init + [last];
      if n > 0 {
        LevelIsPlace(init, n - 1);
        assert SHELL_PATH[..n] == SHELL_PATH[..n - 1] + [SHELL_PATH[n - 1]];
      }
      HopLevels(LevelOf(init), last, n);
    }
  }

  lemma HopLevels(level: Level, hop: Hop, n: nat)
    requires n < 8
    ensures var next := if hop.Key? then Below(level, hop.key) else ItemOf(level);
      next == LevelAt(n) <==>
        (n > 0 && level == LevelAt(n - 1) && hop == SHELL_PATH[n - 1]) || (n == 7 && level.Run?)
  {
  }

  /** What is compared as a shell is exactly what stands at that path or below it. */
  lemma {:induction false} ShellsAreAtThePath(path: seq<Hop>)
    ensures LevelOf(path).Run? <==> SHELL_PATH <= path
    decreases |path|
  {
    if path != [] {
      var init, last := path[..|path| - 1], path[|path| - 1];
      assert path == init + [last];
      ShellsAreAtThePath(init);
      LevelIsPlace(init, 6);
      HopLevels(LevelOf(init), last, 7);
      if init == SHELL_PATH[..6] && last == SHELL_PATH[6] { assert path == SHELL_PATH; }
      if SHELL_PATH <= path && |path| == 7 { assert path == SHELL_PATH && init == SHELL_PATH[..6]; }
      if SHELL_PATH <= path && |path| > 7 { assert SHELL_PATH <= init; }
    }
  }

  /** `v.key ?? []` as a loop goes over it; none when the access or the iteration throws.  A string's
      characters have no steps or shells. */
  function Entries(v: Value, key: string): Option<seq<Value>> {
    if v.Null? then None
    else
      match (if HasOwn(Own(v), key) then Get(Own(v), key) else Null)
      case Null => Some([])
      case Str(_) => Some([])
      case List(items) => Some(items)
      case _ => None
  }

  /** The loops over jobs and steps reach every shell without throwing. */
  predicate CanBeWalked(v: Value) {
    && Entries(v, "jobs").Some?
    && forall job :: job in Entries(v, "jobs").value ==>
         && Entries(job, "steps").Some?
         && forall step :: step in Entries(job, "steps").value ==> !step.Null?
  }

  /** What stands under the key is missing, null, a text or a list. */
  predicate CanLoopOver(v: Value, key: string) {
    HasOwn(Own(v), key) ==> Get(Own(v), key).Null? || Get(Own(v), key).Str? || Get(Own(v), key).List?
  }

  predicate IsItemUnder(v: Value, key: string, item: Value) {
    HasOwn(Own(v), key) && Get(Own(v), key).List? && item in Get(Own(v), key).items
  }

  /** The loops throw exactly at a null definition, job or step, and at jobs or steps that are neither a
      text nor a list. */
  lemma WalkIff(v: Value)
    ensures CanBeWalked(v) <==>
      && !v.Null? && CanLoopOver(v, "jobs")
      && forall job :: IsItemUnder(v, "jobs", job) ==>
           && !job.Null? && CanLoopOver(job, "steps")
           && forall step :: IsItemUnder(job, "steps", step) ==> !step.Null?
  {
    EntriesIff(v, "jobs");
    forall job ensures
      (Entries(job, "steps").Some? <==> !job.Null? && CanLoopOver(job, "steps"))
      && (Entries(job, "steps").Some? ==> forall step :: step in Entries(job, "steps").value <==> IsItemUnder(job, "steps", step))
    {
      EntriesIff(job, "steps");
    }
  }

  lemma EntriesIff(v: Value, key: string)
    ensures Entries(v, key).Some? <==> !v.Null? && CanLoopOver(v, key)
    ensures Entries(v, key).Some? ==> forall item :: item in Entries(v, key).value <==> IsItemUnder(v, key, item)
  {
  }

  /** The clone with every shell overwritten; none when an evaluation throws. */
  function Expected(ev: Evaluator, level: Level, v: Value): (r: Option<Value>)
    decreases v, 1
  {
    match v
    case Str(s) => if level.Run? then ExpectedShell(ev, s) else Some(v)
    case List(items) =>
      var r := ExpectedItems(ev, ItemOf(level), items);
      if r.Some? then Some(List(r.value)) else None
    case Mapping(fields) =>
      var r := ExpectedFields(ev, level, fields);
      if r.Some? then Some(Mapping(r.value)) else None
    case _ => Some(v)
  }

  function ExpectedItems(ev: Evaluator, level: Level, items: seq<Value>): (r: Option<seq<Value>>)
    ensures r.Some? ==> |r.value| == |items|
    ensures r.Some? ==> forall i :: 0 <= i < |items| ==> Expected(ev, level, items[i]) == Some(r.value[i])
    ensures r.None? ==> exists i :: 0 <= i < |items| && Expected(ev, level, items[i]).None?
    decreases items, 0
  {
    if items == [] then Some([])
    else
      var first := Expected(ev, level, items[0]);
      var rest := ExpectedItems(ev, level, items[1..]);
      if first.Some? && rest.Some? then Some([first.value] + rest.value)
      else
        assert rest.None? ==> exists i :: 1 <= i < |items| && Expected(ev, level, items[i]).None? by {
          if rest.None? {
            var i :| 0 <= i < |items[1..]| && Expected(ev, level, items[1..][i]).None?;
            assert items[1..][i] == items[i + 1];
          }
        }
        None
  }

  function ExpectedFields(ev: Evaluator, level: Level, fields: seq<Field>): (r: Option<seq<Field>>)
    ensures r.Some? ==> |r.value| == |fields|
    ensures r.Some? ==> forall i :: 0 <= i < |fields| ==>
      r.value[i].key == fields[i].key
      && Expected(ev, Below(level, fields[i].key), fields[i].value) == Some(r.value[i].value)
    ensures r.None? ==> exists i :: 0 <= i < |fields| && Expected(ev, Below(level, fields[i].key), fields[i].value).None?
    decreases fields, 0
  {
    if fields == [] then Some([])
    else
      var first := Expected(ev, Below(level, fields[0].key), fields[0].value);
      var rest := ExpectedFields(ev, level, fields[1..]);
      if first.Some? && rest.Some? then Some([Field(fields[0].key, first.value)] + rest.value)
      else
        assert rest.None? ==> exists i :: 1 <= i < |fields| && Expected(ev, Below(level, fields[i].key), fields[i].value).None? by {
          if rest.None? {
            var i :| 0 <= i < |fields[1..]|
                     && Expected(ev, Below(level, fields[1..][i].key), fields[1..][i].value).None?;
            assert fields[1..][i] == fields[i + 1];
          }
        }
        None
  }

  /** `===`: two collections or timestamps are never the same object. */
  predicate StrictEqual(a: Value, b: Value) {
    a == b && !a.List? && !IsObject(a)
  }

  /** Every expected shell is strictly equal to the evaluated one at its place. */
  predicate ShellsEqual(level: Level, expected: Value, evaluated: Value)
    decreases expected, 1
  {
    if level.Outside? then true
    else if level.Run? then StrictEqual(expected, evaluated)
    else if expected.List? && evaluated.List? then
      forall i :: 0 <= i < |expected.items| && i < |evaluated.items| ==>
        ShellsEqual(ItemOf(level), expected.items[i], evaluated.items[i])
    else if expected.Mapping? && IsObject(evaluated) then FieldShellsEqual(level, expected.fields, evaluated)
    else true
  }

  predicate FieldShellsEqual(level: Level, expected: seq<Field>, evaluated: Value)
    decreases expected, 0
  {
    forall i :: 0 <= i < |expected| ==>
      ShellsEqual(Below(level, expected[i].key), expected[i].value, Get(Own(evaluated), expected[i].key))
  }

  datatype Verdict =
    | Passed
    | InputsRefused
    | CannotWalk
    | CannotEvaluate
    | Differs(findings: seq<Finding>)
    | ShellDiffers

  function CheckVerification(ev: Evaluator, inputsValid: bool, committed: Value, evaluated: Value): Verdict {
    if !inputsValid then InputsRefused
    else if !CanBeWalked(committed) then CannotWalk
    else
      match Expected(ev, Root, committed)
      case None => CannotEvaluate
      case Some(expected) =>
        var findings := Check(expected, evaluated, "");
        if findings != [] then Verdict.Differs(findings)
        else if ShellsEqual(Root, expected, evaluated) then Passed
        else ShellDiffers
  }

  // ----- What passing means, without the clone -----

  /** The evaluated definition is the committed one: every shell is the committed shell with its
      expressions evaluated, and everything else conforms as a template. */
  ghost predicate IsExecuted(ev: Evaluator, level: Level, c: Value, e: Value, atRoot: bool)
    decreases c, 1
  {
    if level.Outside? then Conforms(c, e, atRoot)
    else if level.Run? then StrictEqual(e, e) && (if c.Str? then ExpectedShell(ev, c.s) == Some(e) else c == e)
    else
      match c
      case List(items) =>
        && e.List? && |e.items| == |items|
        && forall i :: 0 <= i < |items| ==> IsExecuted(ev, ItemOf(level), items[i], e.items[i], false)
      case Mapping(fields) =>
        && IsObject(e)
        && FieldsExecuted(ev, level, fields, e, atRoot)
        && ExtrasAllowed(c, e, atRoot)
      case _ => Conforms(c, e, atRoot)
  }

  ghost predicate FieldsExecuted(ev: Evaluator, level: Level, c: seq<Field>, e: Value, atRoot: bool)
    decreases c, 0
  {
    forall i :: 0 <= i < |c| ==>
      && HasKey(e, c[i].key)
      && IsExecuted(ev, Below(level, c[i].key), c[i].value, Get(Own(e), c[i].key), atRoot && c[i].key == "")
  }

  /** Outside the shells nothing is rewritten. */
  lemma {:induction false} OutsideIsKept(ev: Evaluator, v: Value)
    ensures Expected(ev, Outside, v) == Some(v)
    decreases v
  {
    match v
    case List(items) =>
      forall i | 0 <= i < |items| ensures Expected(ev, Outside, items[i]) == Some(items[i]) {
        OutsideIsKept(ev, items[i]);
      }
      assert ExpectedItems(ev, Outside, items).Some?;
      assert ExpectedItems(ev, Outside, items).value == items;
    case Mapping(fields) =>
      forall i | 0 <= i < |fields| ensures Expected(ev, Outside, fields[i].value) == Some(fields[i].value) {
        OutsideIsKept(ev, fields[i].value);
      }
      assert ExpectedFields(ev, Outside, fields).Some?;
      assert ExpectedFields(ev, Outside, fields).value == fields;
    case _ =>
  }

  lemma ConformsToItself(v: Value, atRoot: bool)
    requires !v.List? && !IsObject(v)
    ensures Conforms(v, v, atRoot)
  {
    if v.Str? {
      assert IsInstance(Literals(v.s), v.s) by {
        Reassembles(v.s);
      }
    }
  }

  /** Comparing the clone, as a template and shell by shell, is asking for the committed definition
      executed. */
  lemma {:induction false} CloneIff(ev: Evaluator, level: Level, c: Value, x: Value, e: Value, atRoot: bool)
    requires Expected(ev, level, c) == Some(x)
    ensures (Conforms(x, e, atRoot) && ShellsEqual(level, x, e)) <==> IsExecuted(ev, level, c, e, atRoot)
    decreases c, 1
  {
    if level.Outside? {
      OutsideIsKept(ev, c);
    } else if level.Run? {
      CloneShellIff(ev, c, x, e, atRoot);
    } else if c.List? {
      CloneListIff(ev, level, c, x, e, atRoot);
    } else if c.Mapping? {
      CloneMappingIff(ev, level, c, x, e, atRoot);
    }
  }

  lemma {:induction false} CloneListIff(ev: Evaluator, level: Level, c: Value, x: Value, e: Value, atRoot: bool)
    requires Expected(ev, level, c) == Some(x) && c.List? && !level.Run? && !level.Outside?
    ensures (Conforms(x, e, atRoot) && ShellsEqual(level, x, e)) <==> IsExecuted(ev, level, c, e, atRoot)
    decreases c, 0
  {
    if e.List? && |c.items| == |e.items| { CloneItemsIff(ev, level, c.items, x.items, e.items); }
  }

  lemma {:induction false} CloneMappingIff(ev: Evaluator, level: Level, c: Value, x: Value, e: Value, atRoot: bool)
    requires Expected(ev, level, c) == Some(x) && c.Mapping? && !level.Run? && !level.Outside?
    ensures (Conforms(x, e, atRoot) && ShellsEqual(level, x, e)) <==> IsExecuted(ev, level, c, e, atRoot)
    decreases c, 0
  {
    if IsObject(e) {
      CloneFieldsIff(ev, level, c.fields, x.fields, e, atRoot);
      SameExtras(c, x, e, atRoot);
    }
  }

  lemma CloneShellIff(ev: Evaluator, c: Value, x: Value, e: Value, atRoot: bool)
    requires Expected(ev, Run, c) == Some(x)
    ensures (Conforms(x, e, atRoot) && ShellsEqual(Run, x, e)) <==> IsExecuted(ev, Run, c, e, atRoot)
  {
    if StrictEqual(x, e) { ConformsToItself(x, atRoot); }
    if c.List? || IsObject(c) { assert x.List? || IsObject(x); }
  }

  lemma {:induction false} CloneItemsIff(ev: Evaluator, level: Level, c: seq<Value>, x: seq<Value>, e: seq<Value>)
    requires |c| == |x| == |e|
    requires forall i :: 0 <= i < |c| ==> Expected(ev, ItemOf(level), c[i]) == Some(x[i])
    ensures ((forall i :: 0 <= i < |c| ==> Conforms(x[i], e[i], false))
             && (forall i :: 0 <= i < |c| ==> ShellsEqual(ItemOf(level), x[i], e[i])))
       <==> forall i :: 0 <= i < |c| ==> IsExecuted(ev, ItemOf(level), c[i], e[i], false)
    decreases c, 0
  {
    forall i | 0 <= i < |c|
      ensures (Conforms(x[i], e[i], false) && ShellsEqual(ItemOf(level), x[i], e[i]))
         <==> IsExecuted(ev, ItemOf(level), c[i], e[i], false)
    {
      CloneIff(ev, ItemOf(level), c[i], x[i], e[i], false);
    }
  }

  lemma {:induction false} CloneFieldsIff(
    ev: Evaluator, level: Level, c: seq<Field>, x: seq<Field>, e: Value, atRoot: bool)
    requires |c| == |x|
    requires forall i :: 0 <= i < |c| ==>
      x[i].key == c[i].key && Expected(ev, Below(level, c[i].key), c[i].value) == Some(x[i].value)
    ensures (FieldsConform(x, e, atRoot) && FieldShellsEqual(level, x, e)) <==> FieldsExecuted(ev, level, c, e, atRoot)
    decreases c, 0
  {
    forall i | 0 <= i < |c|
      ensures HasKey(e, x[i].key) && FieldMatches(level, x[i], e, atRoot)
         <==> HasKey(e, c[i].key) && FieldExecuted(ev, level, c[i], e, atRoot)
    {
      CloneFieldIff(ev, level, c[i], x[i], e, atRoot);
    }
    FieldsMatchIff(level, x, e, atRoot);
    FieldsExecutedIff(ev, level, c, e, atRoot);
  }

  lemma {:induction false} CloneFieldIff(ev: Evaluator, level: Level, c: Field, x: Field, e: Value, atRoot: bool)
    requires x.key == c.key && Expected(ev, Below(level, c.key), c.value) == Some(x.value)
    ensures FieldMatches(level, x, e, atRoot) <==> FieldExecuted(ev, level, c, e, atRoot)
    decreases c, 0
  {
    CloneIff(ev, Below(level, c.key), c.value, x.value, Get(Own(e), c.key), atRoot && c.key == "");
  }

  lemma FieldsMatchIff(level: Level, x: seq<Field>, e: Value, atRoot: bool)
    ensures (FieldsConform(x, e, atRoot) && FieldShellsEqual(level, x, e))
       <==> forall i :: 0 <= i < |x| ==> HasKey(e, x[i].key) && FieldMatches(level, x[i], e, atRoot)
  {
  }

  lemma FieldsExecutedIff(ev: Evaluator, level: Level, c: seq<Field>, e: Value, atRoot: bool)
    ensures FieldsExecuted(ev, level, c, e, atRoot)
       <==> forall i :: 0 <= i < |c| ==> HasKey(e, c[i].key) && FieldExecuted(ev, level, c[i], e, atRoot)
  {
  }

  ghost predicate FieldMatches(level: Level, x: Field, e: Value, atRoot: bool) {
    && Conforms(x.value, Get(Own(e), x.key), atRoot && x.key == "")
    && ShellsEqual(Below(level, x.key), x.value, Get(Own(e), x.key))
  }

  ghost predicate FieldExecuted(ev: Evaluator, level: Level, c: Field, e: Value, atRoot: bool) {
    IsExecuted(ev, Below(level, c.key), c.value, Get(Own(e), c.key), atRoot && c.key == "")
  }

  lemma SameExtras(c: Value, x: Value, e: Value, atRoot: bool)
    requires c.Mapping? && x.Mapping? && |c.fields| == |x.fields|
    requires forall i :: 0 <= i < |c.fields| ==> c.fields[i].key == x.fields[i].key
    ensures ExtrasAllowed(x, e, atRoot) <==> ExtrasAllowed(c, e, atRoot)
  {
    forall key ensures HasKey(x, key) <==> HasKey(c, key) {
      SameKeys(c.fields, x.fields, key);
    }
  }

  lemma SameKeys(c: seq<Field>, x: seq<Field>, key: string)
    requires |c| == |x| && forall i :: 0 <= i < |c| ==> c[i].key == x[i].key
    ensures HasOwn(x, key) <==> HasOwn(c, key)
  {
    if HasOwn(c, key) {
      var i :| 0 <= i < |c| && c[i].key == key;
      assert x[i].key == key;
    }
    if HasOwn(x, key) {
      var i :| 0 <= i < |x| && x[i].key == key;
      assert c[i].key == key;
    }
  }

  /** A shell that cannot be evaluated was not executed. */
  lemma {:induction false} ThrowingHasNoMatch(ev: Evaluator, level: Level, c: Value, e: Value, atRoot: bool)
    requires Expected(ev, level, c).None?
    ensures !IsExecuted(ev, level, c, e, atRoot)
    decreases c
  {
    if level.Outside? {
      OutsideIsKept(ev, c);
    } else if IsExecuted(ev, level, c, e, atRoot) {
      if c.List? && !level.Run? {
        var i :| 0 <= i < |c.items| && Expected(ev, ItemOf(level), c.items[i]).None?;
        ThrowingHasNoMatch(ev, ItemOf(level), c.items[i], e.items[i], false);
      } else if c.Mapping? && !level.Run? {
        var i :| 0 <= i < |c.fields| && Expected(ev, Below(level, c.fields[i].key), c.fields[i].value).None?;
        ThrowingHasNoMatch(ev, Below(level, c.fields[i].key), c.fields[i].value,
                           Get(Own(e), c.fields[i].key), atRoot && c.fields[i].key == "");
      }
    }
  }

  /** The strict check passes exactly when the inputs are valid, every shell of the committed definition
      can be reached, and the run executed it, whatever the scanner makes of its shells. */
  lemma VerificationIff(ev: Evaluator, inputsValid: bool, committed: Value, evaluated: Value)
    ensures CheckVerification(ev, inputsValid, committed, evaluated) == Passed
       <==> inputsValid && CanBeWalked(committed) && IsExecuted(ev, Root, committed, evaluated, true)
  {
    match Expected(ev, Root, committed)
    case None => ThrowingHasNoMatch(ev, Root, committed, evaluated, true);
    case Some(expected) =>
      CheckIffConforms(expected, evaluated, "");
      CloneIff(ev, Root, committed, expected, evaluated, true);
  }

  // ----- Against the wildcard check -----

  /** The evaluated shell is an instance of the committed one, as the template check cuts it. */
  ghost predicate ShellFits(ev: Evaluator, shell: string) {
    ExpectedShell(ev, shell).Some? ==> Conforms(Str(shell), ExpectedShell(ev, shell).value, false)
  }

  ghost predicate ShellsFit(ev: Evaluator, level: Level, c: Value)
    decreases c
  {
    match c
    case Str(s) => level.Run? ==> ShellFits(ev, s)
    case List(items) => forall i :: 0 <= i < |items| ==> ShellsFit(ev, ItemOf(level), items[i])
    case Mapping(fields) =>
      forall i :: 0 <= i < |fields| ==> ShellsFit(ev, Below(level, fields[i].key), fields[i].value)
    case _ => true
  }

  lemma {:induction false} OutsideFits(ev: Evaluator, c: Value)
    ensures ShellsFit(ev, Outside, c)
    decreases c
  {
    match c
    case List(items) => forall i | 0 <= i < |items| { OutsideFits(ev, items[i]); }
    case Mapping(fields) => forall i | 0 <= i < |fields| { OutsideFits(ev, fields[i].value); }
    case _ =>
  }

  lemma {:induction false} ExecutedConformsIff(ev: Evaluator, level: Level, c: Value, e: Value, atRoot: bool)
    requires IsExecuted(ev, level, c, e, atRoot)
    ensures Conforms(c, e, atRoot) <==> ShellsFit(ev, level, c)
    decreases c
  {
    if level.Outside? {
      OutsideFits(ev, c);
    } else if level.Run? {
      if !c.Str? { ConformsToItself(c, atRoot); }
    } else if c.List? {
      forall i | 0 <= i < |c.items|
        ensures Conforms(c.items[i], e.items[i], false) <==> ShellsFit(ev, ItemOf(level), c.items[i])
      {
        ExecutedConformsIff(ev, ItemOf(level), c.items[i], e.items[i], false);
      }
    } else if c.Mapping? {
      forall i | 0 <= i < |c.fields|
        ensures Conforms(c.fields[i].value, Get(Own(e), c.fields[i].key), atRoot && c.fields[i].key == "")
           <==> ShellsFit(ev, Below(level, c.fields[i].key), c.fields[i].value)
      {
        ExecutedConformsIff(ev, Below(level, c.fields[i].key), c.fields[i].value,
                            Get(Own(e), c.fields[i].key), atRoot && c.fields[i].key == "");
      }
    }
  }

  /** A definition that passes the strict check passes the wildcard check exactly when each of its
      evaluated shells is an instance of the committed shell as the wildcard check cuts it. */
  lemma StrictRefinesWildcardIff(ev: Evaluator, committed: Value, evaluated: Value)
    requires CheckVerification(ev, true, committed, evaluated) == Passed
    ensures Check(committed, evaluated, "") == [] <==> ShellsFit(ev, Root, committed)
  {
    VerificationIff(ev, true, committed, evaluated);
    CheckIffConforms(committed, evaluated, "");
    ExecutedConformsIff(ev, Root, committed, evaluated, true);
  }

  // ----- Fitting whatever the values are -----

  function Afters(pieces: seq<Piece>): (r: seq<string>)
    ensures |r| == |pieces| && forall i :: 0 <= i < |r| ==> r[i] == pieces[i].after
  {
    seq(|pieces|, i requires 0 <= i < |pieces| => pieces[i].after)
  }

  /** The text the scanner keeps: before, between and behind its expressions. */
  function Kept(scan: Scan): (r: seq<string>)
    ensures r != []
  {
    [scan.before] + Afters(scan.pieces)
  }

  /** The literals stand in the parts in order, each within one part: the first at the start of the
      first part, the last at the end of the last. */
  predicate StandIn(literals: seq<string>, parts: seq<string>)
    requires literals != [] && parts != []
    decreases literals
  {
    && literals[0] <= parts[0]
    && if |literals| == 1 then parts == literals
       else exists i: nat, k: nat :: i < |parts| && k <= |parts[i]| && (i == 0 ==> |literals[0]| <= k)
              && StandIn(literals[1..], PartsFrom(parts, i, k))
  }

  function PartsFrom(parts: seq<string>, i: nat, k: nat): (r: seq<string>)
    requires i < |parts| && k <= |parts[i]|
    ensures |r| == |parts| - i
  {
    [parts[i][k..]] + parts[i + 1..]
  }

  /** The two cuts alone say that the evaluated shell is an instance of the committed one. */
  predicate CutsFit(scan: Scan, shell: string) {
    || scan.pieces == []
    || (IsTemplate(shell)
        && ((forall i :: 0 <= i < |Literals(shell)| ==> AllBlank(Literals(shell)[i]))
            || (!IsSingle(scan) && StandIn(Literals(shell), Kept(scan)))))
  }

  function TextsOf(ev: Evaluator, pieces: seq<Piece>): (r: seq<string>)
    requires Replaced(ev, pieces).Some?
    ensures |r| == |pieces|
  {
    if pieces == [] then [] else [TextOf(ev, ValueOf(ev, pieces[0].raw).value)] + TextsOf(ev, pieces[1..])
  }

  lemma {:induction false} ReplacedIsInterleaved(ev: Evaluator, before: string, pieces: seq<Piece>)
    requires Replaced(ev, pieces).Some?
    ensures Interleave([before] + Afters(pieces), TextsOf(ev, pieces)) == before + Replaced(ev, pieces).value
    decreases |pieces|
  {
    if pieces == [] {
      assert ([before] + Afters(pieces))[0] == before;
    } else {
      var text := TextOf(ev, ValueOf(ev, pieces[0].raw).value);
      ReplacedIsInterleaved(ev, pieces[0].after, pieces[1..]);
      assert Afters(pieces) == [pieces[0].after] + Afters(pieces[1..]);
      InterleaveCons(before, Afters(pieces), text, TextsOf(ev, pieces[1..]));
      assert before + text + (pieces[0].after + Replaced(ev, pieces[1..]).value)
          == before + (text + pieces[0].after + Replaced(ev, pieces[1..]).value);
    }
  }

  // ----- What an evaluated shell is -----

  /** The expression is the run's own id, which is not known before the run and stays as written; or it
      evaluates to the value. */
  predicate StandsFor(ev: Evaluator, raw: string, v: Value) {
    if ev.expression(raw) == "run.id" then v == Str(raw) else ev.evaluate(ev.expression(raw)) == Some(v)
  }

  /** The text that takes the expression's place: nothing for null, and a text as it is. */
  ghost predicate IsTextOf(ev: Evaluator, raw: string, text: string) {
    exists v :: StandsFor(ev, raw, v) && (if v.Null? then text == "" else if v.Str? then text == v.s else text == ev.show(v))
  }

  predicate Throws(ev: Evaluator, raw: string) {
    ev.expression(raw) != "run.id" && ev.evaluate(ev.expression(raw)).None?
  }

  ghost predicate AreTextsOf(ev: Evaluator, pieces: seq<Piece>, texts: seq<string>) {
    |texts| == |pieces| && forall i :: 0 <= i < |pieces| ==> IsTextOf(ev, pieces[i].raw, texts[i])
  }

  lemma {:induction false} TextsAre(ev: Evaluator, pieces: seq<Piece>)
    requires Replaced(ev, pieces).Some?
    ensures forall texts :: AreTextsOf(ev, pieces, texts) <==> texts == TextsOf(ev, pieces)
    decreases |pieces|
  {
    if pieces != [] {
      TextsAre(ev, pieces[1..]);
      var v, rest := ValueOf(ev, pieces[0].raw).value, TextsOf(ev, pieces[1..]);
      assert StandsFor(ev, pieces[0].raw, v);
      forall texts ensures AreTextsOf(ev, pieces, texts) <==> texts == TextsOf(ev, pieces) {
        if AreTextsOf(ev, pieces, texts) {
          assert AreTextsOf(ev, pieces[1..], texts[1..]);
          assert texts == [texts[0]] + texts[1..];
        }
        if texts == TextsOf(ev, pieces) {
          assert texts[1..] == rest && AreTextsOf(ev, pieces[1..], rest);
          assert forall i :: 1 <= i < |pieces| ==> pieces[i] == pieces[1..][i - 1] && texts[i] == rest[i - 1];
        }
      }
    }
  }

  lemma {:induction false} ReplacedIff(ev: Evaluator, pieces: seq<Piece>)
    ensures Replaced(ev, pieces).None? <==> exists i :: 0 <= i < |pieces| && Throws(ev, pieces[i].raw)
    decreases |pieces|
  {
    if pieces != [] {
      ReplacedIff(ev, pieces[1..]);
      if Throws(ev, pieces[0].raw) { assert pieces[0] == pieces[0]; }
      if i :| 0 <= i < |pieces[1..]| && Throws(ev, pieces[1..][i].raw) {
        assert pieces[i + 1] == pieces[1..][i];
      }
      assert forall i :: 1 <= i < |pieces| ==> pieces[i] == pieces[1..][i - 1];
    }
  }

  /** An evaluated shell is the text the scanner keeps with the text of each expression in its place; a
      shell that is one expression is the expression's value; and there is none exactly when an
      expression other than the run's id throws. */
  lemma ExpectedIff(ev: Evaluator, shell: string, v: Value)
    ensures ExpectedShell(ev, shell).None? <==>
      exists i :: 0 <= i < |ev.scan(shell).pieces| && Throws(ev, ev.scan(shell).pieces[i].raw)
    ensures IsSingle(ev.scan(shell)) ==>
      (ExpectedShell(ev, shell) == Some(v) <==> StandsFor(ev, ev.scan(shell).pieces[0].raw, v))
    ensures ev.scan(shell).pieces == [] ==> ExpectedShell(ev, shell) == Some(Str(shell))
    ensures ev.scan(shell).pieces != [] && !IsSingle(ev.scan(shell)) ==>
      (ExpectedShell(ev, shell) == Some(v) <==>
         exists texts :: AreTextsOf(ev, ev.scan(shell).pieces, texts) && v == Str(Interleave(Kept(ev.scan(shell)), texts)))
  {
    var scan := ev.scan(shell);
    ReplacedIff(ev, scan.pieces);
    if IsSingle(scan) {
      assert Throws(ev, scan.pieces[0].raw) <==> ValueOf(ev, scan.pieces[0].raw).None?;
    } else if scan.pieces != [] {
      if Replaced(ev, scan.pieces).Some? {
        ExpectedText(ev, shell);
        TextsAre(ev, scan.pieces);
      } else {
        ThrowingHasNoTexts(ev, scan.pieces);
      }
    }
  }

  lemma ThrowingHasNoTexts(ev: Evaluator, pieces: seq<Piece>)
    requires Replaced(ev, pieces).None?
    ensures forall texts :: !AreTextsOf(ev, pieces, texts)
  {
    ReplacedIff(ev, pieces);
    var i :| 0 <= i < |pieces| && Throws(ev, pieces[i].raw);
    assert forall text :: !IsTextOf(ev, pieces[i].raw, text);
  }

  function RawsOf(pieces: seq<Piece>): (r: seq<string>)
    ensures |r| == |pieces| && forall i :: 0 <= i < |r| ==> r[i] == pieces[i].raw
  {
    seq(|pieces|, i requires 0 <= i < |pieces| => pieces[i].raw)
  }

  /** The deferred id of the run is kept as the committed text has it, whatever the evaluator: a shell
      whose expressions are all `run.id` is expected unchanged.  (Blanks behind a single expression
      are dropped with the rest of the text around it.) */
  lemma RunIdIsKept(ev: Evaluator, shell: string)
    requires var scan := ev.scan(shell);
      && Interleave(Kept(scan), RawsOf(scan.pieces)) == shell
      && (forall i :: 0 <= i < |scan.pieces| ==> ev.expression(scan.pieces[i].raw) == "run.id")
      && (IsSingle(scan) ==> scan.pieces[0].after == "")
    ensures ExpectedShell(ev, shell) == Some(Str(shell))
  {
    var scan := ev.scan(shell);
    ExpectedIff(ev, shell, Str(shell));
    if IsSingle(scan) {
      var raw := scan.pieces[0].raw;
      assert Kept(scan) == ["", ""] && RawsOf(scan.pieces) == [raw];
      assert ["", ""][1..] == [""] && [raw][1..] == [];
      assert Interleave(["", ""], [raw]) == "" + raw + "" == raw;
    } else if scan.pieces != [] {
      forall i | 0 <= i < |scan.pieces| ensures IsTextOf(ev, scan.pieces[i].raw, RawsOf(scan.pieces)[i]) {
        assert StandsFor(ev, scan.pieces[i].raw, Str(scan.pieces[i].raw));
      }
      assert AreTextsOf(ev, scan.pieces, RawsOf(scan.pieces));
    }
  }

  // ----- Where the literals stand -----

  /** The rest of an interleaved text from within a part on. */
  lemma {:induction false} RestOfInterleaved(parts: seq<string>, texts: seq<string>, i: nat, k: nat) returns (at: nat)
    requires |parts| == |texts| + 1 && i < |parts| && k <= |parts[i]|
    ensures at <= |Interleave(parts, texts)| && (i == 0 ==> at == k) && (i > 0 ==> at >= |parts[0]|)
    ensures Interleave(parts, texts)[at..] == Interleave(PartsFrom(parts, i, k), texts[i..])
    decreases i
  {
    var text := Interleave(parts, texts);
    if i == 0 {
      at := k;
      var rest := PartsFrom(parts, 0, k);
      assert texts[0..] == texts;
      if texts != [] {
        assert rest[1..] == parts[1..];
        assert text[k..] == parts[0][k..] + texts[0] + Interleave(parts[1..], texts[1..]);
      }
    } else {
      var behind := RestOfInterleaved(parts[1..], texts[1..], i - 1, k);
      at := |parts[0]| + |texts[0]| + behind;
      assert PartsFrom(parts[1..], i - 1, k) == PartsFrom(parts, i, k);
      assert texts[1..][i - 1..] == texts[i..];
      assert text[at..] == Interleave(parts[1..], texts[1..])[behind..];
    }
  }

  lemma StartsInterleaved(parts: seq<string>, texts: seq<string>)
    requires |parts| == |texts| + 1
    ensures parts[0] <= Interleave(parts, texts)
  {
  }

  lemma {:induction false} StandingMatches(literals: seq<string>, parts: seq<string>, texts: seq<string>)
    requires literals != [] && |parts| == |texts| + 1 && StandIn(literals, parts)
    ensures Matches(literals, Interleave(parts, texts))
    decreases literals
  {
    var text := Interleave(parts, texts);
    StartsInterleaved(parts, texts);
    if |literals| > 1 {
      var i: nat, k: nat :| i < |parts| && k <= |parts[i]| && (i == 0 ==> |literals[0]| <= k)
                            && StandIn(literals[1..], PartsFrom(parts, i, k));
      var at := RestOfInterleaved(parts, texts, i, k);
      StandingMatches(literals[1..], PartsFrom(parts, i, k), texts[i..]);
      assert |literals[0]| <= at;
    }
  }

  /** The value of every expression: one character. */
  function Marked(n: nat, x: char): (r: seq<string>)
    ensures |r| == n && forall i :: 0 <= i < n ==> r[i] == [x]
  {
    seq(n, _ => [x])
  }

  lemma MarkedRest(n: nat, x: char, i: nat)
    requires i <= n
    ensures Marked(n, x)[i..] == Marked(n - i, x)
  {
  }

  /** Every place of a text whose expressions have become one character lies in a part. */
  lemma {:induction false} PlaceInPart(parts: seq<string>, x: char, at: nat) returns (i: nat, k: nat)
    requires parts != [] && at <= |Interleave(parts, Marked(|parts| - 1, x))|
    ensures i < |parts| && k <= |parts[i]| && (i == 0 ==> k == at)
    ensures Interleave(parts, Marked(|parts| - 1, x))[at..]
         == Interleave(PartsFrom(parts, i, k), Marked(|parts| - 1 - i, x))
    decreases |parts|
  {
    var texts := Marked(|parts| - 1, x);
    if at <= |parts[0]| {
      i, k := 0, at;
      var from := RestOfInterleaved(parts, texts, 0, at);
      MarkedRest(|parts| - 1, x, 0);
    } else {
      MarkedRest(|parts| - 1, x, 1);
      var behind := at - |parts[0]| - 1;
      i, k := PlaceInPart(parts[1..], x, behind);
      assert Interleave(parts, texts)[at..] == Interleave(parts[1..], texts[1..])[behind..];
      assert PartsFrom(parts[1..], i, k) == PartsFrom(parts, i + 1, k);
      i := i + 1;
    }
  }

  /** A text without the character, at the start of such a text, lies in the first part. */
  lemma StartsInPart(parts: seq<string>, x: char, literal: string)
    requires parts != [] && x !in literal
    ensures literal <= Interleave(parts, Marked(|parts| - 1, x)) ==> literal <= parts[0]
    ensures literal == Interleave(parts, Marked(|parts| - 1, x)) ==> parts == [literal]
  {
    var text := Interleave(parts, Marked(|parts| - 1, x));
    if |parts| > 1 {
      assert text[|parts[0]|] == x;
    }
  }

  lemma {:induction false} MatchesStand(literals: seq<string>, parts: seq<string>, x: char)
    requires literals != [] && parts != [] && forall i :: 0 <= i < |literals| ==> x !in literals[i]
    requires Matches(literals, Interleave(parts, Marked(|parts| - 1, x)))
    ensures StandIn(literals, parts)
    decreases literals
  {
    var text := Interleave(parts, Marked(|parts| - 1, x));
    StartsInPart(parts, x, literals[0]);
    if |literals| == 1 {
      assert literals == [literals[0]];
    } else {
      var at :| |literals[0]| <= at <= |text| && Matches(literals[1..], text[at..]);
      var i, k := PlaceInPart(parts, x, at);
      MatchesStand(literals[1..], PartsFrom(parts, i, k), x);
    }
  }

  lemma {:induction false} LiteralsAreInShell(s: string, x: char)
    requires x !in s
    ensures forall i :: 0 <= i < |Literals(s)| ==> x !in Literals(s)[i]
    decreases |s|
  {
    var found := FirstExpression(s);
    if found.Some? {
      LiteralsAreInShell(s[found.value.1..], x);
    }
  }

  lemma ExpectedText(ev: Evaluator, shell: string)
    requires var scan := ev.scan(shell); scan.pieces != [] && !IsSingle(scan) && Replaced(ev, scan.pieces).Some?
    ensures var scan := ev.scan(shell);
      ExpectedShell(ev, shell) == Some(Str(Interleave(Kept(scan), TextsOf(ev, scan.pieces))))
  {
    ReplacedIsInterleaved(ev, ev.scan(shell).before, ev.scan(shell).pieces);
  }

  lemma FitsIff(ev: Evaluator, shell: string, text: string)
    requires ExpectedShell(ev, shell) == Some(Str(text))
    ensures ShellFits(ev, shell) <==> if IsTemplate(shell) then InstanceOf(Literals(shell), Str(text)) else text == shell
  {
  }

  lemma CutsSuffice(ev: Evaluator, shell: string)
    requires CutsFit(ev.scan(shell), shell)
    ensures ShellFits(ev, shell)
  {
    var scan := ev.scan(shell);
    if scan.pieces == [] {
      ConformsToItself(Str(shell), false);
    } else if !IsSingle(scan) && Replaced(ev, scan.pieces).Some? {
      var text := Interleave(Kept(scan), TextsOf(ev, scan.pieces));
      ExpectedText(ev, shell);
      FitsIff(ev, shell, text);
      if StandIn(Literals(shell), Kept(scan)) {
        StandingMatches(Literals(shell), Kept(scan), TextsOf(ev, scan.pieces));
        MatchesIffInstance(Literals(shell), text);
      }
    }
  }

  /** Every expression has the value. */
  function Constant(scan: Scan, v: Value): Evaluator {
    Evaluator(s => scan, raw => "", cel => Some(v), w => "")
  }

  lemma {:induction false} ConstantIsMarked(scan: Scan, x: char, pieces: seq<Piece>)
    ensures Replaced(Constant(scan, Str([x])), pieces).Some?
    ensures TextsOf(Constant(scan, Str([x])), pieces) == Marked(|pieces|, x)
  {
    assert |"run.id"| == 6;
    if pieces != [] {
      ConstantIsMarked(scan, x, pieces[1..]);
      assert Marked(|pieces|, x) == [[x]] + Marked(|pieces| - 1, x);
    }
  }

  lemma SingleIsNeeded(scan: Scan, shell: string)
    requires IsSingle(scan) && !CutsFit(scan, shell)
    ensures !ShellFits(Constant(scan, Null), shell)
  {
    assert |"run.id"| == 6;
    assert ExpectedShell(Constant(scan, Null), shell) == Some(Null);
  }

  lemma CutsAreNeeded(scan: Scan, shell: string, x: char)
    requires x !in shell && !IsSingle(scan) && !CutsFit(scan, shell)
    ensures !ShellFits(Constant(scan, Str([x])), shell)
  {
    var ev, text := Constant(scan, Str([x])), Interleave(Kept(scan), Marked(|scan.pieces|, x));
    ConstantIsMarked(scan, x, scan.pieces);
    ExpectedText(ev, shell);
    FitsIff(ev, shell, text);
    StartsInPart(Kept(scan), x, shell);
    LiteralsAreInShell(shell, x);
    if Matches(Literals(shell), text) { MatchesStand(Literals(shell), Kept(scan), x); }
    MatchesIffInstance(Literals(shell), text);
  }

  /** For a shell that lacks some character: it fits under every evaluator that scans it so exactly when
      the two cuts fit. */
  lemma CutsFitIff(scan: Scan, shell: string, x: char)
    requires x !in shell
    ensures CutsFit(scan, shell) <==> forall ev: Evaluator :: ev.scan(shell) == scan ==> ShellFits(ev, shell)
  {
    if CutsFit(scan, shell) {
      forall ev: Evaluator | ev.scan(shell) == scan ensures ShellFits(ev, shell) {
        CutsSuffice(ev, shell);
      }
    } else {
      if IsSingle(scan) { SingleIsNeeded(scan, shell); } else { CutsAreNeeded(scan, shell, x); }
      assert Constant(scan, Null).scan(shell) == scan && Constant(scan, Str([x])).scan(shell) == scan;
    }
  }

  /** The scanner cuts the shell where the template check does. */
  predicate SameTokens(scan: Scan, s: string) {
    Literals(s) == Kept(scan)
  }

  lemma {:induction false} StandInThemselves(literals: seq<string>)
    requires literals != []
    ensures StandIn(literals, literals)
    decreases literals
  {
    if |literals| > 1 {
      StandInThemselves(literals[1..]);
      assert PartsFrom(literals, 1, 0) == literals[1..];
    }
  }

  /** Where the two cut alike, the cuts fit. */
  lemma SameTokensFit(scan: Scan, shell: string)
    requires SameTokens(scan, shell)
    ensures CutsFit(scan, shell)
  {
    StandInThemselves(Literals(shell));
    if IsSingle(scan) { TrimIsEmpty(scan.pieces[0].after); }
  }

  predicate ShellCutsFit(ev: Evaluator, level: Level, c: Value)
    decreases c
  {
    match c
    case Str(s) => level.Run? ==> CutsFit(ev.scan(s), s)
    case List(items) => forall i :: 0 <= i < |items| ==> ShellCutsFit(ev, ItemOf(level), items[i])
    case Mapping(fields) =>
      forall i :: 0 <= i < |fields| ==> ShellCutsFit(ev, Below(level, fields[i].key), fields[i].value)
    case _ => true
  }

  lemma {:induction false} CutsFitShells(ev: Evaluator, level: Level, c: Value)
    requires ShellCutsFit(ev, level, c)
    ensures ShellsFit(ev, level, c)
    decreases c
  {
    match c
    case Str(s) => if level.Run? { CutsSuffice(ev, s); }
    case List(items) => forall i | 0 <= i < |items| { CutsFitShells(ev, ItemOf(level), items[i]); }
    case Mapping(fields) =>
      forall i | 0 <= i < |fields| { CutsFitShells(ev, Below(level, fields[i].key), fields[i].value); }
    case _ =>
  }

  /** Where the cuts of every shell fit, the strict check refines the wildcard check, whatever the
      expressions evaluate to. */
  lemma StrictRefinesWildcard(ev: Evaluator, committed: Value, evaluated: Value)
    requires ShellCutsFit(ev, Root, committed) && CheckVerification(ev, true, committed, evaluated) == Passed
    ensures Check(committed, evaluated, "") == []
  {
    CutsFitShells(ev, Root, committed);
    StrictRefinesWildcardIff(ev, committed, evaluated);
  }

  // ----- A quoted closer -----

  /** One shell in a workflow. */
  function Workflow(shell: Value): Value {
    Nest("jobs", List([Nest("steps", List([StepOf(shell)]))]))
  }

  function StepOf(shell: Value): Value {
    Nest("task", Nest("inputs", Nest("run", shell)))
  }

  function Nest(key: string, v: Value): Value {
    Mapping([Field(key, v)])
  }

  const QUOTED_CLOSER := "${{'}}'}}a"

  /** Reads the quoted closer as part of the expression, whose value it is. */
  function QuoteAware(): Evaluator {
    Evaluator(s => if s == QUOTED_CLOSER then Scan("", [Piece("${{'}}'}}", "a")]) else Scan(s, []),
              raw => "'}}'", cel => Some(Str("}}")), v => "")
  }

  lemma NestHas(key: string, c: Value, e: Value, atRoot: bool)
    ensures HasOwn([Field(key, e)], key) && Get([Field(key, e)], key) == e
    ensures ExtrasAllowed(Nest(key, c), Nest(key, e), atRoot)
  {
    assert [Field(key, e)][0].key == key && [Field(key, c)][0].key == key;
    assert HasOwn([Field(key, c)], key);
  }

  lemma NestFields(ev: Evaluator, level: Level, key: string, c: Value, e: Value, atRoot: bool)
    requires key != ""
    ensures FieldsExecuted(ev, level, [Field(key, c)], Nest(key, e), atRoot) <==> IsExecuted(ev, Below(level, key), c, e, false)
  {
    NestHas(key, c, e, atRoot);
    assert [Field(key, c)][0] == Field(key, c);
  }

  lemma NestExecuted(ev: Evaluator, level: Level, key: string, c: Value, e: Value, atRoot: bool)
    requires !level.Run? && !level.Outside? && key != ""
    ensures IsExecuted(ev, level, Nest(key, c), Nest(key, e), atRoot) <==> IsExecuted(ev, Below(level, key), c, e, false)
  {
    NestHas(key, c, e, atRoot);
    NestFields(ev, level, key, c, e, atRoot);
  }

  lemma OneExecuted(ev: Evaluator, level: Level, c: Value, e: Value)
    requires !level.Run? && !level.Outside?
    ensures IsExecuted(ev, level, List([c]), List([e]), false) <==> IsExecuted(ev, ItemOf(level), c, e, false)
  {
    assert [c][0] == c && [e][0] == e;
  }

  lemma StepExecuted(ev: Evaluator, c: Value, e: Value)
    ensures IsExecuted(ev, Step, StepOf(c), StepOf(e), false) <==> IsExecuted(ev, Run, c, e, false)
  {
    NestExecuted(ev, Step, "task", Nest("inputs", Nest("run", c)), Nest("inputs", Nest("run", e)), false);
    NestExecuted(ev, Task, "inputs", Nest("run", c), Nest("run", e), false);
    NestExecuted(ev, Inputs, "run", c, e, false);
  }

  lemma JobExecuted(ev: Evaluator, c: Value, e: Value)
    ensures IsExecuted(ev, Job, Nest("steps", List([c])), Nest("steps", List([e])), false) <==> IsExecuted(ev, Step, c, e, false)
  {
    NestExecuted(ev, Job, "steps", List([c]), List([e]), false);
    OneExecuted(ev, Steps, c, e);
  }

  lemma WorkflowExecuted(ev: Evaluator, c: Value, e: Value)
    ensures IsExecuted(ev, Root, Workflow(c), Workflow(e), true) <==> IsExecuted(ev, Run, c, e, false)
  {
    StepExecuted(ev, c, e);
    JobExecuted(ev, StepOf(c), StepOf(e));
    JobsExecuted(ev, Nest("steps", List([StepOf(c)])), Nest("steps", List([StepOf(e)])));
  }

  lemma JobsExecuted(ev: Evaluator, c: Value, e: Value)
    ensures IsExecuted(ev, Root, Nest("jobs", List([c])), Nest("jobs", List([e])), true) <==> IsExecuted(ev, Job, c, e, false)
  {
    NestExecuted(ev, Root, "jobs", List([c]), List([e]), true);
    OneExecuted(ev, Jobs, c, e);
  }

  lemma WorkflowFits(ev: Evaluator, shell: string)
    requires ShellsFit(ev, Root, Workflow(Str(shell)))
    ensures ShellFits(ev, shell)
  {
    var inputs := Nest("run", Str(shell));
    var task := Nest("inputs", inputs);
    var step := StepOf(Str(shell));
    var job := Nest("steps", List([step]));
    assert ShellsFit(ev, Jobs, List([job])) by { assert Workflow(Str(shell)).fields[0].value == List([job]); }
    assert ShellsFit(ev, Job, job) by { assert List([job]).items[0] == job; }
    assert ShellsFit(ev, Steps, List([step])) by { assert job.fields[0].value == List([step]); }
    assert ShellsFit(ev, Step, step) by { assert List([step]).items[0] == step; }
    assert ShellsFit(ev, Task, task) by { assert step.fields[0].value == task; }
    assert ShellsFit(ev, Inputs, inputs) by { assert task.fields[0].value == inputs; }
    assert ShellsFit(ev, Run, Str(shell)) by { assert inputs.fields[0].value == Str(shell); }
  }

  lemma {:induction false} NoOpener(s: string, from: nat)
    requires '$' !in s
    ensures Find(s, OPENER, from) == None
    decreases |s| - from
  {
    if from + |OPENER| <= |s| {
      assert s[from..from + |OPENER|][0] == s[from] != OPENER[0];
      NoOpener(s, from + 1);
    }
  }

  lemma CloserFound()
    ensures FirstExpression(QUOTED_CLOSER) == Some((0, 6))
  {
    var s := QUOTED_CLOSER;
    assert s[0..3] == OPENER && s[4..6] == CLOSER;
    assert s[3..5][0] == '\'' != CLOSER[0];
    assert Find(s, CLOSER, 4) == Some(4);
  }

  lemma CloserLiterals()
    ensures Literals(QUOTED_CLOSER) == ["", "'}}a"]
  {
    CloserFound();
    assert QUOTED_CLOSER[6..] == "'}}a" && QUOTED_CLOSER[..0] == "";
    NoOpener("'}}a", 0);
  }

  lemma WorkflowWalks(shell: Value)
    ensures CanBeWalked(Workflow(shell))
  {
    var steps := List([StepOf(shell)]);
    NestEntries("steps", [StepOf(shell)]);
    NestEntries("jobs", [Nest("steps", steps)]);
  }

  lemma NestEntries(key: string, items: seq<Value>)
    ensures Entries(Nest(key, List(items)), key) == Some(items)
  {
    NestHas(key, Null, List(items), false);
  }

  lemma WorkflowPasses(ev: Evaluator, shell: string, value: Value)
    requires ExpectedShell(ev, shell) == Some(value) && StrictEqual(value, value)
    ensures CheckVerification(ev, true, Workflow(Str(shell)), Workflow(value)) == Passed
  {
    WorkflowWalks(Str(shell));
    WorkflowExecuted(ev, Str(shell), value);
    VerificationIff(ev, true, Workflow(Str(shell)), Workflow(value));
  }

  /** A run of this workflow passes the strict check and fails the wildcard check: the wildcard ends the
      expression at the quoted closer. */
  lemma QuotedCloserExample()
    ensures var c, e := Workflow(Str(QUOTED_CLOSER)), Workflow(Str("}}a"));
      CheckVerification(QuoteAware(), true, c, e) == Passed && Check(c, e, "") != []
  {
    CloserExpected();
    WorkflowPasses(QuoteAware(), QUOTED_CLOSER, Str("}}a"));
    StrictRefinesWildcardIff(QuoteAware(), Workflow(Str(QUOTED_CLOSER)), Workflow(Str("}}a")));
    CloserDoesNotFit();
    if ShellsFit(QuoteAware(), Root, Workflow(Str(QUOTED_CLOSER))) { WorkflowFits(QuoteAware(), QUOTED_CLOSER); }
  }

  lemma CloserExpected()
    ensures ExpectedShell(QuoteAware(), QUOTED_CLOSER) == Some(Str("}}a"))
  {
    var ev := QuoteAware();
    var pieces := [Piece("${{'}}'}}", "a")];
    assert pieces[1..] == [] && Replaced(ev, []) == Some("");
    assert |"run.id"| == 6 && |"'}}'"| == 4;
    assert ValueOf(ev, "${{'}}'}}") == Some(Str("}}"));
    assert Trim("a") == "a" by { assert !IsBlank('a'); }
    assert Replaced(ev, pieces) == Some("}}" + "a" + "");
    assert "" + ("}}" + "a" + "") == "}}a";
  }

  lemma TwoLiteralsFit(a: string, b: string, text: string)
    requires IsInstance([a, b], text)
    ensures |text| >= |a| + |b|
  {
    var texts: seq<string> :| |texts| + 1 == 2 && Interleave([a, b], texts) == text;
    assert [a, b][1..] == [b] && texts[1..] == [] && Interleave([b], []) == b;
    assert Interleave([a, b], texts) == a + texts[0] + Interleave([b], []);
  }

  lemma ShellMisses(ev: Evaluator, shell: string, text: string, a: string, b: string)
    requires ExpectedShell(ev, shell) == Some(Str(text)) && Literals(shell) == [a, b]
    requires !AllBlank(b) && |text| < |a| + |b|
    ensures !ShellFits(ev, shell)
  {
    assert Literals(shell)[1] == b;
    FitsIff(ev, shell, text);
    if IsInstance([a, b], text) { TwoLiteralsFit(a, b, text); }
  }

  lemma CloserDoesNotFit()
    ensures !ShellFits(QuoteAware(), QUOTED_CLOSER)
  {
    CloserExpected();
    CloserLiterals();
    assert !AllBlank("'}}a") by { assert !IsBlank("'}}a"[0]); }
    ShellMisses(QuoteAware(), QUOTED_CLOSER, "}}a", "", "'}}a");
  }
}
