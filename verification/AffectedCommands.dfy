/**
 `scripts/affected_commands.ts`: which commands of the CLI a change can affect.  A worklist
 finds the files each command's file imports, directly or not; a changed file selects the
 commands that reach it, or all of them when nothing in the import graph explains it.
 */
module AffectedCommands {
  import opened Text
  import opened Sorting

  /** A file's imports, in the order of the set that holds them. */
  type ImportGraph = map<string, seq<string>>

  predicate Imports(graph: ImportGraph, from: string, to: string) {
    from in graph && to in graph[from]
  }

  // ----- The closure -----

  /** A walk along imports whose files behind the first all fail `stopAt`. */
  ghost predicate Walk(graph: ImportGraph, stopAt: string -> bool, w: seq<string>) {
    && w != []
    && (forall i :: 0 <= i < |w| - 1 ==> Imports(graph, w[i], w[i + 1]))
    && (forall i :: 1 <= i < |w| ==> !stopAt(w[i]))
  }

  ghost predicate Leads(graph: ImportGraph, stopAt: string -> bool, root: string, file: string, w: seq<string>) {
    Walk(graph, stopAt, w) && w[0] == root && w[|w| - 1] == file
  }

  ghost predicate Reaches(graph: ImportGraph, stopAt: string -> bool, root: string, file: string) {
    exists w :: Leads(graph, stopAt, root, file, w)
  }

  lemma ReachesItself(graph: ImportGraph, stopAt: string -> bool, root: string)
    ensures Reaches(graph, stopAt, root, root)
  {
    assert Leads(graph, stopAt, root, root, [root]);
  }

  lemma ReachesOn(graph: ImportGraph, stopAt: string -> bool, root: string, file: string, next: string)
    requires Reaches(graph, stopAt, root, file) && Imports(graph, file, next) && !stopAt(next)
    ensures Reaches(graph, stopAt, root, next)
  {
    var w :| Leads(graph, stopAt, root, file, w);
    assert Leads(graph, stopAt, root, next, w + [next]);
  }

  /** Every import of a seen file is seen or stopped at, but for the files still pending. */
  ghost predicate ClosedBut(graph: ImportGraph, stopAt: string -> bool, seen: set<string>, pending: set<string>) {
    forall from, to :: from in seen && from !in pending && Imports(graph, from, to) ==> to in seen || stopAt(to)
  }

  lemma {:induction false} ClosedHoldsWalks(graph: ImportGraph, stopAt: string -> bool, seen: set<string>, w: seq<string>)
    requires ClosedBut(graph, stopAt, seen, {}) && Walk(graph, stopAt, w) && w[0] in seen
    ensures w[|w| - 1] in seen
  {
    if |w| > 1 {
      var v := w[..|w| - 1];
      assert Walk(graph, stopAt, v);
      ClosedHoldsWalks(graph, stopAt, seen, v);
      assert Imports(graph, v[|v| - 1], w[|w| - 1]);
    }
  }

  ghost function Universe(graph: ImportGraph, root: string): set<string> {
    {root} + set from, to | from in graph && to in graph[from] :: to
  }

  ghost predicate AllReached(graph: ImportGraph, stopAt: string -> bool, root: string, seen: set<string>) {
    forall file :: file in seen ==> Reaches(graph, stopAt, root, file)
  }

  function Elements(s: seq<string>): set<string> {
    set x | x in s
  }

  /** What the worklist knows: `pending` is part of what was seen and not yet followed. */
  ghost predicate Following(
    graph: ImportGraph, stopAt: string -> bool, root: string, seen: set<string>, pending: set<string>)
  {
    && root in seen && pending <= seen <= Universe(graph, root)
    && AllReached(graph, stopAt, root, seen)
    && ClosedBut(graph, stopAt, seen, pending)
  }

  /** Exactly the root and the files reachable over files that fail `stopAt`. */
  method Closure(graph: ImportGraph, root: string, stopAt: string -> bool) returns (seen: set<string>)
    ensures forall file :: file in seen <==> Reaches(graph, stopAt, root, file)
  {
    seen := {root};
    var pending := [root];
    ReachesItself(graph, stopAt, root);
    while pending != []
      invariant Following(graph, stopAt, root, seen, Elements(pending))
      decreases Universe(graph, root) - seen, |pending|
    {
      var current := pending[|pending| - 1];
      ghost var before := pending;
      pending := pending[..|pending| - 1];
      assert Elements(before) == Elements(pending) + {current} by { Popped(before); }
      seen, pending := FollowImports(graph, stopAt, root, seen, pending, current);
    }
    AllFollowed(graph, stopAt, root, seen);
  }

  lemma Popped(pending: seq<string>)
    requires pending != []
    ensures Elements(pending) == Elements(pending[..|pending| - 1]) + {pending[|pending| - 1]}
  {
    assert pending == pending[..|pending| - 1] + [pending[|pending| - 1]];
  }

  lemma AllFollowed(graph: ImportGraph, stopAt: string -> bool, root: string, seen: set<string>)
    requires Following(graph, stopAt, root, seen, {})
    ensures forall file :: file in seen <==> Reaches(graph, stopAt, root, file)
  {
    forall file | Reaches(graph, stopAt, root, file) ensures file in seen {
      var w :| Leads(graph, stopAt, root, file, w);
      ClosedHoldsWalks(graph, stopAt, seen, w);
    }
  }

  function ImportsOf(graph: ImportGraph, file: string): seq<string> {
    if file in graph then graph[file] else []
  }

  /** The first `i` imports of `current` are seen or stopped at. */
  ghost predicate Midway(
    graph: ImportGraph, stopAt: string -> bool, root: string, seen: set<string>, pending: seq<string>,
    current: string, i: nat)
  {
    && current in seen && i <= |ImportsOf(graph, current)|
    && (forall j :: 0 <= j < i ==> ImportsOf(graph, current)[j] in seen || stopAt(ImportsOf(graph, current)[j]))
    && Following(graph, stopAt, root, seen, Elements(pending) + {current})
  }

  method FollowImports(
    graph: ImportGraph, stopAt: string -> bool, ghost root: string,
    seen0: set<string>, pending0: seq<string>, current: string)
    returns (seen: set<string>, pending: seq<string>)
    requires Midway(graph, stopAt, root, seen0, pending0, current, 0)
    ensures Following(graph, stopAt, root, seen, Elements(pending)) && seen0 <= seen
    ensures seen == seen0 ==> pending == pending0
  {
    seen, pending := seen0, pending0;
    var imports := ImportsOf(graph, current);
    for i := 0 to |imports|
      invariant Midway(graph, stopAt, root, seen, pending, current, i)
      invariant seen0 <= seen && (seen == seen0 ==> pending == pending0)
    {
      ImportKeeps(graph, stopAt, root, seen, pending, current, i);
      if !(imports[i] in seen || stopAt(imports[i])) {
        seen := seen + {imports[i]};
        pending := pending + [imports[i]];
      }
    }
    CurrentIsFollowed(graph, stopAt, root, seen, pending, current);
  }

  lemma ImportKeeps(
    graph: ImportGraph, stopAt: string -> bool, root: string, seen: set<string>, pending: seq<string>,
    current: string, i: nat)
    requires i < |ImportsOf(graph, current)| && Midway(graph, stopAt, root, seen, pending, current, i)
    ensures var next := ImportsOf(graph, current)[i];
      if next in seen || stopAt(next) then Midway(graph, stopAt, root, seen, pending, current, i + 1)
      else Midway(graph, stopAt, root, seen + {next}, pending + [next], current, i + 1)
  {
    var next := ImportsOf(graph, current)[i];
    if next !in seen && !stopAt(next) {
      PushKeeps(graph, stopAt, root, seen, pending, current, next);
    }
  }

  lemma PushKeeps(
    graph: ImportGraph, stopAt: string -> bool, root: string, seen: set<string>, pending: seq<string>,
    current: string, next: string)
    requires Following(graph, stopAt, root, seen, Elements(pending) + {current})
    requires current in seen && Imports(graph, current, next) && !stopAt(next)
    ensures Following(graph, stopAt, root, seen + {next}, Elements(pending + [next]) + {current})
  {
    ReachesOn(graph, stopAt, root, current, next);
    assert Elements(pending + [next]) == Elements(pending) + {next};
  }

  lemma CurrentIsFollowed(
    graph: ImportGraph, stopAt: string -> bool, root: string, seen: set<string>, pending: seq<string>, current: string)
    requires Midway(graph, stopAt, root, seen, pending, current, |ImportsOf(graph, current)|)
    ensures Following(graph, stopAt, root, seen, Elements(pending))
  {
    forall to | Imports(graph, current, to) ensures to in seen || stopAt(to) {
      var j :| 0 <= j < |graph[current]| && graph[current][j] == to;
      assert ImportsOf(graph, current)[j] == to;
    }
  }

  // ----- Files outside the graph -----

  datatype Rule = BuildConfiguration | BundledAsset | Directory(name: string) | Test | Prose | Housekeeping | Unclassified

  const ALL_COMMANDS_FILES: set<string> := {"deno.json", "deno.lock", ".tool-versions", "Dockerfile", "scripts/compile.ts"}

  const NO_COMMANDS_DIRS: set<string> := {
    ".agents", ".claude", ".github", "agent-constraints", "contributing", "design", "extensions", "integration",
    "packages", "scripts", "tools", "verification"
  }

  const NO_COMMANDS_FILES: set<string> := {
    ".gitattributes", ".gitignore", "COPYING", "COPYING-EXCEPTION", "COPYRIGHT", "LICENSE"
  }

  const TEST_ENDINGS: seq<string> := [
    "_test.ts", "_test.tsx", "_bench.ts", "_bench.tsx", "_test_helpers.ts", "_test_helpers.tsx"
  ]

  const MODULE_ENDINGS: seq<string> := [".ts", ".tsx", ".js", ".jsx", ".mjs"]

  predicate EndsWithAny(s: string, endings: seq<string>) {
    exists i :: 0 <= i < |endings| && EndsWith(s, endings[i])
  }

  function ClassifyOutsideGraph(path: string): Rule {
    var segments := Split(path, '/');
    var name := segments[|segments| - 1];
    if path in ALL_COMMANDS_FILES then BuildConfiguration
    else if StartsWith(path, "packages/dashboard/") then BundledAsset
    else if |segments| > 1 && segments[0] in NO_COMMANDS_DIRS then Directory(segments[0])
    else if EndsWithAny(name, TEST_ENDINGS) || "test_helpers" in segments then Test
    else if EndsWithAny(name, [".md", ".png"]) then Prose
    else if |segments| == 1 && name in NO_COMMANDS_FILES then Housekeeping
    else Unclassified
  }

  // ----- The rules in terms of the path's text -----

  /** The file lies in the directory, at any depth. */
  predicate LiesIn(path: string, dir: string) {
    StartsWith(path, dir + "/")
  }

  /** A file or directory on the path has this name. */
  predicate HasPart(path: string, name: string) {
    exists i: nat :: i <= |path| && IsPartAt(path, name, i)
  }

  /** The name stands there, between slashes or the ends of the path. */
  predicate IsPartAt(path: string, name: string, i: nat) {
    && i + |name| <= |path| && path[i..i + |name|] == name
    && (i == 0 || path[i - 1] == '/') && (i + |name| == |path| || path[i + |name|] == '/')
  }

  predicate IsBuildConfiguration(path: string) {
    path in {"deno.json", "deno.lock", ".tool-versions", "Dockerfile", "scripts/compile.ts"}
  }

  /** The directories whose files select no command. */
  predicate IsQuiet(dir: string) {
    dir in {".agents", ".claude", ".github", "agent-constraints", "contributing", "design", "extensions",
            "integration", "packages", "scripts", "tools", "verification"}
  }

  /** The file lies in such a directory, and not in the bundled dashboard. */
  predicate IsDirectoryOf(path: string, dir: string) {
    IsQuiet(dir) && LiesIn(path, dir) && !IsBuildConfiguration(path) && !LiesIn(path, "packages/dashboard")
  }

  predicate IsTest(path: string) {
    HasTestEnding(path) || HasPart(path, "test_helpers")
  }

  predicate IsHousekeeping(path: string) {
    path in {".gitattributes", ".gitignore", "COPYING", "COPYING-EXCEPTION", "COPYRIGHT", "LICENSE"}
  }

  /** The last part is the whole path, or what stands behind its last slash. */
  lemma {:induction false} LastPart(path: string) returns (before: string)
    ensures var parts := Split(path, '/');
      if |parts| == 1 then parts == [path] && '/' !in path else path == before + ['/'] + parts[|parts| - 1]
  {
    before := "";
    if path != "" {
      var inner := LastPart(path[1..]);
      var rest := Split(path[1..], '/');
      assert path == [path[0]] + path[1..];
      if |rest| > 1 {
        before := [path[0]] + inner;
        assert path == [path[0]] + (inner + ['/'] + rest[|rest| - 1]);
      } else if path[0] == '/' {
        assert path == "" + ['/'] + rest[0];
      }
    }
  }

  /** A text without `/` ends the path exactly when it ends the path's last part. */
  lemma EndsLastPart(path: string, ending: string)
    requires '/' !in ending && ending != ""
    ensures var parts := Split(path, '/'); EndsWith(parts[|parts| - 1], ending) <==> EndsWith(path, ending)
  {
    var before := LastPart(path);
    var parts := Split(path, '/');
    var name := parts[|parts| - 1];
    if |parts| > 1 {
      assert |ending| <= |name| ==> name[|name| - |ending|..] == path[|path| - |ending|..];
      assert |name| < |ending| <= |path| ==> path[|path| - |ending|..][|ending| - |name| - 1] == '/';
    }
  }

  /** The first part is the directory exactly when the path goes on behind it. */
  lemma FirstPart(path: string, dir: string)
    requires '/' !in dir
    ensures var parts := Split(path, '/'); |parts| > 1 && parts[0] == dir <==> LiesIn(path, dir)
  {
    assert dir + "/" == dir + ['/'];
    if LiesIn(path, dir) {
      SplitFirst(dir, '/', path[|dir| + 1..]);
      assert path == dir + ['/'] + path[|dir| + 1..];
    }
    FirstPartStarts(path);
  }

  lemma {:induction false} FirstPartStarts(path: string)
    ensures var parts := Split(path, '/'); |parts| > 1 ==> parts[0] + ['/'] <= path
  {
    if path != "" { FirstPartStarts(path[1..]); }
  }

  /** Some part has the name: as the first part, or as one behind a slash. */
  lemma {:induction false} PartIff(path: string, name: string)
    requires '/' !in name
    ensures name in Split(path, '/') <==> HasPart(path, name)
    decreases |path|
  {
    if '/' !in path {
      SplitWhole(path, '/');
      if name == path { assert IsPartAt(path, name, 0); }
      if HasPart(path, name) { assert path[0..|path|] == path; }
    } else {
      var k :| 0 <= k < |path| && path[k] == '/' && '/' !in path[..k] by { FirstSlash(path); }
      var first, rest := path[..k], path[k + 1..];
      assert path == first + ['/'] + rest;
      SplitFirst(first, '/', rest);
      PartIff(rest, name);
      PartBehind(path, k, name);
    }
  }

  lemma {:induction false} FirstSlash(path: string)
    requires '/' in path
    ensures exists k :: 0 <= k < |path| && path[k] == '/' && '/' !in path[..k]
  {
    if path[0] == '/' {
      assert '/' !in path[..0];
    } else {
      FirstSlash(path[1..]);
      var k :| 0 <= k < |path[1..]| && path[1..][k] == '/' && '/' !in path[1..][..k];
      assert path[..k + 1] == [path[0]] + path[1..][..k];
    }
  }

  lemma PartAtBehind(path: string, k: nat, name: string, i: nat)
    requires k < |path| && path[k] == '/' && k < i <= |path|
    ensures IsPartAt(path, name, i) <==> IsPartAt(path[k + 1..], name, i - k - 1)
  {
    var rest := path[k + 1..];
    if i + |name| <= |path| {
      assert path[i..i + |name|] == rest[i - k - 1..i - k - 1 + |name|];
    }
  }

  lemma PartAtStart(path: string, k: nat, name: string, i: nat)
    requires '/' !in name && k < |path| && path[k] == '/' && '/' !in path[..k] && i <= k
    ensures IsPartAt(path, name, i) <==> i == 0 && name == path[..k]
  {
    var end := i + |name|;
    assert i > 0 ==> path[..k][i - 1] == path[i - 1];
    assert k < end <= |path| ==> path[i..end][k - i] == path[k];
    assert end < k ==> path[..k][end] == path[end];
    if i == 0 && name == path[..k] { assert path[0..k] == name; }
  }

  lemma PartBehind(path: string, k: nat, name: string)
    requires '/' !in name && k < |path| && path[k] == '/' && '/' !in path[..k]
    ensures HasPart(path, name) <==> name == path[..k] || HasPart(path[k + 1..], name)
  {
    PartAtStart(path, k, name, 0);
    if HasPart(path[k + 1..], name) {
      var i: nat :| i <= |path[k + 1..]| && IsPartAt(path[k + 1..], name, i);
      PartAtBehind(path, k, name, i + k + 1);
    }
    if HasPart(path, name) {
      var i: nat :| i <= |path| && IsPartAt(path, name, i);
      if i <= k { PartAtStart(path, k, name, i); } else { PartAtBehind(path, k, name, i); }
    }
  }

  /** The rule of a file in terms of its path alone. */
  ghost predicate HasRule(path: string, rule: Rule) {
    match rule
    case BuildConfiguration => IsBuildConfiguration(path)
    case BundledAsset => LiesIn(path, "packages/dashboard")
    case Directory(dir) => IsDirectoryOf(path, dir)
    case Test => NoEarlierRule(path) && IsTest(path)
    case Prose => NoEarlierRule(path) && !IsTest(path) && (EndsWith(path, ".md") || EndsWith(path, ".png"))
    case Housekeeping =>
      NoEarlierRule(path) && !IsTest(path) && !EndsWith(path, ".md") && !EndsWith(path, ".png") && IsHousekeeping(path)
    case Unclassified =>
      NoEarlierRule(path) && !IsTest(path) && !EndsWith(path, ".md") && !EndsWith(path, ".png") && !IsHousekeeping(path)
  }

  ghost predicate NoEarlierRule(path: string) {
    && !IsBuildConfiguration(path) && !LiesIn(path, "packages/dashboard")
    && forall dir :: IsQuiet(dir) ==> !LiesIn(path, dir)
  }

  /** The classification gives each file its rule. */
  lemma ClassifyMeans(path: string)
    ensures HasRule(path, ClassifyOutsideGraph(path))
  {
    assert "packages/dashboard" + "/" == "packages/dashboard/";
    DirectoryIff(path);
    TestIff(path);
    ProseIff(path);
    HousekeepingIff(path);
    assert IsBuildConfiguration(path) <==> path in ALL_COMMANDS_FILES;
  }

  lemma DirectoryIff(path: string)
    ensures var parts := Split(path, '/');
      && (|parts| > 1 && parts[0] in NO_COMMANDS_DIRS ==> IsQuiet(parts[0]) && LiesIn(path, parts[0]))
      && (!(|parts| > 1 && parts[0] in NO_COMMANDS_DIRS) ==> forall dir :: IsQuiet(dir) ==> !LiesIn(path, dir))
  {
    forall dir | IsQuiet(dir) ensures LiesIn(path, dir) <==> |Split(path, '/')| > 1 && Split(path, '/')[0] == dir {
      QuietIsPlain(dir);
      FirstPart(path, dir);
    }
  }

  lemma QuietIsPlain(dir: string)
    ensures IsQuiet(dir) <==> dir in NO_COMMANDS_DIRS
    ensures IsQuiet(dir) ==> '/' !in dir
  {
  }

  lemma TestIff(path: string)
    ensures var parts := Split(path, '/');
      EndsWithAny(parts[|parts| - 1], TEST_ENDINGS) || "test_helpers" in parts <==> IsTest(path)
  {
    PartIff(path, "test_helpers");
    var name := Split(path, '/')[|Split(path, '/')| - 1];
    TestEndings(name);
    TestEndings(path);
    EndsLastPart(path, "_test.ts");
    EndsLastPart(path, "_test.tsx");
    EndsLastPart(path, "_bench.ts");
    EndsLastPart(path, "_bench.tsx");
    EndsLastPart(path, "_test_helpers.ts");
    EndsLastPart(path, "_test_helpers.tsx");
  }

  predicate HasTestEnding(s: string) {
    || EndsWith(s, "_test.ts") || EndsWith(s, "_test.tsx") || EndsWith(s, "_bench.ts")
    || EndsWith(s, "_bench.tsx") || EndsWith(s, "_test_helpers.ts") || EndsWith(s, "_test_helpers.tsx")
  }

  lemma TestEndings(s: string)
    ensures EndsWithAny(s, TEST_ENDINGS) <==> HasTestEnding(s)
  {
    assert TEST_ENDINGS[0] == "_test.ts" && TEST_ENDINGS[1] == "_test.tsx" && TEST_ENDINGS[2] == "_bench.ts";
    assert TEST_ENDINGS[3] == "_bench.tsx" && TEST_ENDINGS[4] == "_test_helpers.ts" && TEST_ENDINGS[5] == "_test_helpers.tsx";
  }

  lemma ProseIff(path: string)
    ensures var parts := Split(path, '/');
      EndsWithAny(parts[|parts| - 1], [".md", ".png"]) <==> EndsWith(path, ".md") || EndsWith(path, ".png")
  {
    EndsLastPart(path, ".md");
    EndsLastPart(path, ".png");
    assert [".md", ".png"][0] == ".md" && [".md", ".png"][1] == ".png";
  }

  lemma HousekeepingIff(path: string)
    ensures var parts := Split(path, '/');
      |parts| == 1 && parts[|parts| - 1] in NO_COMMANDS_FILES <==> IsHousekeeping(path)
  {
    var before := LastPart(path);
    FilesArePlain();
  }

  lemma FilesArePlain()
    ensures forall file :: file in NO_COMMANDS_FILES ==> '/' !in file
  {
  }

  /** The rules whose effect is every command. */
  predicate SelectsAll(rule: Rule) {
    rule.BuildConfiguration? || rule.BundledAsset? || rule.Unclassified?
  }

  const ENTRY_POINT := "main.ts"
  const COMMAND_DIR := "src/cli/commands/"

  predicate WasModule(path: string) {
    path == ENTRY_POINT || (StartsWith(path, "src/") && EndsWithAny(path, MODULE_ENDINGS))
  }

  // ----- What is affected -----

  datatype Command = Command(name: string, file: string)

  /** The keys of a record are distinct. */
  predicate IsIndex(index: seq<Command>) {
    forall i, j :: 0 <= i < j < |index| ==> index[i].name != index[j].name
  }

  predicate NeverStop(path: string) { false }

  predicate IsCommandFile(path: string) { StartsWith(path, COMMAND_DIR) }

  /** A changed file that no import explains, or a deleted one that was no module. */
  ghost predicate Forcing(graph: ImportGraph, changed: set<string>, deleted: set<string>, file: string) {
    SelectsAll(ClassifyOutsideGraph(file))
    && ((file in changed && file !in graph) || (file in deleted && !WasModule(file)))
  }

  /** The command must be looked at: some file forces all commands, or a changed file of the graph
      is reachable from the command's own. */
  ghost predicate IsAffected(graph: ImportGraph, changed: set<string>, deleted: set<string>, c: Command) {
    || (exists file :: Forcing(graph, changed, deleted, file))
    || exists file :: file in changed && file in graph && Reaches(graph, NeverStop, c.file, file)
  }

  ghost function AffectedNames(
    graph: ImportGraph, index: seq<Command>, changed: set<string>, deleted: set<string>): set<string>
  {
    set i | 0 <= i < |index| && IsAffected(graph, changed, deleted, index[i]) :: index[i].name
  }

  /** Changed files on the way from the entry point that do not lie behind a command's file. */
  ghost function StartupSet(graph: ImportGraph, changed: set<string>): set<string> {
    set file | file in changed && file in graph && Reaches(graph, IsCommandFile, ENTRY_POINT, file)
  }

  function ForcingChanged(graph: ImportGraph, changed: set<string>): set<string> {
    set file | file in changed && file !in graph && SelectsAll(ClassifyOutsideGraph(file))
  }

  function ForcingDeleted(deleted: set<string>): set<string> {
    set file | file in deleted && !WasModule(file) && SelectsAll(ClassifyOutsideGraph(file))
  }

  /** The elements of `s` that are kept, in order. */
  function Among(s: seq<string>, keep: set<string>): seq<string> {
    if s == [] then []
    else Among(s[..|s| - 1], keep) + (if s[|s| - 1] in keep then [s[|s| - 1]] else [])
  }

  /** Each value once, in the order of first occurrence. */
  function Distinct(s: seq<string>): seq<string> {
    if s == [] then []
    else
      var init := Distinct(s[..|s| - 1]);
      if s[|s| - 1] in init then init else init + [s[|s| - 1]]
  }

  /** `[...new Set(s)].sort()` */
  function SortedSet(s: seq<string>): seq<string> {
    Sort(StringLe, Distinct(s))
  }

  predicate StrictlySorted(s: seq<string>) {
    forall i, j :: 0 <= i < j < |s| ==> StringLe(s[i], s[j]) && s[i] != s[j]
  }

  predicate NoRepeats(s: seq<string>) {
    forall i, j :: 0 <= i < j < |s| ==> s[i] != s[j]
  }

  lemma {:induction false} DistinctIsSet(s: seq<string>)
    ensures NoRepeats(Distinct(s)) && Elements(Distinct(s)) == Elements(s)
  {
    if s != [] {
      DistinctIsSet(s[..|s| - 1]);
      Popped(s);
    }
  }

  lemma NoRepeatsCount(s: seq<string>)
    ensures NoRepeats(s) <==> forall x :: multiset(s)[x] <= 1
    decreases s
  {
    if s != [] {
      var init, last := s[..|s| - 1], s[|s| - 1];
      NoRepeatsCount(init);
      assert s == init + [last];
      assert multiset(s) == multiset(init) + multiset{last};
      if NoRepeats(s) {
        assert last !in init;
        assert last !in multiset(init);
      } else if NoRepeats(init) {
        var i, j :| 0 <= i < j < |s| && s[i] == s[j];
        assert j == |s| - 1 && init[i] == last;
        assert last in multiset(init);
        assert multiset(s)[last] >= 2;
      } else {
        var x :| multiset(init)[x] > 1;
        assert multiset(s)[x] > 1;
      }
    }
  }

  /** A sequence without repeats, sorted: strictly in order, with the same elements. */
  lemma SortIsStrict(s: seq<string>)
    requires NoRepeats(s)
    ensures StrictlySorted(Sort(StringLe, s)) && Elements(Sort(StringLe, s)) == Elements(s)
  {
    StringLeOrders();
    SortSorts(StringLe, s);
    var t := Sort(StringLe, s);
    NoRepeatsCount(s);
    NoRepeatsCount(t);
    assert forall x :: x in t <==> x in multiset(t);
    assert forall x :: x in s <==> x in multiset(s);
  }

  lemma SortedSetIsSet(s: seq<string>)
    ensures StrictlySorted(SortedSet(s)) && Elements(SortedSet(s)) == Elements(s)
  {
    DistinctIsSet(s);
    SortIsStrict(Distinct(s));
  }

  /** What is kept of a strictly sorted sequence is strictly sorted, and is all there is to keep. */
  lemma {:induction false} AmongIsExact(s: seq<string>, keep: set<string>)
    ensures Elements(Among(s, keep)) == Elements(s) * keep
    ensures StrictlySorted(s) ==> StrictlySorted(Among(s, keep))
  {
    if s != [] {
      var init := s[..|s| - 1];
      AmongIsExact(init, keep);
      Popped(s);
      var last := if s[|s| - 1] in keep then [s[|s| - 1]] else [];
      assert Elements(Among(init, keep) + last) == Elements(Among(init, keep)) + Elements(last);
      if StrictlySorted(s) {
        forall i | 0 <= i < |Among(init, keep)|
          ensures StringLe(Among(init, keep)[i], s[|s| - 1]) && Among(init, keep)[i] != s[|s| - 1]
        {
          assert Among(init, keep)[i] in Elements(Among(init, keep));
          var k :| 0 <= k < |init| && init[k] == Among(init, keep)[i];
          assert StringLe(s[k], s[|s| - 1]) && s[k] != s[|s| - 1];
        }
      }
    }
  }

  lemma {:induction false} AmongSame(s: seq<string>, keep: set<string>, keep': set<string>)
    requires forall x :: x in s ==> (x in keep <==> x in keep')
    ensures Among(s, keep) == Among(s, keep')
  {
    if s != [] {
      AmongSame(s[..|s| - 1], keep, keep');
    }
  }

  // ----- Selecting commands -----

  datatype ForcedFile = ForcedFile(file: string, rule: Rule)

  datatype Sample<T> = Sample(count: nat, files: seq<T>)

  datatype Scope = AllCommands | SomeCommands | NoCommands

  datatype Affected = Affected(
    scope: Scope, commands: seq<string>, totalCommands: nat,
    startupPath: Sample<string>, forcedAll: Sample<ForcedFile>, changedFiles: nat)

  const FILE_LIST_LIMIT := 50

  function SampleOf<T>(files: seq<T>): Sample<T> {
    Sample(|files|, if |files| <= FILE_LIST_LIMIT then files else files[..FILE_LIST_LIMIT])
  }

  function WithRules(files: seq<string>): (r: seq<ForcedFile>)
    ensures |r| == |files|
  {
    seq(|files|, i requires 0 <= i < |files| => ForcedFile(files[i], ClassifyOutsideGraph(files[i])))
  }

  function Names(index: seq<Command>): (r: seq<string>)
    ensures |r| == |index| && forall i :: 0 <= i < |index| ==> r[i] == index[i].name
  {
    seq(|index|, i requires 0 <= i < |index| => index[i].name)
  }

  function FileOf(index: seq<Command>, name: string): string {
    if index == [] then "" else if index[0].name == name then index[0].file else FileOf(index[1..], name)
  }

  lemma {:induction false} FileOfCommand(index: seq<Command>, i: nat)
    requires IsIndex(index) && i < |index|
    ensures FileOf(index, index[i].name) == index[i].file
  {
    if i > 0 {
      FileOfCommand(index[1..], i - 1);
    }
  }

  method ClosuresOf(graph: ImportGraph, index: seq<Command>, names: seq<string>)
    returns (closures: map<string, set<string>>)
    ensures closures.Keys == Elements(names)
    ensures forall name, file :: name in closures ==>
      (file in closures[name] <==> Reaches(graph, NeverStop, FileOf(index, name), file))
  {
    closures := map[];
    for i := 0 to |names|
      invariant closures.Keys == Elements(names[..i])
      invariant forall name, file :: name in closures ==>
        (file in closures[name] <==> Reaches(graph, NeverStop, FileOf(index, name), file))
    {
      var seen := Closure(graph, FileOf(index, names[i]), NeverStop);
      closures := closures[names[i] := seen];
      Popped(names[..i + 1]);
      assert names[..i + 1][..i] == names[..i];
    }
    assert names[..|names|] == names;
  }

  /** The commands whose closure holds one of the first `n` files that are in the graph. */
  ghost predicate HitBy(graph: ImportGraph, closure: set<string>, files: seq<string>, n: nat)
    requires n <= |files|
  {
    exists j :: 0 <= j < n && files[j] in graph && files[j] in closure
  }

  method AddHits(names: seq<string>, closures: map<string, set<string>>, file: string, before: set<string>)
    returns (affected: set<string>)
    requires closures.Keys == Elements(names)
    ensures forall name :: name in affected <==> name in before || (name in closures && file in closures[name])
  {
    affected := before;
    for i := 0 to |names|
      invariant forall name :: name in affected <==>
        name in before || (name in names[..i] && name in closures && file in closures[name])
    {
      assert names[..i + 1] == names[..i] + [names[i]];
      assert names[i] in Elements(names);
      if file in closures[names[i]] { affected := affected + {names[i]}; }
    }
    assert names[..|names|] == names;
    assert forall name :: name in closures ==> name in names;
  }

  method SelectChanged(
    graph: ImportGraph, names: seq<string>, closures: map<string, set<string>>, startup: set<string>, files: seq<string>)
    returns (affected: set<string>, startupFiles: seq<string>, forced: seq<ForcedFile>)
    requires closures.Keys == Elements(names)
    ensures forall name :: name in affected <==> name in closures && HitBy(graph, closures[name], files, |files|)
    ensures startupFiles == Among(files, graph.Keys * startup)
    ensures forced == WithRules(Among(files, ForcingChanged(graph, Elements(files))))
  {
    affected, startupFiles, forced := {}, [], [];
    ghost var keep := ForcingChanged(graph, Elements(files));
    for i := 0 to |files|
      invariant forall name :: name in affected <==> name in closures && HitBy(graph, closures[name], files, i)
      invariant startupFiles == Among(files[..i], graph.Keys * startup)
      invariant forced == WithRules(Among(files[..i], keep))
    {
      var file := files[i];
      assert file in Elements(files);
      HitStep(graph, closures, files, i);
      AmongStep(files, i, graph.Keys * startup);
      RulesStep(files, i, keep);
      if file in graph {
        affected := AddHits(names, closures, file, affected);
        if file in startup { startupFiles := startupFiles + [file]; }
      } else {
        var rule := ClassifyOutsideGraph(file);
        if SelectsAll(rule) { forced := forced + [ForcedFile(file, rule)]; }
      }
    }
    assert files[..|files|] == files;
  }

  lemma HitStep(graph: ImportGraph, closures: map<string, set<string>>, files: seq<string>, i: nat)
    requires i < |files|
    ensures forall name :: name in closures ==>
      (HitBy(graph, closures[name], files, i + 1)
       <==> HitBy(graph, closures[name], files, i) || (files[i] in graph && files[i] in closures[name]))
  {
  }

  lemma RulesStep(files: seq<string>, i: nat, keep: set<string>)
    requires i < |files|
    ensures WithRules(Among(files[..i + 1], keep)) == WithRules(Among(files[..i], keep))
      + (if files[i] in keep then [ForcedFile(files[i], ClassifyOutsideGraph(files[i]))] else [])
  {
    AmongStep(files, i, keep);
  }

  lemma AmongStep(files: seq<string>, i: nat, keep: set<string>)
    requires i < |files|
    ensures Among(files[..i + 1], keep) == Among(files[..i], keep) + (if files[i] in keep then [files[i]] else [])
  {
    assert files[..i + 1][..i] == files[..i];
  }

  method SelectDeleted(files: seq<string>) returns (forced: seq<ForcedFile>)
    ensures forced == WithRules(Among(files, ForcingDeleted(Elements(files))))
  {
    forced := [];
    ghost var keep := ForcingDeleted(Elements(files));
    for i := 0 to |files|
      invariant forced == WithRules(Among(files[..i], keep))
    {
      var file := files[i];
      assert file in Elements(files);
      RulesStep(files, i, keep);
      if !WasModule(file) {
        var rule := ClassifyOutsideGraph(file);
        if SelectsAll(rule) { forced := forced + [ForcedFile(file, rule)]; }
      }
    }
    assert files[..|files|] == files;
  }

  ghost function ForcedFiles(graph: ImportGraph, changed: seq<string>, deleted: seq<string>): seq<ForcedFile> {
    WithRules(Among(SortedSet(changed), ForcingChanged(graph, Elements(changed))))
    + WithRules(Among(SortedSet(deleted), ForcingDeleted(Elements(deleted))))
  }

  function ScopeOf(selected: nat, total: nat): Scope {
    if selected == 0 then NoCommands else if selected == total then AllCommands else SomeCommands
  }

  /** The set as a list: each element once, in order. */
  predicate IsListOf(list: seq<string>, elements: set<string>) {
    StrictlySorted(list) && Elements(list) == elements
  }

  /** How many there are, and the first fifty of them. */
  predicate IsSampleOf<T(==)>(sample: Sample<T>, all: seq<T>) {
    sample.count == |all| && sample.files <= all && |sample.files| == if |all| <= 50 then |all| else 50
  }

  /** The changed and then the deleted files that force all commands, each with its rule. */
  ghost predicate AreForced(graph: ImportGraph, changed: set<string>, deleted: set<string>, forced: seq<ForcedFile>) {
    exists a, b ::
      && IsListOf(a, set file | file in changed && file !in graph && SelectsAll(ClassifyOutsideGraph(file)))
      && IsListOf(b, set file | file in deleted && !WasModule(file) && SelectsAll(ClassifyOutsideGraph(file)))
      && HaveRules(forced, a + b)
  }

  /** The files, each with its rule. */
  ghost predicate HaveRules(forced: seq<ForcedFile>, files: seq<string>) {
    && |forced| == |files|
    && forall i :: 0 <= i < |forced| ==> forced[i].file == files[i] && HasRule(files[i], forced[i].rule)
  }

  lemma RulesAreTheirs(files: seq<string>)
    ensures HaveRules(WithRules(files), files)
  {
    forall i | 0 <= i < |files| ensures HasRule(files[i], WithRules(files)[i].rule) { ClassifyMeans(files[i]); }
  }

  lemma RulesConcat(f: seq<ForcedFile>, a: seq<string>, g: seq<ForcedFile>, b: seq<string>)
    requires HaveRules(f, a) && HaveRules(g, b)
    ensures HaveRules(f + g, a + b)
  {
  }

  lemma {:induction false} AmongIsSorted(s: seq<string>, keep: set<string>)
    requires StrictlySorted(s)
    ensures StrictlySorted(Among(s, keep)) && forall x :: x in Among(s, keep) ==> x in s
  {
    if s != [] {
      var init := s[..|s| - 1];
      AmongIsSorted(init, keep);
      forall x | x in init ensures StringLe(x, s[|s| - 1]) && x != s[|s| - 1] {
        var i :| 0 <= i < |init| && init[i] == x;
        assert s[i] == x;
      }
      assert forall i :: 0 <= i < |Among(init, keep)| ==> Among(init, keep)[i] in init;
    }
  }

  lemma AmongIsList(files: seq<string>, keep: set<string>)
    requires keep <= Elements(files)
    ensures IsListOf(Among(SortedSet(files), keep), keep)
  {
    SortedSetIsSet(files);
    AmongIsExact(SortedSet(files), keep);
    AmongIsSorted(SortedSet(files), keep);
  }

  lemma SampleIsSample<T>(files: seq<T>)
    ensures IsSampleOf(SampleOf(files), files)
  {
  }

  lemma ForcedAreForced(graph: ImportGraph, changed: seq<string>, deleted: seq<string>)
    ensures AreForced(graph, Elements(changed), Elements(deleted), ForcedFiles(graph, changed, deleted))
  {
    var a := Among(SortedSet(changed), ForcingChanged(graph, Elements(changed)));
    var b := Among(SortedSet(deleted), ForcingDeleted(Elements(deleted)));
    AmongIsList(changed, ForcingChanged(graph, Elements(changed)));
    AmongIsList(deleted, ForcingDeleted(Elements(deleted)));
    RulesAreTheirs(a);
    RulesAreTheirs(b);
    RulesConcat(WithRules(a), a, WithRules(b), b);
    assert IsListOf(a, set file | file in Elements(changed) && file !in graph && SelectsAll(ClassifyOutsideGraph(file)));
    assert IsListOf(b, set file | file in Elements(deleted) && !WasModule(file) && SelectsAll(ClassifyOutsideGraph(file)));
  }

  /** The commands reported are exactly the affected ones, each once, in order.  Beside them stand
      the changed files of the start-up path and the files that force all commands. */
  method ComputeAffectedCommands(graph: ImportGraph, index: seq<Command>, changed: seq<string>, deleted: seq<string>)
    returns (r: Affected)
    requires IsIndex(index)
    ensures StrictlySorted(r.commands)
    ensures Elements(r.commands) == AffectedNames(graph, index, Elements(changed), Elements(deleted))
    ensures r.totalCommands == |index|
    ensures r.scope.NoCommands? <==> r.commands == []
    ensures r.scope.AllCommands? <==> r.commands != [] && |r.commands| == |index|
    ensures exists startup :: IsListOf(startup, StartupSet(graph, Elements(changed))) && IsSampleOf(r.startupPath, startup)
    ensures exists forced :: AreForced(graph, Elements(changed), Elements(deleted), forced) && IsSampleOf(r.forcedAll, forced)
    ensures r.changedFiles == |Elements(changed + deleted)|
  {
    var names := Sort(StringLe, Names(index));
    SortIsStrict(Names(index));
    var closures := ClosuresOf(graph, index, names);
    var startup := Closure(graph, ENTRY_POINT, IsCommandFile);
    SortedSetIsSet(changed);
    SortedSetIsSet(deleted);
    var affected, startupFiles, forced := SelectChanged(graph, names, closures, startup, SortedSet(changed));
    assert startupFiles == Among(SortedSet(changed), StartupSet(graph, Elements(changed))) by {
      AmongSame(SortedSet(changed), graph.Keys * startup, StartupSet(graph, Elements(changed)));
    }
    var more := SelectDeleted(SortedSet(deleted));
    forced := forced + more;
    var commands := if forced != [] then names else Among(names, affected);
    AmongIsExact(names, affected);
    assert Elements(commands) == AffectedNames(graph, index, Elements(changed), Elements(deleted)) by {
      CommandsAreAffected(graph, index, changed, deleted, names, closures, affected, forced, commands);
    }
    StringLeOrders();
    SortSorts(StringLe, Names(index));
    AmongIsList(changed, StartupSet(graph, Elements(changed)));
    SampleIsSample(startupFiles);
    ForcedAreForced(graph, changed, deleted);
    SampleIsSample(forced);
    r := Affected(ScopeOf(|commands|, |names|), commands, |names|, SampleOf(startupFiles), SampleOf(forced),
                  |Elements(changed + deleted)|);
  }

  lemma ForcedIff(graph: ImportGraph, changed: seq<string>, deleted: seq<string>)
    ensures ForcedFiles(graph, changed, deleted) != []
       <==> exists file :: Forcing(graph, Elements(changed), Elements(deleted), file)
  {
    var a, b := ForcingChanged(graph, Elements(changed)), ForcingDeleted(Elements(deleted));
    SortedSetIsSet(changed);
    SortedSetIsSet(deleted);
    AmongIsExact(SortedSet(changed), a);
    AmongIsExact(SortedSet(deleted), b);
    var fa, fb := Among(SortedSet(changed), a), Among(SortedSet(deleted), b);
    assert Elements(fa) == a && Elements(fb) == b;
    if fa != [] {
      assert fa[0] in Elements(fa);
      assert Forcing(graph, Elements(changed), Elements(deleted), fa[0]);
    } else if fb != [] {
      assert fb[0] in Elements(fb);
      assert Forcing(graph, Elements(changed), Elements(deleted), fb[0]);
    } else {
      forall file ensures !Forcing(graph, Elements(changed), Elements(deleted), file) {
        assert file !in a && file !in b;
      }
    }
  }

  lemma CommandsAreAffected(
    graph: ImportGraph, index: seq<Command>, changed: seq<string>, deleted: seq<string>, names: seq<string>,
    closures: map<string, set<string>>, affected: set<string>, forced: seq<ForcedFile>, commands: seq<string>)
    requires IsIndex(index) && Elements(names) == Elements(Names(index)) == closures.Keys
    requires forall name, file :: name in closures ==>
      (file in closures[name] <==> Reaches(graph, NeverStop, FileOf(index, name), file))
    requires forall name :: name in affected <==>
      name in closures && HitBy(graph, closures[name], SortedSet(changed), |SortedSet(changed)|)
    requires forced == ForcedFiles(graph, changed, deleted)
    requires Elements(commands) == if forced != [] then Elements(names) else Elements(names) * affected
    ensures Elements(commands) == AffectedNames(graph, index, Elements(changed), Elements(deleted))
  {
    ForcedIff(graph, changed, deleted);
    var all := AffectedNames(graph, index, Elements(changed), Elements(deleted));
    forall i | 0 <= i < |index|
      ensures index[i].name in Elements(commands) <==> IsAffected(graph, Elements(changed), Elements(deleted), index[i])
    {
      assert Names(index)[i] in Elements(Names(index));
      FileOfCommand(index, i);
      HitIff(graph, index[i], closures[index[i].name], changed);
    }
    forall name ensures name in Elements(commands) <==> name in all {
      if name in Elements(commands) {
        assert name in Elements(Names(index));
        var i :| 0 <= i < |index| && Names(index)[i] == name;
        assert index[i].name == name;
      }
      if name in all {
        var i :| 0 <= i < |index| && IsAffected(graph, Elements(changed), Elements(deleted), index[i]) && index[i].name == name;
      }
    }
  }

  lemma HitIff(graph: ImportGraph, c: Command, closure: set<string>, changed: seq<string>)
    requires forall file :: file in closure <==> Reaches(graph, NeverStop, c.file, file)
    ensures HitBy(graph, closure, SortedSet(changed), |SortedSet(changed)|)
       <==> exists file :: file in Elements(changed) && file in graph && Reaches(graph, NeverStop, c.file, file)
  {
    var files := SortedSet(changed);
    SortedSetIsSet(changed);
    if HitBy(graph, closure, files, |files|) {
      var j :| 0 <= j < |files| && files[j] in graph && files[j] in closure;
      assert files[j] in Elements(files);
    }
    if exists file :: file in Elements(changed) && file in graph && Reaches(graph, NeverStop, c.file, file) {
      var file :| file in Elements(changed) && file in graph && Reaches(graph, NeverStop, c.file, file);
      assert file in Elements(files);
      var j :| 0 <= j < |files| && files[j] == file;
    }
  }

  // ----- What may not happen -----

  /** Adding changed or deleted files never removes a command. */
  lemma MoreChangesKeepCommands(
    graph: ImportGraph, index: seq<Command>, changed: set<string>, deleted: set<string>,
    changed': set<string>, deleted': set<string>)
    requires changed <= changed' && deleted <= deleted'
    ensures AffectedNames(graph, index, changed, deleted) <= AffectedNames(graph, index, changed', deleted')
  {
    forall i | 0 <= i < |index| && IsAffected(graph, changed, deleted, index[i])
      ensures IsAffected(graph, changed', deleted', index[i])
    {
      if exists file :: Forcing(graph, changed, deleted, file) {
        var file :| Forcing(graph, changed, deleted, file);
        assert Forcing(graph, changed', deleted', file);
      }
    }
  }

  /** Nor does adding imports between files of the graph. */
  lemma MoreImportsKeepCommands(
    graph: ImportGraph, graph': ImportGraph, index: seq<Command>, changed: set<string>, deleted: set<string>)
    requires graph.Keys == graph'.Keys && forall from, to :: Imports(graph, from, to) ==> Imports(graph', from, to)
    ensures AffectedNames(graph, index, changed, deleted) <= AffectedNames(graph', index, changed, deleted)
  {
    forall i | 0 <= i < |index| && IsAffected(graph, changed, deleted, index[i])
      ensures IsAffected(graph', changed, deleted, index[i])
    {
      if exists file :: Forcing(graph, changed, deleted, file) {
        var file :| Forcing(graph, changed, deleted, file);
        assert Forcing(graph', changed, deleted, file);
      } else {
        var file :| file in changed && file in graph && Reaches(graph, NeverStop, index[i].file, file);
        var w :| Leads(graph, NeverStop, index[i].file, file, w);
        assert Leads(graph', NeverStop, index[i].file, file, w);
      }
    }
  }
}
