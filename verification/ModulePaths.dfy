/**
 Specifiers of `scripts/unbarrel.ts`: how a module is named from an importing file
 (`specifierTo`) and what such a name means there (`resolveSpecifier`).

 A normalised absolute path is the sequence of its segments; a specifier is text.
 */
module ModulePaths {
  import opened Options
  import opened Text

  type Path = seq<string>

  /** Where a name comes from: a file of the repository, or a package named as written. */
  datatype Module = File(path: Path) | Bare(text: string)

  predicate IsSegment(s: string) {
    s != "" && s != "." && s != ".." && '/' !in s
  }

  predicate IsPath(p: Path) {
    forall i :: 0 <= i < |p| ==> IsSegment(p[i])
  }

  function Dirname(p: Path): Path {
    if p == [] then [] else p[..|p| - 1]
  }

  /** One step of `resolve`: empty and `.` segments stay, `..` climbs (not above the root). */
  function Enter(base: Path, segment: string): Path {
    if segment == "" || segment == "." then base
    else if segment == ".." then Dirname(base)
    else base + [segment]
  }

  function Resolve(base: Path, segments: seq<string>): Path
    decreases segments
  {
    if segments == [] then base else Resolve(Enter(base, segments[0]), segments[1..])
  }

  function ResolveSpecifier(file: Path, specifier: string): Option<Path> {
    if !StartsWith(specifier, ".") then None
    else Some(Resolve(Dirname(file), Split(specifier, '/')))
  }

  /** The length of the longest common prefix. */
  function Common(a: Path, b: Path): (n: nat)
    ensures n <= |a| && n <= |b| && a[..n] == b[..n]
    ensures n < |a| && n < |b| ==> a[n] != b[n]
  {
    if a == [] || b == [] || a[0] != b[0] then 0 else 1 + Common(a[1..], b[1..])
  }

  function Ups(n: nat): (r: seq<string>)
    ensures |r| == n && forall i :: 0 <= i < n ==> r[i] == ".."
  {
    seq(n, _ => "..")
  }

  /** `relative`: climb to the common ancestor, then descend. */
  function Relative(from: Path, to: Path): seq<string> {
    var n := Common(from, to);
    Ups(|from| - n) + to[n..]
  }

  function SpecifierTo(file: Path, m: Module): string {
    match m
    case Bare(text) => text
    case File(path) =>
      var rel := Join(Relative(Dirname(file), path), "/");
      if StartsWith(rel, ".") then rel else "./" + rel
  }

  /** What a specifier written in `file` names. */
  function ModuleOf(file: Path, specifier: string): Module {
    match ResolveSpecifier(file, specifier)
    case Some(path) => File(path)
    case None => Bare(specifier)
  }

  // ----- Resolving undoes naming -----

  lemma {:induction false} ResolveAppend(base: Path, a: seq<string>, b: seq<string>)
    ensures Resolve(base, a + b) == Resolve(Resolve(base, a), b)
    decreases a
  {
    if a == [] {
      assert a + b == b;
    } else {
      assert (a + b)[1..] == a[1..] + b;
      ResolveAppend(Enter(base, a[0]), a[1..], b);
    }
  }

  lemma {:induction false} ResolveUps(base: Path, n: nat)
    requires n <= |base|
    ensures Resolve(base, Ups(n)) == base[..|base| - n]
  {
    if n > 0 {
      assert Ups(n)[1..] == Ups(n - 1);
      ResolveUps(Dirname(base), n - 1);
    }
  }

  lemma {:induction false} ResolveDown(base: Path, down: Path)
    requires IsPath(down)
    ensures Resolve(base, down) == base + down
    decreases down
  {
    if down == [] {
      assert base + down == base;
    } else {
      ResolveDown(base + [down[0]], down[1..]);
      assert base + [down[0]] + down[1..] == base + down;
    }
  }

  lemma RelativeLeadsThere(from: Path, to: Path)
    requires IsPath(to)
    ensures Resolve(from, Relative(from, to)) == to
  {
    var n := Common(from, to);
    ResolveAppend(from, Ups(|from| - n), to[n..]);
    ResolveUps(from, |from| - n);
    ResolveDown(from[..n], to[n..]);
    assert to[..n] + to[n..] == to;
  }

  lemma JoinHead(parts: seq<string>)
    requires parts != [] && parts[0] != ""
    ensures Join(parts, "/") != "" && Join(parts, "/")[0] == parts[0][0]
  {
  }

  lemma DotPrefix(dir: Path, rel: string)
    ensures Resolve(dir, Split("./" + rel, '/')) == Resolve(dir, Split(rel, '/'))
  {
    assert "./" + rel == "." + ['/'] + rel;
    SplitFirst(".", '/', rel);
    ResolveAppend(dir, ["."], Split(rel, '/'));
    assert Resolve(dir, ["."]) == Resolve(dir, []);
  }

  lemma JoinedResolves(dir: Path, segments: seq<string>)
    requires forall i :: 0 <= i < |segments| ==> '/' !in segments[i]
    ensures Resolve(dir, Split(Join(segments, "/"), '/')) == Resolve(dir, segments)
  {
    if segments == [] {
      assert Split("", '/') == [""];
      assert Resolve(dir, [""]) == Resolve(Enter(dir, ""), []);
    } else {
      assert "/" == ['/'];
      SplitJoin(segments, '/');
    }
  }

  /** `resolveSpecifier` undoes `specifierTo`, for every importing file and every module. */
  lemma SpecifierRoundTrip(file: Path, path: Path)
    requires IsPath(path)
    ensures ResolveSpecifier(file, SpecifierTo(file, File(path))) == Some(path)
  {
    var dir := Dirname(file);
    RelativeLeadsThere(dir, path);
    JoinedResolves(dir, Relative(dir, path));
    DotPrefix(dir, Join(Relative(dir, path), "/"));
  }

  /** Naming never confuses two modules: what is written resolves to what was meant. */
  lemma ModuleRoundTrip(file: Path, m: Module)
    requires m.File? ==> IsPath(m.path)
    requires m.Bare? ==> !StartsWith(m.text, ".")
    ensures ModuleOf(file, SpecifierTo(file, m)) == m
  {
    if m.File? {
      SpecifierRoundTrip(file, m.path);
    }
  }

  // ----- Where the spelling leaves the runtime's grammar -----

  /** A relative specifier for a module loader: it starts with `./` or `../`. */
  predicate IsRelativeSpecifier(s: string) {
    StartsWith(s, "./") || StartsWith(s, "../")
  }

  /** The module sits beside or below the importer, under an entry whose name begins with a
      dot; or it is the directory just above. */
  predicate DotEntryBeside(file: Path, path: Path)
    requires IsPath(path)
  {
    var dir := Dirname(file);
    || (dir < path && path[|dir|][0] == '.')
    || (dir != [] && path == dir[..|dir| - 1])
  }

  lemma ClimbingSpelling(dir: Path, path: Path)
    requires Common(dir, path) < |dir|
    ensures var rel := Join(Relative(dir, path), "/");
      StartsWith(rel, ".") && (IsRelativeSpecifier(rel) <==> path != dir[..|dir| - 1])
  {
    var n := Common(dir, path);
    var segments := Relative(dir, path);
    assert segments[0] == "..";
    if |segments| == 1 {
      assert segments == [".."] && path == path[..n] == dir[..n];
      assert "./"[1] == '/' && ".."[1] == '.';
    } else {
      assert Join(segments, "/") == ".." + "/" + Join(segments[1..], "/");
      if path == dir[..|dir| - 1] {
        assert false;
      }
    }
  }

  lemma DescendingSpelling(dir: Path, path: Path)
    requires IsPath(path) && Common(dir, path) == |dir| < |path|
    ensures var rel := Join(Relative(dir, path), "/");
      !IsRelativeSpecifier(rel) && (StartsWith(rel, ".") <==> path[|dir|][0] == '.')
  {
    var segments := path[|dir|..];
    assert Relative(dir, path) == segments;
    var rel := Join(segments, "/");
    JoinHead(segments);
    SplitJoin(segments, '/');
    SplitHead(rel, '/', ".");
    SplitHead(rel, '/', "..");
    assert "." + ['/'] == "./" && ".." + ['/'] == "../";
  }

  lemma SplitHead(s: string, c: char, prefix: string)
    requires c !in prefix
    ensures prefix + [c] <= s ==> Split(s, c)[0] == prefix
  {
    if prefix + [c] <= s {
      SplitFirst(prefix, c, s[|prefix| + 1..]);
      assert s == prefix + [c] + s[|prefix| + 1..];
    }
  }

  /** `specifierTo` writes a specifier a loader takes as relative exactly when the module is
      not such an entry: `.gen/x.ts` is not prefixed with `./`, because it starts with a dot. */
  lemma RelativeSpellingIff(file: Path, path: Path)
    requires IsPath(path)
    ensures IsRelativeSpecifier(SpecifierTo(file, File(path))) <==> !DotEntryBeside(file, path)
  {
    var dir := Dirname(file);
    var n := Common(dir, path);
    if n < |dir| {
      ClimbingSpelling(dir, path);
    } else if n < |path| {
      DescendingSpelling(dir, path);
      assert dir == path[..n];
    } else {
      assert dir == path[..n] == path;
      assert Relative(dir, path) == [];
    }
  }

  // ----- What a module loader reads -----

  /** A specifier whose path a loader takes as written.  It reads a specifier as a URL, where `?` and
      `#` end the path, `%` begins an escape, a backslash is a slash, tabs and line breaks vanish, and
      a blank at the end is cut off. */
  predicate IsUrlPath(s: string) {
    && (forall i :: 0 <= i < |s| ==> s[i] !in {'?', '#', '%', '\\', '\t', '\n', '\r'})
    && (s != "" ==> s[|s| - 1] > ' ')
  }

  /** What a loader takes a specifier in `file` for: the file it leads to when it is relative and such a
      path; any other is not that file. */
  function LoaderModule(file: Path, specifier: string): Module {
    if IsRelativeSpecifier(specifier) && IsUrlPath(specifier) then ModuleOf(file, specifier) else Bare(specifier)
  }

  /** A loader takes what is written for the module that was meant. */
  predicate IsLoadable(file: Path, m: Module)
    requires m.File? ==> IsPath(m.path)
  {
    m.File? ==> !DotEntryBeside(file, m.path) && IsUrlPath(SpecifierTo(file, m))
  }

  lemma LoadableIff(file: Path, m: Module)
    requires m.File? ==> IsPath(m.path)
    requires m.Bare? ==> !StartsWith(m.text, ".")
    ensures LoaderModule(file, SpecifierTo(file, m)) == m <==> IsLoadable(file, m)
  {
    if m.File? {
      RelativeSpellingIff(file, m.path);
      ModuleRoundTrip(file, m);
    }
  }

  /** An input on which the spelling is not relative. */
  lemma DotEntryExample()
    ensures SpecifierTo(["repo", "a.ts"], File(["repo", ".gen", "b.ts"])) == ".gen/b.ts"
    ensures !IsRelativeSpecifier(".gen/b.ts")
  {
    assert ".gen/b.ts"[1] == 'g' && "./"[1] == '/' && "../"[1] == '.';
    var dir, path := ["repo"], ["repo", ".gen", "b.ts"];
    assert Dirname(["repo", "a.ts"]) == dir;
    assert Common(dir, path) == 1;
    assert Relative(dir, path) == [".gen", "b.ts"];
    assert Join([".gen", "b.ts"], "/") == ".gen" + "/" + "b.ts";
  }
}
