/**
 The manifest `treeChecksum` of `scripts/build_attestation.ts` hashes: one line per file of a
 directory, sorted by path.  Two trees must hash alike exactly when they hold the same files.
 The checksum of a file's content is a parameter.
 */
module TreeManifest {
  import opened Options
  import opened Sorting

  /** A file as listed; `sum` is the checksum of its content. */
  datatype File = File(path: string, sum: string)

  predicate IsSafe(path: string) {
    '\\' !in path && '\n' !in path
  }

  /** Sums are 64 characters long, and no path is listed twice. */
  predicate IsListing(files: seq<File>) {
    && (forall i :: 0 <= i < |files| ==> |files[i].sum| == 64)
    && (forall i, j :: 0 <= i < j < |files| ==> files[i].path != files[j].path)
  }

  predicate AllSafe(files: seq<File>) {
    forall i :: 0 <= i < |files| ==> IsSafe(files[i].path)
  }

  predicate ByPath(a: File, b: File) {
    StringLe(a.path, b.path)
  }

  function Line(f: File): string {
    f.sum + "  " + f.path + "\n"
  }

  function Lines(files: seq<File>): string {
    if files == [] then "" else Line(files[0]) + Lines(files[1..])
  }

  datatype Manifest = Unsafe(path: string) | Text(text: string)

  function FirstUnsafe(files: seq<File>): (r: Option<string>)
    ensures r.None? <==> AllSafe(files)
    ensures r.Some? ==>
      exists k :: 0 <= k < |files| && files[k].path == r.value && !IsSafe(r.value) && AllSafe(files[..k])
  {
    if files == [] then None
    else if !IsSafe(files[0].path) then Some(files[0].path)
    else
      var r := FirstUnsafe(files[1..]);
      assert r.Some? ==> exists k :: 0 < k < |files| && files[k].path == r.value && !IsSafe(r.value) && AllSafe(files[..k]) by {
        if r.Some? {
          var k :| 0 <= k < |files[1..]| && files[1..][k].path == r.value && !IsSafe(r.value) && AllSafe(files[1..][..k]);
          assert files[..k + 1] == [files[0]] + files[1..][..k] && files[k + 1] == files[1..][k];
        }
      }
      r
  }

  function ManifestOf(files: seq<File>): Manifest {
    var unsafe := FirstUnsafe(files);
    if unsafe.Some? then Unsafe(unsafe.value) else Text(Lines(Sort(ByPath, files)))
  }

  // ----- Reading a manifest -----

  function NewlineAt(s: string): (n: nat)
    ensures n <= |s| && '\n' !in s[..n] && (n < |s| ==> s[n] == '\n')
  {
    if s == [] || s[0] == '\n' then 0 else 1 + NewlineAt(s[1..])
  }

  function ReadLines(text: string): Option<seq<File>>
    decreases |text|
  {
    if text == "" then Some([])
    else if |text| < 67 || text[64..66] != "  " then None
    else
      var end := 66 + NewlineAt(text[66..]);
      if end == |text| then None
      else
        var rest := ReadLines(text[end + 1..]);
        if rest.None? then None else Some([File(text[66..end], text[..64])] + rest.value)
  }

  lemma NewlineEnds(path: string, rest: string)
    requires '\n' !in path
    ensures NewlineAt(path + "\n" + rest) == |path|
  {
    var s := path + "\n" + rest;
    var n := NewlineAt(s);
    assert s[|path|] == '\n';
    assert forall i :: 0 <= i < |path| ==> s[i] == path[i];
    assert forall i :: 0 <= i < n ==> s[..n][i] == s[i];
  }

  lemma LineReads(f: File, rest: string)
    requires |f.sum| == 64 && IsSafe(f.path)
    ensures var text := Line(f) + rest;
      && |text| >= 67 && text[64..66] == "  " && text[..64] == f.sum
      && var end := 66 + NewlineAt(text[66..]); end < |text| && text[66..end] == f.path && text[end + 1..] == rest
  {
    var text := Line(f) + rest;
    assert text == f.sum + "  " + (f.path + "\n" + rest);
    assert text[66..] == f.path + "\n" + rest;
    NewlineEnds(f.path, rest);
  }

  /** A manifest reads back as the files it was written from. */
  lemma {:induction false} LinesReadBack(files: seq<File>)
    requires AllSafe(files) && forall i :: 0 <= i < |files| ==> |files[i].sum| == 64
    ensures ReadLines(Lines(files)) == Some(files)
  {
    if files != [] {
      LinesReadBack(files[1..]);
      LineReads(files[0], Lines(files[1..]));
      assert files == [files[0]] + files[1..];
    }
  }

  // ----- One manifest per tree -----

  predicate StrictlyByPath(files: seq<File>) {
    forall i, j :: 0 <= i < j < |files| ==> ByPath(files[i], files[j]) && files[i].path != files[j].path
  }

  lemma ByPathOrders()
    ensures TotalPreorder(ByPath)
  {
    forall a, b ensures ByPath(a, b) || ByPath(b, a) { StringLeTotal(a.path, b.path); }
    forall a, b, c | ByPath(a, b) && ByPath(b, c) ensures ByPath(a, c) {
      StringLeTransitive(a.path, b.path, c.path);
    }
  }

  lemma SortedByPath(files: seq<File>)
    requires IsListing(files)
    ensures StrictlyByPath(Sort(ByPath, files))
    ensures forall f :: f in Sort(ByPath, files) <==> f in files
  {
    ByPathOrders();
    SortSorts(ByPath, files);
    var sorted := Sort(ByPath, files);
    assert forall f :: f in sorted <==> f in multiset(sorted);
    assert forall f :: f in files <==> f in multiset(files);
    forall i, j | 0 <= i < j < |sorted| ensures sorted[i].path != sorted[j].path {
      PathsStayDistinct(files, sorted, i, j);
    }
  }

  lemma PathsStayDistinct(files: seq<File>, sorted: seq<File>, i: nat, j: nat)
    requires IsListing(files) && multiset(sorted) == multiset(files) && i < j < |sorted|
    ensures sorted[i].path != sorted[j].path
  {
    assert sorted == sorted[..j] + ([sorted[j]] + sorted[j + 1..]);
    assert sorted[..j][i] in multiset(sorted[..j]);
    assert multiset(sorted) == multiset(sorted[..j]) + multiset([sorted[j]] + sorted[j + 1..]);
    assert multiset([sorted[j]] + sorted[j + 1..]) == multiset{sorted[j]} + multiset(sorted[j + 1..]);
    if sorted[i] == sorted[j] {
      assert multiset(sorted)[sorted[i]] >= 2;
      ListedOnce(files, sorted[i]);
    } else {
      assert sorted[i] in multiset(files) && sorted[j] in multiset(files);
    }
  }

  lemma {:induction false} ListedOnce(files: seq<File>, f: File)
    requires IsListing(files)
    ensures multiset(files)[f] <= 1
  {
    if files != [] {
      ListedOnce(files[1..], f);
      assert files == [files[0]] + files[1..];
      if f == files[0] {
        assert f !in files[1..];
        assert f !in multiset(files[1..]);
      }
    }
  }

  /** Strictly ordered listings with the same files are the same. */
  lemma {:induction false} StrictIsUnique(a: seq<File>, b: seq<File>)
    requires StrictlyByPath(a) && StrictlyByPath(b) && forall f :: f in a <==> f in b
    ensures a == b
  {
    HoldSome(a, b);
    if a != [] {
      assert a[0] in b && b[0] in a;
      FirstIsFirst(a, b);
      forall g ensures g in a[1..] <==> g in b[1..] {
        TailHolds(a, g);
        TailHolds(b, g);
      }
      StrictIsUnique(a[1..], b[1..]);
      assert a == [a[0]] + a[1..] && b == [b[0]] + b[1..];
    }
  }

  lemma HoldSome(a: seq<File>, b: seq<File>)
    requires forall f :: f in b ==> f in a
    ensures b != [] ==> a != []
  {
    if b != [] { assert b[0] in a; }
  }

  lemma FirstIsFirst(a: seq<File>, b: seq<File>)
    requires StrictlyByPath(a) && StrictlyByPath(b) && a != [] && b != [] && a[0] in b && b[0] in a
    ensures a[0] == b[0]
  {
    var i :| 0 <= i < |b| && b[i] == a[0];
    var j :| 0 <= j < |a| && a[j] == b[0];
    if i > 0 && j > 0 {
      assert ByPath(b[0], b[i]) && ByPath(a[0], a[j]);
      StringLeTotal(a[0].path, b[0].path);
    }
  }

  lemma TailHolds(s: seq<File>, f: File)
    requires StrictlyByPath(s) && s != []
    ensures f in s[1..] <==> f in s && f != s[0]
  {
    assert s == [s[0]] + s[1..];
    if f in s[1..] {
      var k :| 0 <= k < |s[1..]| && s[1..][k] == f;
      assert s[0].path != s[k + 1].path;
    }
  }

  /** The files of a tree with their checksums. */
  function Tree(files: seq<File>): set<File> {
    set f | f in files
  }

  /** The order of listing does not matter, and nothing else is lost: two listings get the same
      manifest exactly when they hold the same paths with the same checksums. */
  lemma ManifestIff(a: seq<File>, b: seq<File>)
    requires IsListing(a) && IsListing(b) && AllSafe(a) && AllSafe(b)
    ensures ManifestOf(a) == ManifestOf(b) <==> Tree(a) == Tree(b)
  {
    var sa, sb := Sort(ByPath, a), Sort(ByPath, b);
    SortedByPath(a);
    SortedByPath(b);
    if Tree(a) == Tree(b) {
      forall f ensures f in sa <==> f in sb { assert f in Tree(a) <==> f in Tree(b); }
      StrictIsUnique(sa, sb);
    }
    if ManifestOf(a) == ManifestOf(b) {
      SortKeepsShape(a);
      SortKeepsShape(b);
      LinesReadBack(sa);
      LinesReadBack(sb);
      assert sa == sb;
    }
  }

  /** A listing is refused exactly when a path holds a newline or a backslash. */
  lemma RefusedIff(files: seq<File>)
    ensures ManifestOf(files).Unsafe? <==> exists f :: f in files && ('\n' in f.path || '\\' in f.path)
  {
    if FirstUnsafe(files).Some? {
      var k :| 0 <= k < |files| && files[k].path == FirstUnsafe(files).value;
      assert files[k] in files;
    } else {
      forall f | f in files ensures IsSafe(f.path) {
        var k :| 0 <= k < |files| && files[k] == f;
      }
    }
  }

  /** The manifest lists the files by path, in the order of strings. */
  lemma ManifestIsInOrder(files: seq<File>)
    requires IsListing(files) && AllSafe(files)
    ensures ManifestOf(files).Text? && ReadLines(ManifestOf(files).text).Some?
    ensures var read := ReadLines(ManifestOf(files).text).value;
      && (forall f :: f in read <==> f in files)
      && forall i, j :: 0 <= i < j < |read| ==> StringLe(read[i].path, read[j].path) && read[i].path != read[j].path
  {
    SortedByPath(files);
    SortKeepsShape(files);
    LinesReadBack(Sort(ByPath, files));
  }

  lemma SortKeepsShape(files: seq<File>)
    requires IsListing(files) && AllSafe(files)
    ensures var s := Sort(ByPath, files); AllSafe(s) && forall i :: 0 <= i < |s| ==> |s[i].sum| == 64
  {
    SortedByPath(files);
    var s := Sort(ByPath, files);
    forall i | 0 <= i < |s| ensures IsSafe(s[i].path) && |s[i].sum| == 64 {
      assert s[i] in files;
    }
  }

  /** With a newline allowed in a path the manifest would not be injective: one file whose path
      holds a whole line reads as two. */
  lemma NewlineWouldConfuse(a: File, b: File)
    ensures Lines([File(a.path + "\n" + b.sum + "  " + b.path, a.sum)]) == Lines([a, b])
  {
    var joined := File(a.path + "\n" + b.sum + "  " + b.path, a.sum);
    assert [joined][1..] == [] && [a, b][1..] == [b] && [b][1..] == [];
    assert Line(joined) == Line(a) + Line(b);
    assert Lines([b]) == Line(b) + "";
  }
}
