/**
 `renderEnvFile` of `scripts/setup_verify_env.ts`: the managed keys of a hand-edited shell
 file are set in place or appended, everything else is kept.
 */
module EnvFile {
  import opened Options
  import opened Text

  /** An entry of the `updates` map, in the map's order. */
  datatype Update = Update(key: string, value: string)

  /** The keys of a map are distinct. */
  predicate AreUpdates(updates: seq<Update>) {
    forall i, j :: 0 <= i < j < |updates| ==> updates[i].key != updates[j].key
  }

  function ValueOf(updates: seq<Update>, key: string): (r: Option<string>)
    ensures r.None? <==> forall i :: 0 <= i < |updates| ==> updates[i].key != key
    ensures r.Some? ==> Update(key, r.value) in updates
  {
    if updates == [] then None
    else if updates[0].key == key then Some(updates[0].value)
    else ValueOf(updates[1..], key)
  }

  // ----- Lines -----

  predicate IsKeyStart(c: char) {
    'a' <= c <= 'z' || 'A' <= c <= 'Z' || c == '_'
  }

  predicate IsKeyChar(c: char) {
    IsKeyStart(c) || '0' <= c <= '9'
  }

  predicate IsIdentifier(s: string) {
    s != "" && IsKeyStart(s[0]) && forall i :: 0 <= i < |s| ==> IsKeyChar(s[i])
  }

  function SkipBlanks(s: string): (r: string)
    ensures r == "" || !IsBlank(r[0])
    ensures r == "" ==> AllBlank(s)
    ensures AllBlank(s) ==> r == ""
  {
    if s == "" then "" else if IsBlank(s[0]) then SkipBlanks(s[1..]) else s
  }

  function KeyLength(s: string): (n: nat)
    ensures n <= |s| && forall i :: 0 <= i < n ==> IsKeyChar(s[i])
    ensures n < |s| ==> !IsKeyChar(s[n])
  {
    if s == "" || !IsKeyChar(s[0]) then 0 else 1 + KeyLength(s[1..])
  }

  /** The key a line assigns: blanks, an identifier, blanks and `=`. */
  function KeyOf(line: string): (r: Option<string>)
    ensures r.Some? ==> IsIdentifier(r.value) && !AllBlank(line)
  {
    var t := SkipBlanks(line);
    if t == "" || !IsKeyStart(t[0]) then None
    else
      var n := KeyLength(t);
      var rest := SkipBlanks(t[n..]);
      if rest != "" && rest[0] == '=' then Some(t[..n]) else None
  }

  /** A line assigns a key exactly when it is the key, an identifier, with blanks around it and an
      equals sign. */
  lemma KeyOfIff(line: string, key: string)
    ensures KeyOf(line) == Some(key) <==>
      exists before, after, rest :: IsAssignmentOf(line, key, before, after, rest)
  {
    if KeyOf(line) == Some(key) {
      var before, after, rest := KeyStands(line, key);
    }
    if exists b, after, rest :: IsAssignmentOf(line, key, b, after, rest) {
      var b, after, rest :| IsAssignmentOf(line, key, b, after, rest);
      KeyIsFound(line, key, b, after, rest);
    }
  }

  lemma KeyStands(line: string, key: string) returns (before: string, after: string, rest: string)
    requires KeyOf(line) == Some(key)
    ensures IsAssignmentOf(line, key, before, after, rest)
  {
    before := SkippedBlanks(line);
    var t := SkipBlanks(line);
    after, rest := KeySplits(t, key);
    assert line == before + (key + (after + ("=" + rest)));
    Associates(before, key, after, "=", rest);
  }

  lemma KeySplits(t: string, key: string) returns (after: string, rest: string)
    requires t != "" && IsKeyStart(t[0]) && key == t[..KeyLength(t)]
    requires var behind := SkipBlanks(t[KeyLength(t)..]); behind != "" && behind[0] == '='
    ensures t == key + (after + ("=" + rest)) && AllBlank(after)
  {
    var behind := t[KeyLength(t)..];
    after := SkippedBlanks(behind);
    rest := SkipBlanks(behind)[1..];
    assert SkipBlanks(behind) == "=" + rest;
    assert t == key + behind;
  }

  lemma Associates(a: string, b: string, c: string, d: string, e: string)
    ensures a + b + c + d + e == a + (b + (c + (d + e)))
  {
  }

  lemma KeyIsFound(line: string, key: string, before: string, after: string, rest: string)
    requires IsAssignmentOf(line, key, before, after, rest)
    ensures KeyOf(line) == Some(key)
  {
    Associates(before, key, after, "=", rest);
    var behind := after + ("=" + rest);
    BlanksAreSkipped(before, key + behind);
    assert behind[0] == if after == "" then '=' else after[0];
    assert !IsKeyChar(behind[0]);
    KeyEnds(key, behind);
    assert (key + behind)[..|key|] == key && (key + behind)[|key|..] == behind;
    BlanksAreSkipped(after, "=" + rest);
  }

  predicate IsAssignmentOf(line: string, key: string, before: string, after: string, rest: string) {
    line == before + key + after + "=" + rest && AllBlank(before) && AllBlank(after) && IsIdentifier(key)
  }

  lemma {:induction false} SkippedBlanks(s: string) returns (before: string)
    ensures AllBlank(before) && s == before + SkipBlanks(s)
  {
    before := "";
    if s != "" && IsBlank(s[0]) {
      before := SkippedBlanks(s[1..]);
      assert s == [s[0]] + (before + SkipBlanks(s[1..]));
      before := [s[0]] + before;
    }
  }

  lemma {:induction false} BlanksAreSkipped(before: string, s: string)
    requires AllBlank(before) && s != "" && !IsBlank(s[0])
    ensures SkipBlanks(before + s) == s
  {
    if before == "" {
      assert before + s == s;
    } else {
      assert (before + s)[1..] == before[1..] + s;
      BlanksAreSkipped(before[1..], s);
    }
  }

  lemma {:induction false} KeyEnds(key: string, rest: string)
    requires (forall i :: 0 <= i < |key| ==> IsKeyChar(key[i])) && (rest == "" || !IsKeyChar(rest[0]))
    ensures KeyLength(key + rest) == |key|
  {
    if key == "" {
      assert key + rest == rest;
    } else {
      assert (key + rest)[1..] == key[1..] + rest;
      KeyEnds(key[1..], rest);
    }
  }

  function Escape(value: string): string {
    if value == "" then ""
    else if value[0] == '\'' then "'\\''" + Escape(value[1..])
    else [value[0]] + Escape(value[1..])
  }

  function Quote(value: string): string {
    "'" + Escape(value) + "'"
  }

  function Assignment(key: string, value: string): string {
    key + "=" + Quote(value)
  }

  /** The line with its key set, if the key is managed. */
  function RenderLine(updates: seq<Update>, line: string): string {
    var key := KeyOf(line);
    if key.None? then line
    else
      var value := ValueOf(updates, key.value);
      if value.None? then line else Assignment(key.value, value.value)
  }

  function RenderLines(updates: seq<Update>, lines: seq<string>): (r: seq<string>)
    ensures |r| == |lines| && forall i :: 0 <= i < |r| ==> r[i] == RenderLine(updates, lines[i])
  {
    seq(|lines|, i requires 0 <= i < |lines| => RenderLine(updates, lines[i]))
  }

  function LinesOf(existing: string): seq<string> {
    if existing == "" then [] else Split(existing, '\n')
  }

  predicate IsApplied(lines: seq<string>, key: string) {
    exists i :: 0 <= i < |lines| && KeyOf(lines[i]) == Some(key)
  }

  /** The lines appended for the keys that no line assigns. */
  function Appended(updates: seq<Update>, lines: seq<string>): seq<string> {
    if updates == [] then []
    else
      var init, last := Appended(updates[..|updates| - 1], lines), updates[|updates| - 1];
      if IsApplied(lines, last.key) then init else init + [Assignment(last.key, last.value)]
  }

  function DropTrailingBlanks(lines: seq<string>): (r: seq<string>)
    ensures r <= lines && (r != [] ==> Trim(r[|r| - 1]) != "")
    ensures forall i :: |r| <= i < |lines| ==> Trim(lines[i]) == ""
  {
    if lines != [] && Trim(lines[|lines| - 1]) == "" then DropTrailingBlanks(lines[..|lines| - 1]) else lines
  }

  /** The rendered lines: the existing ones with managed keys set, without trailing blank ones, and
      then the keys that no line assigned. */
  function Rendered(existing: string, updates: seq<Update>): seq<string> {
    var lines := LinesOf(existing);
    DropTrailingBlanks(RenderLines(updates, lines)) + Appended(updates, lines)
  }

  function Render(existing: string, updates: seq<Update>): string {
    Join(Rendered(existing, updates), "\n") + "\n"
  }

  /** The managed keys that lines assign. */
  function AppliedKeys(updates: seq<Update>, lines: seq<string>): set<string> {
    if lines == [] then {}
    else
      var key := KeyOf(lines[|lines| - 1]);
      AppliedKeys(updates, lines[..|lines| - 1])
      + (if key.Some? && ValueOf(updates, key.value).Some? then {key.value} else {})
  }

  lemma {:induction false} AppliedKeysIff(updates: seq<Update>, lines: seq<string>, key: string)
    ensures key in AppliedKeys(updates, lines) <==> IsApplied(lines, key) && ValueOf(updates, key).Some?
  {
    if lines != [] {
      var init := lines[..|lines| - 1];
      AppliedKeysIff(updates, init, key);
      AppliedStep(lines, |lines| - 1, key);
      assert lines[..|lines|] == lines;
    }
  }

  method SetInPlace(updates: seq<Update>, lines: seq<string>) returns (rendered: seq<string>, applied: set<string>)
    ensures rendered == RenderLines(updates, lines) && applied == AppliedKeys(updates, lines)
  {
    rendered, applied := [], {};
    for i := 0 to |lines|
      invariant rendered == RenderLines(updates, lines[..i])
      invariant applied == AppliedKeys(updates, lines[..i])
    {
      LineSteps(updates, lines, i);
      var key := KeyOf(lines[i]);
      if key.Some? && ValueOf(updates, key.value).Some? {
        applied := applied + {key.value};
      }
      rendered := rendered + [RenderLine(updates, lines[i])];
    }
    assert lines[..|lines|] == lines;
  }

  lemma LineSteps(updates: seq<Update>, lines: seq<string>, i: nat)
    requires i < |lines|
    ensures RenderLines(updates, lines[..i + 1]) == RenderLines(updates, lines[..i]) + [RenderLine(updates, lines[i])]
    ensures var key := KeyOf(lines[i]);
      AppliedKeys(updates, lines[..i + 1]) == AppliedKeys(updates, lines[..i])
        + (if key.Some? && ValueOf(updates, key.value).Some? then {key.value} else {})
  {
    assert lines[..i + 1][..i] == lines[..i];
    RenderConcat(updates, lines[..i], [lines[i]]);
    assert lines[..i] + [lines[i]] == lines[..i + 1];
    assert RenderLines(updates, [lines[i]]) == [RenderLine(updates, lines[i])];
  }

  lemma RenderConcat(updates: seq<Update>, a: seq<string>, b: seq<string>)
    ensures RenderLines(updates, a + b) == RenderLines(updates, a) + RenderLines(updates, b)
  {
  }

  method PopBlanks(lines: seq<string>) returns (rendered: seq<string>)
    ensures rendered == DropTrailingBlanks(lines)
  {
    rendered := lines;
    while rendered != [] && Trim(rendered[|rendered| - 1]) == ""
      invariant DropTrailingBlanks(rendered) == DropTrailingBlanks(lines)
    {
      rendered := rendered[..|rendered| - 1];
    }
  }

  method AppendMissing(updates: seq<Update>, applied: set<string>, before: seq<string>, ghost lines: seq<string>)
    returns (rendered: seq<string>)
    requires applied == AppliedKeys(updates, lines)
    ensures rendered == before + Appended(updates, lines)
  {
    rendered := before;
    for i := 0 to |updates|
      invariant rendered == before + Appended(updates[..i], lines)
    {
      AppendStep(updates, lines, i);
      AppliedKeysIff(updates, lines, updates[i].key);
      if updates[i].key !in applied {
        rendered := rendered + [Assignment(updates[i].key, updates[i].value)];
      }
    }
    assert updates[..|updates|] == updates;
  }

  lemma AppendStep(updates: seq<Update>, lines: seq<string>, i: nat)
    requires i < |updates|
    ensures Appended(updates[..i + 1], lines) == Appended(updates[..i], lines)
      + (if IsApplied(lines, updates[i].key) then [] else [Assignment(updates[i].key, updates[i].value)])
  {
    assert updates[..i + 1][..i] == updates[..i];
  }

  method RenderEnvFile(existing: string, updates: seq<Update>) returns (text: string)
    ensures text == Render(existing, updates)
  {
    var lines := LinesOf(existing);
    var rendered, applied := SetInPlace(updates, lines);
    rendered := PopBlanks(rendered);
    rendered := AppendMissing(updates, applied, rendered, lines);
    text := Join(rendered, "\n") + "\n";
  }

  lemma AppliedStep(lines: seq<string>, i: nat, key: string)
    requires i < |lines|
    ensures IsApplied(lines[..i + 1], key) <==> IsApplied(lines[..i], key) || KeyOf(lines[i]) == Some(key)
  {
    var before, after := lines[..i], lines[..i + 1];
    assert after == before + [lines[i]];
    if IsApplied(before, key) {
      var k :| 0 <= k < |before| && KeyOf(before[k]) == Some(key);
      assert after[k] == before[k];
    }
    if KeyOf(lines[i]) == Some(key) { assert after[i] == lines[i]; }
  }

  // ----- Quoting -----

  /** A character that stands for itself in a shell word. */
  predicate IsOrdinary(c: char) {
    IsKeyChar(c) || c in "./:-+@%,"
  }

  /** What a shell word means, by the rules of quote removal (section 2.2 of the POSIX Shell
      Command Language): a backslash keeps the next character, and between single quotes every
      character stands for itself. */
  function Decode(word: string): Option<string>
    decreases |word|
  {
    if word == "" then Some("")
    else if word[0] == '\'' then DecodeQuoted(word[1..])
    else if word[0] == '\\' then
      if |word| == 1 || word[1] == '\n' then None else Prepend(word[1], Decode(word[2..]))
    else if IsOrdinary(word[0]) then Prepend(word[0], Decode(word[1..]))
    else None
  }

  function DecodeQuoted(word: string): Option<string>
    decreases |word|
  {
    if word == "" then None
    else if word[0] == '\'' then Decode(word[1..])
    else Prepend(word[0], DecodeQuoted(word[1..]))
  }

  function Prepend(c: char, r: Option<string>): Option<string> {
    if r.Some? then Some([c] + r.value) else None
  }

  /** Closing the quotes, an escaped quote, and opening them again stands for one quote. */
  lemma EscapedQuote(rest: string)
    ensures DecodeQuoted("'\\''" + rest) == Prepend('\'', DecodeQuoted(rest))
  {
    var word := "'\\''" + rest;
    var w1, w2 := word[1..], word[3..];
    assert w1[0] == '\\' && w1[1] == '\'' && w1[2..] == w2;
    assert w2[0] == '\'' && w2[1..] == rest;
    assert word[0] == '\'' && DecodeQuoted(word) == Decode(w1);
    assert Decode(w1) == Prepend('\'', Decode(w2));
  }

  lemma {:induction false} EscapeDecodes(value: string)
    ensures DecodeQuoted(Escape(value) + "'") == Some(value)
  {
    if value == "" {
      assert Escape(value) + "'" == "'";
      assert Decode("'"[1..]) == Some("");
    } else {
      var rest := Escape(value[1..]) + "'";
      EscapeDecodes(value[1..]);
      assert value == [value[0]] + value[1..];
      if value[0] == '\'' {
        EscapedQuote(rest);
        assert Escape(value) + "'" == "'\\''" + rest;
      } else {
        assert (Escape(value) + "'")[1..] == rest;
      }
    }
  }

  /** A shell reads a quoted value back as the value, whatever it holds. */
  lemma QuoteDecodes(value: string)
    ensures Decode(Quote(value)) == Some(value)
  {
    EscapeDecodes(value);
    assert Quote(value)[1..] == Escape(value) + "'";
  }

  lemma {:induction false} EscapeKeepsNewlines(value: string)
    ensures '\n' in Escape(value) <==> '\n' in value
  {
    if value != "" {
      EscapeKeepsNewlines(value[1..]);
      assert value == [value[0]] + value[1..];
    }
  }

  // ----- Assignments are lines of their key -----

  lemma {:induction false} KeyLengthOf(key: string, rest: string)
    requires (forall i :: 0 <= i < |key| ==> IsKeyChar(key[i])) && rest != "" && !IsKeyChar(rest[0])
    ensures KeyLength(key + rest) == |key|
  {
    var n := KeyLength(key + rest);
    assert forall i :: 0 <= i < |key| ==> (key + rest)[i] == key[i];
    assert (key + rest)[|key|] == rest[0];
  }

  lemma KeyOfAssignment(key: string, value: string)
    requires IsIdentifier(key)
    ensures KeyOf(Assignment(key, value)) == Some(key)
  {
    var rest := "=" + Quote(value);
    var line := key + rest;
    assert Assignment(key, value) == line;
    KeyLengthOf(key, rest);
    assert line[0] == key[0];
    assert !IsBlank(line[0]);
    assert SkipBlanks(line) == line;
    assert line[|key|..] == rest;
    assert SkipBlanks(rest) == rest;
  }

  lemma AssignmentIsNotBlank(key: string, value: string)
    ensures Trim(Assignment(key, value)) != ""
  {
    var line := Assignment(key, value);
    TrimIsEmpty(line);
    assert line[|key|] == '=';
  }

  // ----- What is kept -----

  predicate IsManaged(updates: seq<Update>, line: string) {
    KeyOf(line).Some? && ValueOf(updates, KeyOf(line).value).Some?
  }

  /** How many of the existing lines are kept. */
  function KeptLines(existing: string, updates: seq<Update>): nat {
    |DropTrailingBlanks(RenderLines(updates, LinesOf(existing)))|
  }

  lemma RenderedIsBlank(updates: seq<Update>, line: string)
    ensures Trim(RenderLine(updates, line)) == "" <==> Trim(line) == ""
  {
    TrimIsEmpty(line);
    if IsManaged(updates, line) {
      AssignmentIsNotBlank(KeyOf(line).value, ValueOf(updates, KeyOf(line).value).value);
    }
  }

  /** Every line that assigns no managed key is kept verbatim at its place, but for blank lines at
      the end; the lines appended come behind all of them. */
  lemma KeepsTheRest(existing: string, updates: seq<Update>)
    ensures var lines, kept := LinesOf(existing), KeptLines(existing, updates);
      && kept <= |lines|
      && Rendered(existing, updates) == RenderLines(updates, lines[..kept]) + Appended(updates, lines)
      && (forall i :: 0 <= i < kept && !IsManaged(updates, lines[i]) ==> Rendered(existing, updates)[i] == lines[i])
      && (forall i :: kept <= i < |lines| ==> Trim(lines[i]) == "")
  {
    var lines, kept := LinesOf(existing), KeptLines(existing, updates);
    var rendered := RenderLines(updates, lines);
    assert DropTrailingBlanks(rendered) == rendered[..kept] == RenderLines(updates, lines[..kept]);
    forall i | kept <= i < |lines| ensures Trim(lines[i]) == "" {
      RenderedIsBlank(updates, lines[i]);
    }
  }

  // ----- What is assigned -----

  lemma {:induction false} ValueIsUnique(updates: seq<Update>, k: nat)
    requires AreUpdates(updates) && k < |updates|
    ensures ValueOf(updates, updates[k].key) == Some(updates[k].value)
  {
    if k > 0 {
      ValueIsUnique(updates[1..], k - 1);
    }
  }

  lemma {:induction false} AppendedIff(updates: seq<Update>, lines: seq<string>, line: string)
    ensures line in Appended(updates, lines) <==>
      exists k :: 0 <= k < |updates| && !IsApplied(lines, updates[k].key)
                  && line == Assignment(updates[k].key, updates[k].value)
  {
    if updates != [] {
      var init := updates[..|updates| - 1];
      AppendedIff(init, lines, line);
      assert updates == init + [updates[|updates| - 1]];
      if k: int :| 0 <= k < |init| && !IsApplied(lines, init[k].key) && line == Assignment(init[k].key, init[k].value) {
        assert updates[k] == init[k];
      }
    }
  }

  /** The updates that no line applies, by index. */
  function Missing(updates: seq<Update>, lines: seq<string>): seq<nat> {
    if updates == [] then []
    else
      var init := Missing(updates[..|updates| - 1], lines);
      if IsApplied(lines, updates[|updates| - 1].key) then init else init + [|updates| - 1]
  }

  lemma {:induction false} MissingIff(updates: seq<Update>, lines: seq<string>)
    ensures forall k: nat :: k in Missing(updates, lines) <==> k < |updates| && !IsApplied(lines, updates[k].key)
    ensures forall i, j :: 0 <= i < j < |Missing(updates, lines)| ==> Missing(updates, lines)[i] < Missing(updates, lines)[j]
    decreases |updates|
  {
    if updates != [] {
      var init := updates[..|updates| - 1];
      MissingIff(init, lines);
      forall i | 0 <= i < |Missing(init, lines)| ensures Missing(init, lines)[i] < |init| {
        assert Missing(init, lines)[i] in Missing(init, lines);
      }
    }
  }

  predicate IsAssigned(updates: seq<Update>, k: nat, line: string) {
    k < |updates| && line == Assignment(updates[k].key, updates[k].value)
  }

  /** The lines appended are those of the updates no line applies, in their order. */
  lemma {:induction false} AppendedAreMissing(updates: seq<Update>, lines: seq<string>)
    ensures |Appended(updates, lines)| == |Missing(updates, lines)|
    ensures forall i :: 0 <= i < |Appended(updates, lines)| ==> IsAssigned(updates, Missing(updates, lines)[i], Appended(updates, lines)[i])
    decreases |updates|
  {
    if updates != [] {
      var init := updates[..|updates| - 1];
      AppendedAreMissing(init, lines);
      forall i | 0 <= i < |Appended(init, lines)| ensures IsAssigned(updates, Missing(init, lines)[i], Appended(init, lines)[i]) {
        assert IsAssigned(init, Missing(init, lines)[i], Appended(init, lines)[i]);
      }
    }
  }

  predicate AllApplied(updates: seq<Update>, lines: seq<string>) {
    forall k :: 0 <= k < |updates| ==> IsApplied(lines, updates[k].key)
  }

  lemma {:induction false} AppendedNothing(updates: seq<Update>, lines: seq<string>)
    ensures Appended(updates, lines) == [] <==> AllApplied(updates, lines)
  {
    if updates != [] {
      var init, last := updates[..|updates| - 1], updates[|updates| - 1];
      AppendedNothing(init, lines);
      assert updates == init + [last];
      assert AllApplied(updates, lines) <==> AllApplied(init, lines) && IsApplied(lines, last.key) by {
        if AllApplied(updates, lines) {
          assert forall k :: 0 <= k < |init| ==> init[k] == updates[k];
        }
      }
    }
  }

  /** Every managed line is kept. */
  lemma AppliedIsKept(existing: string, updates: seq<Update>, i: nat)
    requires i < |LinesOf(existing)| && IsManaged(updates, LinesOf(existing)[i])
    ensures i < KeptLines(existing, updates)
  {
    var line := LinesOf(existing)[i];
    TrimIsEmpty(line);
    KeepsTheRest(existing, updates);
  }

  /** Each managed key is assigned by some line, and every line that assigns it assigns the quoted
      value. */
  lemma AssignsManaged(existing: string, updates: seq<Update>, k: nat)
    requires AreUpdates(updates) && AreIdentifiers(updates) && k < |updates|
    ensures Assignment(updates[k].key, updates[k].value) in Rendered(existing, updates)
    ensures forall line :: line in Rendered(existing, updates) && KeyOf(line) == Some(updates[k].key) ==>
      line == Assignment(updates[k].key, updates[k].value)
  {
    var key, lines := updates[k].key, LinesOf(existing);
    var kept, all := KeptLines(existing, updates), Rendered(existing, updates);
    ValueIsUnique(updates, k);
    KeepsTheRest(existing, updates);
    var wanted := Assignment(key, updates[k].value);
    if IsApplied(lines, key) {
      var i :| 0 <= i < |lines| && KeyOf(lines[i]) == Some(key);
      AppliedIsKept(existing, updates, i);
      assert all[i] == RenderLine(updates, lines[..kept][i]) == wanted;
    } else {
      AppendedIff(updates, lines, wanted);
    }
    forall line | line in all && KeyOf(line) == Some(key) ensures line == wanted {
      LineOfKey(existing, updates, k, line);
    }
  }

  predicate AreIdentifiers(updates: seq<Update>) {
    forall j :: 0 <= j < |updates| ==> IsIdentifier(updates[j].key)
  }

  lemma LineOfKey(existing: string, updates: seq<Update>, k: nat, line: string)
    requires AreUpdates(updates) && AreIdentifiers(updates) && k < |updates|
    requires line in Rendered(existing, updates) && KeyOf(line) == Some(updates[k].key)
    ensures line == Assignment(updates[k].key, updates[k].value)
  {
    var lines := LinesOf(existing);
    KeepsTheRest(existing, updates);
    if line in Appended(updates, lines) {
      AppendedOfKey(updates, lines, k, line);
    } else {
      BodyOfKey(updates, lines[..KeptLines(existing, updates)], k, line);
    }
  }

  lemma BodyOfKey(updates: seq<Update>, kept: seq<string>, k: nat, line: string)
    requires AreUpdates(updates) && k < |updates|
    requires line in RenderLines(updates, kept) && KeyOf(line) == Some(updates[k].key)
    ensures line == Assignment(updates[k].key, updates[k].value)
  {
    var i :| 0 <= i < |kept| && RenderLines(updates, kept)[i] == line;
    RenderedOfKey(updates, k, kept[i]);
  }

  lemma AppendedOfKey(updates: seq<Update>, lines: seq<string>, k: nat, line: string)
    requires AreUpdates(updates) && AreIdentifiers(updates) && k < |updates|
    requires line in Appended(updates, lines) && KeyOf(line) == Some(updates[k].key)
    ensures line == Assignment(updates[k].key, updates[k].value)
  {
    AppendedIff(updates, lines, line);
    var j :| 0 <= j < |updates| && !IsApplied(lines, updates[j].key)
             && line == Assignment(updates[j].key, updates[j].value);
    KeyOfAssignment(updates[j].key, updates[j].value);
    ValueIsUnique(updates, j);
    ValueIsUnique(updates, k);
  }

  lemma RenderedOfKey(updates: seq<Update>, k: nat, line: string)
    requires AreUpdates(updates) && k < |updates| && KeyOf(RenderLine(updates, line)) == Some(updates[k].key)
    ensures RenderLine(updates, line) == Assignment(updates[k].key, updates[k].value)
  {
    ValueIsUnique(updates, k);
    if IsManaged(updates, line) {
      KeyOfAssignment(KeyOf(line).value, ValueOf(updates, KeyOf(line).value).value);
    }
  }

  // ----- Rendering again -----

  predicate IsPlain(u: Update) {
    IsIdentifier(u.key) && '\n' !in u.value
  }

  predicate ArePlain(updates: seq<Update>) {
    forall k :: 0 <= k < |updates| ==> IsPlain(updates[k])
  }

  lemma SplitFile(parts: seq<string>)
    requires parts != []
    ensures Split(Join(parts, "\n") + "\n", '\n') == LinesOfParts(parts) + [""]
  {
    SplitIntoLines(parts);
    SplitConcat(Join(parts, "\n"), '\n', "");
    assert Join(parts, "\n") + ['\n'] + "" == Join(parts, "\n") + "\n";
  }

  lemma {:induction false} LastLine(parts: seq<string>)
    requires parts != []
    ensures var lines := Split(parts[|parts| - 1], '\n');
      LinesOfParts(parts)[|LinesOfParts(parts)| - 1] == lines[|lines| - 1]
  {
    if |parts| > 1 {
      LastLine(parts[1..]);
    } else {
      assert LinesOfParts(parts[1..]) == [];
    }
  }

  /** A part of the rendered file is one line, or an assignment (whose value may hold newlines). */
  ghost predicate IsPart(updates: seq<Update>, part: string) {
    '\n' !in part || exists u: Update :: u in updates && part == Assignment(u.key, u.value)
  }

  lemma RenderedPart(existing: string, updates: seq<Update>, i: nat)
    requires i < |Rendered(existing, updates)|
    ensures IsPart(updates, Rendered(existing, updates)[i])
  {
    var lines, kept := LinesOf(existing), KeptLines(existing, updates);
    var part := Rendered(existing, updates)[i];
    KeepsTheRest(existing, updates);
    if i < kept {
      assert part == RenderLine(updates, lines[i]);
      if IsManaged(updates, lines[i]) {
        var key := KeyOf(lines[i]).value;
        var u := Update(key, ValueOf(updates, key).value);
        assert u in updates && part == Assignment(u.key, u.value);
      }
    } else {
      assert part in Appended(updates, lines);
      AppendedIff(updates, lines, part);
      var k :| 0 <= k < |updates| && !IsApplied(lines, updates[k].key)
               && part == Assignment(updates[k].key, updates[k].value);
      assert updates[k] in updates;
    }
  }

  /** The last line of a rendered file is not blank. */
  lemma LastIsNotBlank(existing: string, updates: seq<Update>)
    requires Rendered(existing, updates) != []
    ensures var lines := LinesOfParts(Rendered(existing, updates)); Trim(lines[|lines| - 1]) != ""
  {
    var all := Rendered(existing, updates);
    RenderedPart(existing, updates, |all| - 1);
    LastPartIsNotBlank(existing, updates);
    assert IsPart(updates, all[|all| - 1]) && Trim(all[|all| - 1]) != "";
    LastLineOfParts(updates, all);
  }

  lemma LastLineOfParts(updates: seq<Update>, parts: seq<string>)
    requires parts != [] && Trim(parts[|parts| - 1]) != "" && IsPart(updates, parts[|parts| - 1])
    ensures Trim(LinesOfParts(parts)[|LinesOfParts(parts)| - 1]) != ""
  {
    LastLine(parts);
    LastLineOfPart(updates, parts[|parts| - 1]);
  }

  lemma LastLineOfPart(updates: seq<Update>, part: string)
    requires Trim(part) != "" && IsPart(updates, part)
    ensures var lines := Split(part, '\n'); Trim(lines[|lines| - 1]) != ""
  {
    if '\n' !in part {
      SplitWhole(part, '\n');
    } else {
      var u: Update :| u in updates && part == Assignment(u.key, u.value);
      AssignmentEnds(u);
    }
  }

  lemma AssignmentEnds(u: Update)
    ensures var lines := Split(Assignment(u.key, u.value), '\n'); Trim(lines[|lines| - 1]) != ""
  {
    var part := Assignment(u.key, u.value);
    assert part[|part| - 1] == '\'';
    SplitEnds(part, '\n');
    TrimIsEmpty(Split(part, '\n')[|Split(part, '\n')| - 1]);
  }

  predicate EndsInInk(lines: seq<string>) {
    lines != [] ==> Trim(lines[|lines| - 1]) != ""
  }

  lemma LastPartIsNotBlank(existing: string, updates: seq<Update>)
    requires Rendered(existing, updates) != []
    ensures var all := Rendered(existing, updates); Trim(all[|all| - 1]) != ""
  {
    var lines := LinesOf(existing);
    DroppedEndInInk(RenderLines(updates, lines));
    AppendedEndInInk(updates, lines);
    InkConcat(DropTrailingBlanks(RenderLines(updates, lines)), Appended(updates, lines));
    assert EndsInInk(Rendered(existing, updates));
  }

  lemma DroppedEndInInk(lines: seq<string>)
    ensures EndsInInk(DropTrailingBlanks(lines))
  {
  }

  lemma InkConcat(a: seq<string>, b: seq<string>)
    requires EndsInInk(a) && EndsInInk(b)
    ensures EndsInInk(a + b)
  {
    assert a + b != [] ==> (a + b)[|a + b| - 1] == if b != [] then b[|b| - 1] else a[|a| - 1];
  }

  lemma AppendedEndInInk(updates: seq<Update>, lines: seq<string>)
    ensures EndsInInk(Appended(updates, lines))
  {
    var more := Appended(updates, lines);
    AppendedAreMissing(updates, lines);
    if more != [] {
      var k := Missing(updates, lines)[|more| - 1];
      assert IsAssigned(updates, k, more[|more| - 1]);
      AssignmentIsNotBlank(updates[k].key, updates[k].value);
    }
  }

  lemma DropOneBlank(lines: seq<string>)
    requires lines != [] && Trim(lines[|lines| - 1]) != ""
    ensures DropTrailingBlanks(lines + [""]) == lines
  {
    assert (lines + [""])[..|lines|] == lines;
    assert Trim("") == "";
  }

  lemma {:induction false} AppendedIgnoresBlank(updates: seq<Update>, lines: seq<string>)
    ensures Appended(updates, lines + [""]) == Appended(updates, lines)
  {
    if updates != [] {
      AppendedIgnoresBlank(updates[..|updates| - 1], lines);
      AppliedStep(lines + [""], |lines|, updates[|updates| - 1].key);
      assert (lines + [""])[..|lines|] == lines && (lines + [""])[..|lines| + 1] == lines + [""];
    }
  }

  /** A rendered file read again: its lines with managed keys set, and what is still not assigned. */
  lemma RenderedAgain(existing: string, updates: seq<Update>)
    requires Rendered(existing, updates) != []
    ensures var lines := LinesOfParts(Rendered(existing, updates));
      Rendered(Render(existing, updates), updates) == RenderLines(updates, lines) + Appended(updates, lines)
  {
    SplitFile(Rendered(existing, updates));
    LastIsNotBlank(existing, updates);
    LinesAgain(updates, LinesOfParts(Rendered(existing, updates)));
  }

  lemma LinesAgain(updates: seq<Update>, lines: seq<string>)
    requires lines != [] && Trim(lines[|lines| - 1]) != ""
    ensures DropTrailingBlanks(RenderLines(updates, lines + [""])) == RenderLines(updates, lines)
    ensures Appended(updates, lines + [""]) == Appended(updates, lines)
  {
    RenderedIsBlank(updates, lines[|lines| - 1]);
    RenderConcat(updates, lines, [""]);
    assert RenderLines(updates, [""]) == [""];
    DropOneBlank(RenderLines(updates, lines));
    AppendedIgnoresBlank(updates, lines);
  }

  /** Only an empty set of updates can leave an empty file. */
  lemma EmptyHasNoUpdates(existing: string, updates: seq<Update>)
    requires Rendered(existing, updates) == []
    ensures updates == []
  {
    var lines := LinesOf(existing);
    AppendedNothing(updates, lines);
    if updates != [] {
      var key := updates[0].key;
      assert IsApplied(lines, key);
      var i :| 0 <= i < |lines| && KeyOf(lines[i]) == Some(key);
      assert IsManaged(updates, lines[i]);
      AppliedIsKept(existing, updates, i);
    }
  }

  lemma EmptyFileStays()
    ensures Render("\n", []) == "\n"
  {
    SplitConcat("", '\n', "");
    assert "" + ['\n'] + "" == "\n";
    var lines := RenderLines([], ["", ""]);
    assert lines == ["", ""];
    assert Trim("") == "";
    assert DropTrailingBlanks(["", ""]) == DropTrailingBlanks(["", ""][..1]);
    assert ["", ""][..1] == [""];
    assert DropTrailingBlanks([""]) == DropTrailingBlanks([""][..0]);
  }

  lemma PlainIsFixed(existing: string, updates: seq<Update>)
    requires AreUpdates(updates) && ArePlain(updates) && Rendered(existing, updates) != []
    ensures Rendered(Render(existing, updates), updates) == Rendered(existing, updates)
  {
    var all := Rendered(existing, updates);
    PlainParts(existing, updates);
    PlainLines(all);
    RenderedAgain(existing, updates);
    LinesAreFixed(existing, updates);
    assert RenderLines(updates, all) == all;
    AllAreApplied(existing, updates);
    AppendedNothing(updates, all);
  }

  lemma LinesAreFixed(existing: string, updates: seq<Update>)
    requires AreUpdates(updates) && ArePlain(updates)
    ensures var all := Rendered(existing, updates); RenderLines(updates, all) == all
  {
    var all := Rendered(existing, updates);
    forall i | 0 <= i < |all| ensures RenderLine(updates, all[i]) == all[i] {
      if IsManaged(updates, all[i]) {
        var k :| 0 <= k < |updates| && updates[k].key == KeyOf(all[i]).value;
        ValueIsUnique(updates, k);
        LineOfKey(existing, updates, k, all[i]);
      }
    }
  }

  lemma AllAreApplied(existing: string, updates: seq<Update>)
    requires AreUpdates(updates) && ArePlain(updates)
    ensures AllApplied(updates, Rendered(existing, updates))
  {
    var all := Rendered(existing, updates);
    forall k | 0 <= k < |updates| ensures IsApplied(all, updates[k].key) {
      AssignsManaged(existing, updates, k);
      KeyOfAssignment(updates[k].key, updates[k].value);
      var i :| 0 <= i < |all| && all[i] == Assignment(updates[k].key, updates[k].value);
    }
  }

  lemma PlainParts(existing: string, updates: seq<Update>)
    requires ArePlain(updates)
    ensures forall i :: 0 <= i < |Rendered(existing, updates)| ==> '\n' !in Rendered(existing, updates)[i]
  {
    var all := Rendered(existing, updates);
    forall i | 0 <= i < |all| ensures '\n' !in all[i] {
      RenderedPart(existing, updates, i);
      if u: Update :| u in updates && all[i] == Assignment(u.key, u.value) {
        PlainAssignment(u);
      }
    }
  }

  lemma PlainAssignment(u: Update)
    requires IsPlain(u)
    ensures '\n' !in Assignment(u.key, u.value)
  {
    EscapeKeepsNewlines(u.value);
    assert '\n' !in Quote(u.value);
  }

  lemma FixedIsPlain(existing: string, updates: seq<Update>)
    requires AreUpdates(updates) && Rendered(existing, updates) != []
    requires Render(Render(existing, updates), updates) == Render(existing, updates)
    ensures ArePlain(updates)
  {
    var lines := LinesOfParts(Rendered(existing, updates));
    var again := RenderLines(updates, lines) + Appended(updates, lines);
    RenderedAgain(existing, updates);
    SplitFile(Rendered(existing, updates));
    SplitFile(again);
    assert LinesOfParts(again) == (LinesOfParts(again) + [""])[..|LinesOfParts(again)|];
    assert LinesOfParts(again) == lines;
    assert |again| == |lines| + |Appended(updates, lines)|;
    AppendedNothing(updates, lines);
    forall k | 0 <= k < |updates| ensures IsPlain(updates[k]) {
      assert IsApplied(lines, updates[k].key);
      var i :| 0 <= i < |lines| && KeyOf(lines[i]) == Some(updates[k].key);
      ValueIsUnique(updates, k);
      assert again[i] == Assignment(updates[k].key, updates[k].value);
      OneLineIff(again[i]);
      EscapeKeepsNewlines(updates[k].value);
      NewlineShows(updates[k]);
    }
  }

  lemma NewlineShows(u: Update)
    ensures '\n' in u.value ==> '\n' in Assignment(u.key, u.value)
  {
    EscapeKeepsNewlines(u.value);
    if '\n' in u.value {
      assert '\n' in Quote(u.value);
    }
  }

  /** Rendering again changes nothing exactly when every key is an identifier and no value holds a
      newline, whatever the file held before. */
  lemma IdempotentIff(existing: string, updates: seq<Update>)
    requires AreUpdates(updates)
    ensures Render(Render(existing, updates), updates) == Render(existing, updates) <==> ArePlain(updates)
  {
    if Rendered(existing, updates) == [] {
      EmptyHasNoUpdates(existing, updates);
      assert Render(existing, updates) == "\n";
      EmptyFileStays();
    } else {
      if ArePlain(updates) { PlainIsFixed(existing, updates); }
      if Render(Render(existing, updates), updates) == Render(existing, updates) { FixedIsPlain(existing, updates); }
    }
  }

  /** Line by line, every managed key is set: the file's lines are the rendered ones, some line has
      the form of an assignment to the key, and in every such line the word behind `=` decodes to the
      value.  (A line inside a quote that an unmanaged line opened is no assignment to a shell.) */
  lemma LinesSetManaged(existing: string, updates: seq<Update>, k: nat)
    requires AreUpdates(updates) && ArePlain(updates) && k < |updates|
    ensures Split(Render(existing, updates), '\n') == Rendered(existing, updates) + [""]
    ensures exists line :: line in Rendered(existing, updates) && KeyOf(line) == Some(updates[k].key)
    ensures forall line :: line in Rendered(existing, updates) && KeyOf(line) == Some(updates[k].key) ==>
      updates[k].key + "=" <= line && Decode(line[|updates[k].key| + 1..]) == Some(updates[k].value)
  {
    var all, u := Rendered(existing, updates), updates[k];
    AssignsManaged(existing, updates, k);
    KeyOfAssignment(u.key, u.value);
    QuoteDecodes(u.value);
    assert Assignment(u.key, u.value)[|u.key| + 1..] == Quote(u.value);
    PlainParts(existing, updates);
    PlainLines(all);
    SplitFile(all);
  }
}
