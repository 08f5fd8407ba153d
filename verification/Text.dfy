/** String operations of the runtime that several scripts rely on. */
module Text {

  /** A character that `trim` removes and `\s` matches. */
  predicate IsBlank(c: char) {
    || c == ' ' || ('\t' <= c <= '\r') || c == '\U{00A0}' || c == '\U{1680}'
    || ('\U{2000}' <= c <= '\U{200A}') || c == '\U{2028}' || c == '\U{2029}' || c == '\U{202F}'
    || c == '\U{205F}' || c == '\U{3000}' || c == '\U{FEFF}'
  }

  predicate AllBlank(s: string) {
    forall i :: 0 <= i < |s| ==> IsBlank(s[i])
  }

  predicate StartsWith(s: string, prefix: string) {
    prefix <= s
  }

  predicate EndsWith(s: string, suffix: string) {
    |suffix| <= |s| && s[|s| - |suffix|..] == suffix
  }

  function Trim(s: string): string {
    if s == [] then []
    else if IsBlank(s[0]) then Trim(s[1..])
    else if IsBlank(s[|s| - 1]) then Trim(s[..|s| - 1])
    else s
  }

  /** Nothing to trim, and something left. */
  predicate IsTrimmed(s: string) {
    s != [] && !IsBlank(s[0]) && !IsBlank(s[|s| - 1])
  }

  lemma {:induction false} TrimIsEmpty(s: string)
    ensures Trim(s) == [] <==> AllBlank(s)
  {
    if s != [] && IsBlank(s[0]) {
      TrimIsEmpty(s[1..]);
      assert s == [s[0]] + s[1..];
    } else if s != [] && IsBlank(s[|s| - 1]) {
      TrimIsEmpty(s[..|s| - 1]);
      assert s[..|s| - 1][0] == s[0];
    }
  }

  /** Trimming takes off exactly the padding around a trimmed text. */
  lemma {:induction false} TrimPadding(before: string, s: string, after: string)
    requires AllBlank(before) && AllBlank(after) && IsTrimmed(s)
    ensures Trim(before + s + after) == s
    decreases |before| + |after|
  {
    var whole := before + s + after;
    if before != [] {
      TrimPadding(before[1..], s, after);
      assert whole[1..] == before[1..] + s + after;
    } else if after != [] {
      TrimPadding(before, s, after[..|after| - 1]);
      assert whole[..|whole| - 1] == before + s + after[..|after| - 1];
    } else {
      assert whole == s;
    }
  }

  /** `split` on one character: always at least one part. */
  function Split(s: string, c: char): (r: seq<string>)
    ensures r != []
    ensures forall i :: 0 <= i < |r| ==> c !in r[i]
  {
    if s == [] then [[]]
    else if s[0] == c then [[]] + Split(s[1..], c)
    else
      var r := Split(s[1..], c);
      [[s[0]] + r[0]] + r[1..]
  }

  function Join(parts: seq<string>, separator: string): string {
    if parts == [] then []
    else if |parts| == 1 then parts[0]
    else parts[0] + separator + Join(parts[1..], separator)
  }

  lemma {:induction false} SplitWhole(s: string, c: char)
    requires c !in s
    ensures Split(s, c) == [s]
  {
    if s != [] {
      SplitWhole(s[1..], c);
      assert [s[0]] + s[1..] == s;
    }
  }

  lemma {:induction false} SplitFirst(s: string, c: char, rest: string)
    requires c !in s
    ensures Split(s + [c] + rest, c) == [s] + Split(rest, c)
  {
    var whole := s + [c] + rest;
    if s == [] {
      assert whole[1..] == rest;
    } else {
      SplitFirst(s[1..], c, rest);
      assert whole[1..] == s[1..] + [c] + rest;
      assert [s[0]] + s[1..] == s;
    }
  }

  /** One more character in front, in terms of the parts behind it. */
  function ConsParts(x: char, parts: seq<string>, c: char): seq<string>
    requires parts != []
  {
    if x == c then [[]] + parts else [[x] + parts[0]] + parts[1..]
  }

  lemma SplitIsCons(x: char, s: string, c: char)
    ensures Split([x] + s, c) == ConsParts(x, Split(s, c), c)
  {
    assert ([x] + s)[1..] == s;
  }

  lemma ConsPartsConcat(x: char, r: seq<string>, t: seq<string>, c: char)
    requires r != []
    ensures ConsParts(x, r + t, c) == ConsParts(x, r, c) + t
  {
  }

  /** Splitting at a separator that is there cuts the text in two. */
  lemma {:induction false} SplitConcat(a: string, c: char, b: string)
    ensures Split(a + [c] + b, c) == Split(a, c) + Split(b, c)
  {
    if a == [] {
      SplitIsCons(c, b, c);
      assert a + [c] + b == [c] + b;
    } else {
      SplitConcat(a[1..], c, b);
      SplitConsBoth(a[0], a[1..], a[1..] + [c] + b, c, Split(b, c));
      assert a == [a[0]] + a[1..] && a + [c] + b == [a[0]] + (a[1..] + [c] + b);
    }
  }

  lemma SplitConsBoth(x: char, s: string, whole: string, c: char, t: seq<string>)
    requires Split(whole, c) == Split(s, c) + t
    ensures Split([x] + whole, c) == Split([x] + s, c) + t
  {
    SplitIsCons(x, s, c);
    SplitIsCons(x, whole, c);
    ConsPartsConcat(x, Split(s, c), t, c);
  }

  /** The last part ends as the text does. */
  lemma {:induction false} SplitEnds(s: string, c: char)
    requires s != [] && s[|s| - 1] != c
    ensures var last := Split(s, c)[|Split(s, c)| - 1]; last != [] && last[|last| - 1] == s[|s| - 1]
  {
    if |s| > 1 {
      SplitEnds(s[1..], c);
    } else {
      assert s[1..] == [];
    }
  }

  /** Splitting undoes joining when no part holds the separator. */
  lemma {:induction false} SplitJoin(parts: seq<string>, c: char)
    requires parts != [] && forall i :: 0 <= i < |parts| ==> c !in parts[i]
    ensures Split(Join(parts, [c]), c) == parts
  {
    if |parts| == 1 {
      SplitWhole(parts[0], c);
    } else {
      SplitJoin(parts[1..], c);
      SplitFirst(parts[0], c, Join(parts[1..], [c]));
      assert parts == [parts[0]] + parts[1..];
    }
  }

  /** Joining undoes splitting. */
  lemma {:induction false} JoinSplit(s: string, c: char)
    ensures Join(Split(s, c), [c]) == s
  {
    if s != [] {
      JoinSplit(s[1..], c);
      var r := Split(s[1..], c);
      if s[0] == c {
        assert ([[]] + r)[1..] == r;
        assert [] + [c] + s[1..] == s;
      } else if |r| > 1 {
        var r' := [[s[0]] + r[0]] + r[1..];
        assert r'[1..] == r[1..];
        assert s == [s[0]] + (r[0] + [c] + Join(r[1..], [c]));
      }
    }
  }

  // ----- Lines -----

  /** The lines of a text whose lines were written as `parts`. */
  function LinesOfParts(parts: seq<string>): (r: seq<string>)
    ensures |r| >= |parts|
    ensures |r| == |parts| ==> forall i :: 0 <= i < |parts| ==> |Split(parts[i], '\n')| == 1
  {
    if parts == [] then [] else Split(parts[0], '\n') + LinesOfParts(parts[1..])
  }

  lemma {:induction false} SplitIntoLines(parts: seq<string>)
    requires parts != []
    ensures Split(Join(parts, "\n"), '\n') == LinesOfParts(parts)
  {
    if |parts| == 1 {
      assert LinesOfParts(parts[1..]) == [];
    } else {
      SplitIntoLines(parts[1..]);
      SplitConcat(parts[0], '\n', Join(parts[1..], "\n"));
      assert "\n" == ['\n'];
    }
  }

  lemma {:induction false} PlainLines(parts: seq<string>)
    requires forall i :: 0 <= i < |parts| ==> '\n' !in parts[i]
    ensures LinesOfParts(parts) == parts
  {
    if parts != [] {
      SplitWhole(parts[0], '\n');
      PlainLines(parts[1..]);
      assert parts == [parts[0]] + parts[1..];
    }
  }

  lemma OneLineIff(s: string)
    ensures |Split(s, '\n')| == 1 <==> '\n' !in s
  {
    if '\n' !in s {
      SplitWhole(s, '\n');
    } else {
      JoinSplit(s, '\n');
    }
  }

  /** As many lines as parts means that every part is one line. */
  lemma LinesArePartsIff(parts: seq<string>)
    ensures LinesOfParts(parts) == parts <==> |LinesOfParts(parts)| == |parts|
    ensures LinesOfParts(parts) == parts <==> forall i :: 0 <= i < |parts| ==> '\n' !in parts[i]
  {
    if |LinesOfParts(parts)| == |parts| {
      forall i | 0 <= i < |parts| ensures '\n' !in parts[i] { OneLineIff(parts[i]); }
    }
    if forall i :: 0 <= i < |parts| ==> '\n' !in parts[i] { PlainLines(parts); }
  }
}
