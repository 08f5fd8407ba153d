/**
 The two argument scanners of `integration/arch_fitness_helpers.ts`: `callArguments`, which
 knows quotes, and the loop of `constructorCalls`, which does not.  Both cut the text behind
 a call's `(` at its top-level commas.
 */
module ArgumentScanner {
  import opened Text
  import opened Options

  predicate IsQuote(c: char) {
    c == '\"' || c == '\'' || c == '`'
  }

  predicate IsOpen(c: char) {
    c == '(' || c == '[' || c == '{'
  }

  predicate IsClose(c: char) {
    c == ')' || c == ']' || c == '}'
  }

  // ----- callArguments -----

  /** Where the quoted text that goes on at `i` ends: at its quote, or past the end of the source. */
  function SkipQuoted(s: string, i: nat, quote: char): (j: nat)
    ensures j >= i
    decreases |s| - i
  {
    if i >= |s| || s[i] == quote then i
    else SkipQuoted(s, if s[i] == '\\' then i + 2 else i + 1, quote)
  }

  function NonEmpty(args: seq<string>): seq<string> {
    if args == [] then []
    else NonEmpty(args[..|args| - 1]) + (if args[|args| - 1] == "" then [] else [args[|args| - 1]])
  }

  /** The scanner at index `i`, at a depth, with the argument's start and the arguments so far. */
  function Scan(s: string, i: nat, depth: nat, start: nat, args: seq<string>): seq<string>
    requires start <= i
    decreases |s| - i
  {
    if i >= |s| then args
    else if IsQuote(s[i]) then Scan(s, SkipQuoted(s, i + 1, s[i]) + 1, depth, start, args)
    else if IsOpen(s[i]) then Scan(s, i + 1, depth + 1, start, args)
    else if IsClose(s[i]) then
      if depth == 0 then NonEmpty(args + [Trim(s[start..i])]) else Scan(s, i + 1, depth - 1, start, args)
    else if s[i] == ',' && depth == 0 then Scan(s, i + 1, depth, i + 1, args + [Trim(s[start..i])])
    else Scan(s, i + 1, depth, start, args)
  }

  method CallArguments(source: string, open: nat) returns (args: seq<string>)
    ensures args == Scan(source, open, 0, open, [])
  {
    args := [];
    var depth, start, i := 0, open, open;
    while i < |source|
      invariant 0 <= depth && 0 <= start <= i
      invariant Scan(source, open, 0, open, []) == Scan(source, i, depth, start, args)
      decreases |source| - i
    {
      var ch := source[i];
      if IsQuote(ch) {
        ghost var from := i;
        i := i + 1;
        while i < |source| && source[i] != ch
          invariant from < i && SkipQuoted(source, from + 1, ch) == SkipQuoted(source, i, ch)
          decreases |source| - i
        {
          if source[i] == '\\' { i := i + 1; }
          i := i + 1;
        }
        i := i + 1;
        continue;
      }
      if IsOpen(ch) {
        depth := depth + 1;
      } else if IsClose(ch) {
        if depth == 0 {
          args := args + [Trim(source[start..i])];
          args := KeepNonEmpty(args);
          return;
        }
        depth := depth - 1;
      } else if ch == ',' && depth == 0 {
        args := args + [Trim(source[start..i])];
        start := i + 1;
      }
      i := i + 1;
    }
  }

  method KeepNonEmpty(args: seq<string>) returns (r: seq<string>)
    ensures r == NonEmpty(args)
  {
    r := [];
    for i := 0 to |args|
      invariant r == NonEmpty(args[..i])
    {
      assert args[..i + 1][..i] == args[..i];
      if args[i] != "" { r := r + [args[i]]; }
    }
    assert args[..|args|] == args;
  }

  // ----- The scanner of constructorCalls -----

  function Finished(current: string, args: seq<string>): seq<string> {
    if Trim(current) != "" then args + [Trim(current)] else args
  }

  function ScanConstructor(s: string, i: nat, depth: int, current: string, args: seq<string>): seq<string>
    decreases |s| - i
  {
    if i >= |s| || (depth == 0 && s[i] == ')') then Finished(current, args)
    else if depth == 0 && s[i] == ',' then ScanConstructor(s, i + 1, depth, "", args + [Trim(current)])
    else
      ScanConstructor(s, i + 1, Shift(depth, s[i]), current + [s[i]], args)
  }

  function Shift(depth: int, c: char): int {
    if IsOpen(c) then depth + 1 else if IsClose(c) then depth - 1 else depth
  }

  method ConstructorArguments(source: string, from: nat) returns (args: seq<string>)
    ensures args == ScanConstructor(source, from, 0, "", [])
  {
    args := [];
    var depth, current, i := 0, "", from;
    while i < |source|
      invariant ScanConstructor(source, from, 0, "", []) == ScanConstructor(source, i, depth, current, args)
      decreases |source| - i
    {
      var ch := source[i];
      if depth == 0 && ch == ')' { break; }
      if depth == 0 && ch == ',' {
        args := args + [Trim(current)];
        current := "";
        i := i + 1;
        continue;
      }
      if IsOpen(ch) { depth := depth + 1; }
      if IsClose(ch) { depth := depth - 1; }
      current := current + [ch];
      i := i + 1;
    }
    if Trim(current) != "" { args := args + [Trim(current)]; }
  }

  // ----- Arguments as trees -----

  datatype QuotedChar = Raw(c: char) | Escaped(c: char)

  /** A text with its quotes closed and its brackets balanced (of whatever shapes). */
  datatype Piece =
    | Plain(c: char)
    | Quoted(quote: char, body: seq<QuotedChar>)
    | Group(open: char, inner: seq<Piece>, close: char)

  function ShowQuoted(body: seq<QuotedChar>): string {
    if body == [] then []
    else (match body[0] case Raw(c) => [c] case Escaped(c) => ['\\', c]) + ShowQuoted(body[1..])
  }

  function Show(p: Piece): string
    decreases p, 1
  {
    match p
    case Plain(c) => [c]
    case Quoted(quote, body) => [quote] + ShowQuoted(body) + [quote]
    case Group(open, inner, close) => [open] + ShowAll(inner) + [close]
  }

  function ShowAll(pieces: seq<Piece>): string
    decreases pieces, 0
  {
    if pieces == [] then [] else Show(pieces[0]) + ShowAll(pieces[1..])
  }

  /** `top`: not inside brackets, where a comma would separate. */
  predicate IsPiece(p: Piece, top: bool)
    decreases p
  {
    match p
    case Plain(c) => !IsQuote(c) && !IsOpen(c) && !IsClose(c) && (top ==> c != ',')
    case Quoted(quote, body) =>
      IsQuote(quote) && forall i :: 0 <= i < |body| && body[i].Raw? ==> body[i].c != quote && body[i].c != '\\'
    case Group(open, inner, close) =>
      IsOpen(open) && IsClose(close) && forall i :: 0 <= i < |inner| ==> IsPiece(inner[i], false)
  }

  predicate ArePieces(pieces: seq<Piece>, top: bool) {
    forall i :: 0 <= i < |pieces| ==> IsPiece(pieces[i], top)
  }

  /** An argument: without top-level commas, and trimmed. */
  predicate IsArgument(pieces: seq<Piece>) {
    ArePieces(pieces, true) && IsTrimmed(ShowAll(pieces))
  }

  predicate AreArguments(args: seq<seq<Piece>>) {
    forall i :: 0 <= i < |args| ==> IsArgument(args[i])
  }

  function Texts(args: seq<seq<Piece>>): seq<string> {
    seq(|args|, i requires 0 <= i < |args| => ShowAll(args[i]))
  }

  /** `t` stands in `s` at `i`. */
  predicate At(s: string, i: nat, t: string) {
    i + |t| <= |s| && s[i..i + |t|] == t
  }

  lemma AtConcat(s: string, i: nat, a: string, b: string)
    ensures At(s, i, a + b) <==> At(s, i, a) && At(s, i + |a|, b)
  {
    if i + |a| + |b| <= |s| {
      assert s[i..i + |a| + |b|] == s[i..i + |a|] + s[i + |a|..i + |a| + |b|];
      if s[i..i + |a| + |b|] == a + b {
        assert s[i..i + |a|] == (a + b)[..|a|];
        assert s[i + |a|..i + |a| + |b|] == (a + b)[|a|..];
      }
    }
  }

  lemma AtChar(s: string, i: nat, c: char, rest: string)
    requires At(s, i, [c] + rest)
    ensures i < |s| && s[i] == c && At(s, i + 1, rest)
  {
    AtConcat(s, i, [c], rest);
    assert s[i] == s[i..i + 1][0];
  }

  // ----- callArguments over a tree -----

  lemma {:induction false} SkipsQuoted(s: string, i: nat, quote: char, body: seq<QuotedChar>)
    requires At(s, i, ShowQuoted(body) + [quote])
    requires quote != '\\' && forall k :: 0 <= k < |body| && body[k].Raw? ==> body[k].c != quote && body[k].c != '\\'
    ensures SkipQuoted(s, i, quote) == i + |ShowQuoted(body)|
    decreases body
  {
    if body == [] {
      AtChar(s, i, quote, []);
    } else {
      var rest := ShowQuoted(body[1..]) + [quote];
      match body[0]
      case Raw(c) =>
        assert ShowQuoted(body) + [quote] == [c] + rest;
        AtChar(s, i, c, rest);
        SkipsQuoted(s, i + 1, quote, body[1..]);
      case Escaped(c) =>
        assert ShowQuoted(body) + [quote] == ['\\'] + ([c] + rest);
        AtChar(s, i, '\\', [c] + rest);
        AtChar(s, i + 1, c, rest);
        SkipsQuoted(s, i + 2, quote, body[1..]);
    }
  }

  lemma ScansQuoted(s: string, i: nat, depth: nat, start: nat, args: seq<string>, quote: char, body: seq<QuotedChar>)
    requires start <= i && IsPiece(Quoted(quote, body), depth == 0) && At(s, i, Show(Quoted(quote, body)))
    ensures Scan(s, i, depth, start, args) == Scan(s, i + |Show(Quoted(quote, body))|, depth, start, args)
  {
    assert Show(Quoted(quote, body)) == [quote] + (ShowQuoted(body) + [quote]);
    AtChar(s, i, quote, ShowQuoted(body) + [quote]);
    SkipsQuoted(s, i + 1, quote, body);
  }

  lemma ScansBracket(s: string, i: nat, depth: nat, start: nat, args: seq<string>)
    requires start <= i < |s|
    ensures IsOpen(s[i]) ==> Scan(s, i, depth, start, args) == Scan(s, i + 1, depth + 1, start, args)
    ensures IsClose(s[i]) && depth > 0 ==> Scan(s, i, depth, start, args) == Scan(s, i + 1, depth - 1, start, args)
  {
  }

  /** Scanning over a balanced text changes nothing but the index. */
  lemma {:induction false} ScansPiece(s: string, i: nat, depth: nat, start: nat, args: seq<string>, p: Piece)
    requires start <= i && IsPiece(p, depth == 0) && At(s, i, Show(p))
    ensures Scan(s, i, depth, start, args) == Scan(s, i + |Show(p)|, depth, start, args)
    decreases p, 1
  {
    match p
    case Plain(c) =>
      assert [c] + [] == [c];
      AtChar(s, i, c, []);
    case Quoted(quote, body) =>
      ScansQuoted(s, i, depth, start, args, quote, body);
    case Group(open, inner, close) =>
      GroupStands(s, i, open, inner, close);
      var j := i + 1 + |ShowAll(inner)|;
      ScansBracket(s, i, depth, start, args);
      ScansPieces(s, i + 1, depth + 1, start, args, inner);
      ScansBracket(s, j, depth + 1, start, args);
  }

  lemma GroupStands(s: string, i: nat, open: char, inner: seq<Piece>, close: char)
    requires At(s, i, Show(Group(open, inner, close)))
    ensures var j := i + 1 + |ShowAll(inner)|;
      i < j < |s| && s[i] == open && At(s, i + 1, ShowAll(inner)) && s[j] == close
      && |Show(Group(open, inner, close))| == |ShowAll(inner)| + 2
  {
    assert Show(Group(open, inner, close)) == [open] + (ShowAll(inner) + [close]);
    AtChar(s, i, open, ShowAll(inner) + [close]);
    AtConcat(s, i + 1, ShowAll(inner), [close]);
    assert [close] + [] == [close];
    AtChar(s, i + 1 + |ShowAll(inner)|, close, []);
  }

  lemma {:induction false} ScansPieces(s: string, i: nat, depth: nat, start: nat, args: seq<string>, pieces: seq<Piece>)
    requires start <= i && ArePieces(pieces, depth == 0) && At(s, i, ShowAll(pieces))
    ensures Scan(s, i, depth, start, args) == Scan(s, i + |ShowAll(pieces)|, depth, start, args)
    decreases pieces, 0
  {
    if pieces != [] {
      AtConcat(s, i, Show(pieces[0]), ShowAll(pieces[1..]));
      ScansPiece(s, i, depth, start, args, pieces[0]);
      ScansPieces(s, i + |Show(pieces[0])|, depth, start, args, pieces[1..]);
    }
  }

  // ----- Lists of arguments -----

  /** What stands before an argument in the list: nothing, or the space after a comma. */
  predicate IsPad(pad: seq<Piece>) {
    ArePieces(pad, true) && AllBlank(ShowAll(pad))
  }

  const SPACE := [Plain(' ')]

  lemma SpaceIsPad()
    ensures IsPad(SPACE) && ShowAll(SPACE) == " " && IsPad([]) && ShowAll([]) == ""
  {
    assert SPACE[1..] == [];
    assert ShowAll(SPACE) == [' '] + [];
  }

  lemma ShowAllCons(p: Piece, rest: seq<Piece>)
    ensures ShowAll([p] + rest) == Show(p) + ShowAll(rest)
  {
    assert ([p] + rest)[1..] == rest;
  }

  lemma {:induction false} ShowAllConcat(a: seq<Piece>, b: seq<Piece>)
    ensures ShowAll(a + b) == ShowAll(a) + ShowAll(b)
  {
    if a == [] {
      assert a + b == b;
    } else {
      ShowAllConcat(a[1..], b);
      ShowAllCons(a[0], a[1..] + b);
      assert a + b == [a[0]] + (a[1..] + b);
      assert Show(a[0]) + (ShowAll(a[1..]) + ShowAll(b)) == Show(a[0]) + ShowAll(a[1..]) + ShowAll(b);
    }
  }

  lemma PaddedTrims(pad: seq<Piece>, arg: seq<Piece>)
    requires IsPad(pad) && IsArgument(arg)
    ensures Trim(ShowAll(pad + arg)) == ShowAll(arg)
  {
    ShowAllConcat(pad, arg);
    TrimPadding(ShowAll(pad), ShowAll(arg), "");
    assert ShowAll(pad) + ShowAll(arg) + "" == ShowAll(pad + arg);
  }

  /** A text that is the argument once trimmed. */
  ghost predicate Reads(pieces: seq<Piece>, arg: seq<Piece>) {
    ArePieces(pieces, true) && Trim(ShowAll(pieces)) == ShowAll(arg)
  }

  lemma PaddedReads(pad: seq<Piece>, arg: seq<Piece>)
    requires IsPad(pad) && IsArgument(arg)
    ensures Reads(pad + arg, arg)
  {
    PaddedTrims(pad, arg);
  }

  /** The text of a list from its padding on: its first argument, then the close, or a comma and
      the rest. */
  function ListText(pad: seq<Piece>, args: seq<seq<Piece>>, close: char): string
    requires args != []
    decreases |args|
  {
    ShowAll(pad + args[0]) + AfterFirst(args, close)
  }

  function AfterFirst(args: seq<seq<Piece>>, close: char): string
    requires args != []
    decreases |args|, 0
  {
    if |args| == 1 then [close] else [','] + ListText(SPACE, args[1..], close)
  }

  lemma ListTextUnfolds(pad: seq<Piece>, args: seq<seq<Piece>>, close: char)
    requires args != []
    ensures |args| == 1 ==> ListText(pad, args, close) == ShowAll(pad + args[0]) + [close]
    ensures |args| > 1 ==>
      ListText(pad, args, close) == ShowAll(pad + args[0]) + ([','] + ListText(SPACE, args[1..], close))
  {
  }

  lemma TextsCons(args: seq<seq<Piece>>)
    requires args != []
    ensures Texts(args) == [ShowAll(args[0])] + Texts(args[1..])
  {
  }

  lemma {:induction false} ListTextIsJoin(pad: seq<Piece>, args: seq<seq<Piece>>, close: char)
    requires args != []
    ensures ListText(pad, args, close) == ShowAll(pad) + (Join(Texts(args), ", ") + [close])
    decreases |args|
  {
    ListTextUnfolds(pad, args, close);
    ShowAllConcat(pad, args[0]);
    TextsCons(args);
    if |args| == 1 {
      JoinOne(args);
      Regroup(ShowAll(pad), ShowAll(args[0]), [close]);
    } else {
      ListTextIsJoin(SPACE, args[1..], close);
      SpaceIsPad();
      JoinMore(ShowAll(args[0]), Texts(args[1..]));
      RegroupMore(ShowAll(pad), ShowAll(args[0]), [','], " ", Join(Texts(args[1..]), ", "), [close]);
    }
  }

  lemma JoinOne(args: seq<seq<Piece>>)
    requires |args| == 1
    ensures Join(Texts(args), ", ") == ShowAll(args[0])
  {
    assert Texts(args) == [ShowAll(args[0])];
  }

  lemma Regroup(a: string, b: string, c: string)
    ensures (a + b) + c == a + (b + c)
  {
  }

  lemma RegroupMore(a: string, b: string, c: string, d: string, e: string, f: string)
    ensures (a + b) + (c + (d + (e + f))) == a + ((b + (c + (d + e))) + f)
  {
    assert c + (d + (e + f)) == c + (d + e) + f;
    assert b + (c + (d + e) + f) == b + (c + (d + e)) + f;
  }

  lemma JoinMore(first: string, rest: seq<string>)
    requires rest != []
    ensures Join([first] + rest, ", ") == first + ([','] + (" " + Join(rest, ", ")))
  {
    assert ([first] + rest)[1..] == rest;
    assert ", " == [','] + " ";
  }

  lemma ScanCuts(s: string, j: nat, start: nat, args: seq<string>)
    requires start <= j < |s|
    ensures IsClose(s[j]) ==> Scan(s, j, 0, start, args) == NonEmpty(args + [Trim(s[start..j])])
    ensures s[j] == ',' ==> Scan(s, j, 0, start, args) == Scan(s, j + 1, 0, j + 1, args + [Trim(s[start..j])])
  {
  }

  lemma ScansFirst(s: string, i: nat, done: seq<string>, first: seq<Piece>, arg: seq<Piece>, rest: string)
    requires Reads(first, arg) && At(s, i, ShowAll(first) + rest)
    ensures var j := i + |ShowAll(first)|;
      && At(s, j, rest) && j <= |s| && Trim(s[i..j]) == ShowAll(arg)
      && Scan(s, i, 0, i, done) == Scan(s, j, 0, i, done)
  {
    AtConcat(s, i, ShowAll(first), rest);
    ScansPieces(s, i, 0, i, done, first);
  }

  lemma ScansLast(s: string, i: nat, done: seq<string>, first: seq<Piece>, arg: seq<Piece>, close: char)
    requires Reads(first, arg) && IsClose(close) && At(s, i, ShowAll(first) + [close])
    ensures Scan(s, i, 0, i, done) == NonEmpty(done + [ShowAll(arg)])
  {
    var j := i + |ShowAll(first)|;
    ScansFirst(s, i, done, first, arg, [close]);
    CharStands(s, j, close);
    ClosesBehind(s, j, i, done, ShowAll(arg));
  }

  lemma ClosesBehind(s: string, j: nat, start: nat, done: seq<string>, text: string)
    requires start <= j < |s| && IsClose(s[j]) && Trim(s[start..j]) == text
    ensures Scan(s, j, 0, start, done) == NonEmpty(done + [text])
  {
  }

  lemma CharStands(s: string, j: nat, c: char)
    requires At(s, j, [c])
    ensures j < |s| && s[j] == c
  {
    assert [c] + [] == [c];
    AtChar(s, j, c, []);
  }

  lemma ScansNext(s: string, i: nat, done: seq<string>, first: seq<Piece>, arg: seq<Piece>, rest: string)
    requires Reads(first, arg) && At(s, i, ShowAll(first) + ([','] + rest))
    ensures var j := i + |ShowAll(first)| + 1;
      At(s, j, rest) && Scan(s, i, 0, i, done) == Scan(s, j, 0, j, done + [ShowAll(arg)])
  {
    ScansFirst(s, i, done, first, arg, [','] + rest);
    var j := i + |ShowAll(first)|;
    AtChar(s, j, ',', rest);
    ScanCuts(s, j, i, done);
  }

  lemma DoneGrows(done: seq<string>, text: string, rest: seq<string>, texts: seq<string>)
    requires texts == [text] + rest
    ensures done + [text] + rest == done + texts
  {
  }

  lemma DoneEnds(done: seq<string>, text: string, texts: seq<string>)
    requires texts == [text] + []
    ensures done + [text] == done + texts
  {
  }

  lemma ScansListOfOne(s: string, i: nat, done: seq<string>, pad: seq<Piece>, args: seq<seq<Piece>>, close: char)
    requires AreArguments(args) && |args| == 1 && IsPad(pad) && IsClose(close)
    requires At(s, i, ListText(pad, args, close))
    ensures Scan(s, i, 0, i, done) == NonEmpty(done + Texts(args))
  {
    ListTextUnfolds(pad, args, close);
    PaddedReads(pad, args[0]);
    ScansLast(s, i, done, pad + args[0], args[0], close);
    DoneEnds(done, ShowAll(args[0]), Texts(args));
  }

  lemma ScansListStep(s: string, i: nat, done: seq<string>, pad: seq<Piece>, args: seq<seq<Piece>>, close: char)
    returns (j: nat)
    requires AreArguments(args) && |args| > 1 && IsPad(pad)
    requires At(s, i, ListText(pad, args, close))
    ensures AreArguments(args[1..]) && At(s, j, ListText(SPACE, args[1..], close))
    ensures Scan(s, i, 0, i, done) == Scan(s, j, 0, j, done + [ShowAll(args[0])])
  {
    j := i + |ShowAll(pad + args[0])| + 1;
    ListTextUnfolds(pad, args, close);
    PaddedReads(pad, args[0]);
    ScansNext(s, i, done, pad + args[0], args[0], ListText(SPACE, args[1..], close));
  }

  /** Scanning a printed list appends its arguments, at whatever place the list stands. */
  lemma {:induction false} ScansList(
    s: string, i: nat, done: seq<string>, pad: seq<Piece>, args: seq<seq<Piece>>, close: char)
    requires AreArguments(args) && args != [] && IsPad(pad) && IsClose(close)
    requires At(s, i, ListText(pad, args, close))
    ensures Scan(s, i, 0, i, done) == NonEmpty(done + Texts(args))
    decreases |args|
  {
    if |args| == 1 {
      ScansListOfOne(s, i, done, pad, args, close);
    } else {
      var j := ScansListStep(s, i, done, pad, args, close);
      SpaceIsPad();
      ScansList(s, j, done + [ShowAll(args[0])], SPACE, args[1..], close);
      TextsCons(args);
      DoneGrows(done, ShowAll(args[0]), Texts(args[1..]), Texts(args));
    }
  }

  lemma ScansWhole(s: string, i: nat, args: seq<seq<Piece>>, close: char)
    requires AreArguments(args) && args != [] && IsClose(close) && At(s, i, ListText([], args, close))
    ensures Scan(s, i, 0, i, []) == Texts(args)
  {
    SpaceIsPad();
    ScansList(s, i, [], [], args, close);
    assert [] + Texts(args) == Texts(args);
    NonEmptyKeeps(Texts(args));
  }

  lemma {:induction false} NonEmptyKeeps(args: seq<string>)
    requires forall i :: 0 <= i < |args| ==> args[i] != ""
    ensures NonEmpty(args) == args
  {
    if args != [] {
      NonEmptyKeeps(args[..|args| - 1]);
    }
  }

  /** A call in a source: some text, the printed list with its close, some text. */
  function CallText(before: string, args: seq<seq<Piece>>, close: char, after: string): string {
    before + (Join(Texts(args), ", ") + [close]) + after
  }

  lemma ListStandsThere(before: string, args: seq<seq<Piece>>, close: char, after: string)
    ensures At(CallText(before, args, close, after), |before|, Join(Texts(args), ", ") + [close])
    ensures args != [] ==> At(CallText(before, args, close, after), |before|, ListText([], args, close))
  {
    if args != [] {
      ListTextIsJoin([], args, close);
      assert ShowAll([]) + (Join(Texts(args), ", ") + [close]) == Join(Texts(args), ", ") + [close];
    }
  }

  /** `callArguments` undoes printing: wherever a call's argument list stands in a source, scanning
      from behind its `(` gives exactly its arguments. */
  lemma CallArgumentsUndoesPrinting(before: string, args: seq<seq<Piece>>, close: char, after: string)
    requires AreArguments(args) && IsClose(close)
    ensures Scan(CallText(before, args, close, after), |before|, 0, |before|, []) == Texts(args)
  {
    var s := CallText(before, args, close, after);
    ListStandsThere(before, args, close, after);
    if args == [] {
      EmptyCall(before, close, after);
      EmptyListScans(s, |before|);
    } else {
      ScansWhole(s, |before|, args, close);
    }
  }

  // ----- Lists that are not closed at once -----

  lemma NonEmptyOfOne(x: string)
    ensures NonEmpty([x]) == if x == "" then [] else [x]
  {
    assert [x][..0] == [] && NonEmpty([]) == [];
  }

  /** Only empty arguments are left out, and the others keep their order. */
  lemma {:induction false} NonEmptyConcat(a: seq<string>, b: seq<string>)
    ensures NonEmpty(a + b) == NonEmpty(a) + NonEmpty(b)
    decreases |b|
  {
    if b == [] {
      assert a + b == a;
    } else {
      var init, last := b[..|b| - 1], b[|b| - 1];
      NonEmptyConcat(a, init);
      assert (a + b)[..|a + b| - 1] == a + init && (a + b)[|a + b| - 1] == last;
    }
  }

  /** The list text with a comma behind each argument: what follows the first one. */
  function BehindFirst(args: seq<seq<Piece>>, rest: string): string
    requires args != []
  {
    if |args| == 1 then rest else ListText(SPACE, args[1..], ',') + rest
  }

  lemma CommaListUnfolds(pad: seq<Piece>, args: seq<seq<Piece>>, rest: string)
    requires args != []
    ensures ListText(pad, args, ',') + rest == ShowAll(pad + args[0]) + ([','] + BehindFirst(args, rest))
  {
    ListTextUnfolds(pad, args, ',');
    if |args| > 1 {
      Regroup(ShowAll(pad + args[0]), [','] + ListText(SPACE, args[1..], ','), rest);
      Regroup([','], ListText(SPACE, args[1..], ','), rest);
    } else {
      Regroup(ShowAll(pad + args[0]), [','], rest);
    }
  }

  lemma ScansCommaStep(s: string, i: nat, done: seq<string>, pad: seq<Piece>, args: seq<seq<Piece>>, rest: string)
    requires AreArguments(args) && args != [] && IsPad(pad) && At(s, i, ListText(pad, args, ',') + rest)
    ensures var j := i + |ShowAll(pad + args[0])| + 1;
      && At(s, j, BehindFirst(args, rest))
      && Scan(s, i, 0, i, done) == Scan(s, j, 0, j, done + [ShowAll(args[0])])
  {
    var behind := BehindFirst(args, rest);
    CommaListUnfolds(pad, args, rest);
    AtSame(s, i, ListText(pad, args, ',') + rest, ShowAll(pad + args[0]) + ([','] + behind));
    ScansPadded(s, i, done, pad, args[0], behind);
  }

  lemma AtSame(s: string, i: nat, a: string, b: string)
    requires a == b && At(s, i, a)
    ensures At(s, i, b)
  {
  }

  lemma ScansPadded(s: string, i: nat, done: seq<string>, pad: seq<Piece>, arg: seq<Piece>, rest: string)
    requires IsPad(pad) && IsArgument(arg) && At(s, i, ShowAll(pad + arg) + ([','] + rest))
    ensures var j := i + |ShowAll(pad + arg)| + 1;
      At(s, j, rest) && Scan(s, i, 0, i, done) == Scan(s, j, 0, j, done + [ShowAll(arg)])
  {
    PaddedReads(pad, arg);
    ScansNext(s, i, done, pad + arg, arg, rest);
  }

  /** A list with a comma behind each argument is scanned up to its end. */
  lemma {:induction false} ScansCommaList(
    s: string, i: nat, done: seq<string>, pad: seq<Piece>, args: seq<seq<Piece>>, rest: string)
    requires AreArguments(args) && args != [] && IsPad(pad) && At(s, i, ListText(pad, args, ',') + rest)
    ensures var j := i + |ListText(pad, args, ',')|;
      At(s, j, rest) && Scan(s, i, 0, i, done) == Scan(s, j, 0, j, done + Texts(args))
    decreases |args|
  {
    var text, j := ShowAll(args[0]), i + |ShowAll(pad + args[0])| + 1;
    ScansCommaStep(s, i, done, pad, args, rest);
    CommaListUnfolds(pad, args, rest);
    TextsCons(args);
    if |args| == 1 {
      DoneEnds(done, text, Texts(args));
    } else {
      SpaceIsPad();
      ScansCommaList(s, j, done + [text], SPACE, args[1..], rest);
      DoneGrows(done, text, Texts(args[1..]), Texts(args));
    }
  }

  lemma CommaListStands(before: string, args: seq<seq<Piece>>, after: string)
    requires args != []
    ensures At(CallText(before, args, ',', after), |before|, ListText([], args, ',') + after)
  {
    ListTextIsJoin([], args, ',');
    var list := Join(Texts(args), ", ") + [','];
    assert ShowAll([]) + list == list;
    assert CallText(before, args, ',', after) == before + (list + after);
  }

  lemma BlanksScan(s: string, i: nat, done: seq<string>, blanks: string, close: char, after: string)
    requires AllBlank(blanks) && IsClose(close) && At(s, i, blanks + ([close] + after))
    ensures Scan(s, i, 0, i, done) == NonEmpty(done)
  {
    var pieces := PlainPieces(blanks);
    AtConcat(s, i, blanks, [close] + after);
    ScansPieces(s, i, 0, i, done, pieces);
    AtChar(s, i + |blanks|, close, after);
    ScanCuts(s, i + |blanks|, i, done);
    TrimIsEmpty(blanks);
    NonEmptyConcat(done, [""]);
    NonEmptyOfOne("");
    assert NonEmpty(done) + [] == NonEmpty(done);
  }

  lemma {:induction false} PlainPieces(blanks: string) returns (pieces: seq<Piece>)
    requires AllBlank(blanks)
    ensures ArePieces(pieces, true) && ShowAll(pieces) == blanks
  {
    pieces := [];
    if blanks != "" {
      var rest := PlainPieces(blanks[1..]);
      pieces := [Plain(blanks[0])] + rest;
      ShowAllCons(Plain(blanks[0]), rest);
      assert blanks == [blanks[0]] + blanks[1..];
    }
  }

  /** The list, with a comma behind each argument, is scanned from behind the call's `(`. */
  lemma ScansCommaCall(before: string, args: seq<seq<Piece>>, after: string) returns (j: nat)
    requires AreArguments(args) && args != []
    ensures var s := CallText(before, args, ',', after);
      j + |after| == |s| && At(s, j, after) && Scan(s, |before|, 0, |before|, []) == Scan(s, j, 0, j, Texts(args))
  {
    CommaListStands(before, args, after);
    SpaceIsPad();
    ScansCommaList(CallText(before, args, ',', after), |before|, [], [], args, after);
    assert [] + Texts(args) == Texts(args);
    j := |before| + |ListText([], args, ',')|;
    ListTextIsJoin([], args, ',');
  }

  /** A comma behind the last argument adds none. */
  lemma TrailingCommaAddsNone(
    before: string, args: seq<seq<Piece>>, blanks: string, close: char, after: string)
    requires AreArguments(args) && args != [] && AllBlank(blanks) && IsClose(close)
    ensures Scan(CallText(before, args, ',', blanks + ([close] + after)), |before|, 0, |before|, []) == Texts(args)
  {
    var behind := blanks + ([close] + after);
    var j := ScansCommaCall(before, args, behind);
    BlanksScan(CallText(before, args, ',', behind), j, Texts(args), blanks, close, after);
    NonEmptyKeeps(Texts(args));
  }

  /** Of a list that is never closed, what stands behind the last comma is left out. */
  lemma UnclosedLosesTheLast(before: string, args: seq<seq<Piece>>, last: seq<Piece>)
    requires AreArguments(args) && args != [] && ArePieces(last, true)
    ensures Scan(CallText(before, args, ',', ShowAll(last)), |before|, 0, |before|, []) == Texts(args)
  {
    var j := ScansCommaCall(before, args, ShowAll(last));
    ScanEnds(CallText(before, args, ',', ShowAll(last)), j, Texts(args), last);
  }

  lemma ScanEnds(s: string, j: nat, done: seq<string>, last: seq<Piece>)
    requires ArePieces(last, true) && At(s, j, ShowAll(last)) && j + |ShowAll(last)| == |s|
    ensures Scan(s, j, 0, j, done) == done
  {
    ScansPieces(s, j, 0, j, done, last);
  }

  lemma EmptyCall(before: string, close: char, after: string)
    ensures var s := CallText(before, [], close, after); |before| < |s| && s[|before|] == close && Texts([]) == []
  {
    assert Join(Texts([]), ", ") + [close] == [close];
  }

  lemma EmptyListScans(s: string, i: nat)
    requires i < |s| && IsClose(s[i])
    ensures Scan(s, i, 0, i, []) == []
  {
    ScanCuts(s, i, i, []);
    assert s[i..i] == "" && Trim("") == "";
    assert [] + [""] == [""];
    assert NonEmpty([""]) == NonEmpty([""][..0]) + [];
  }

  // ----- The quote-blind scanner over a text -----

  /** Where a quote-blind scan of a text from a depth ends, or none when it cuts inside the text.
      The depth may go below zero. */
  function BlindDepth(t: string, depth: int): Option<int> {
    if t == [] then Some(depth)
    else if depth == 0 && (t[0] == ',' || t[0] == ')') then None
    else BlindDepth(t[1..], Shift(depth, t[0]))
  }

  /** A quote-blind scan goes over the text as if it were balanced. */
  predicate BlindOver(t: string) {
    BlindDepth(t, 0) == Some(0)
  }

  lemma {:induction false} BlindRuns(s: string, i: nat, depth: int, current: string, done: seq<string>, t: string)
    requires At(s, i, t) && BlindDepth(t, depth).Some?
    ensures ScanConstructor(s, i, depth, current, done)
         == ScanConstructor(s, i + |t|, BlindDepth(t, depth).value, current + t, done)
    decreases |t|
  {
    if t == [] {
      assert current + t == current;
    } else {
      assert t == [t[0]] + t[1..];
      AtChar(s, i, t[0], t[1..]);
      BlindRuns(s, i + 1, Shift(depth, t[0]), current + [t[0]], done, t[1..]);
      assert current + [t[0]] + t[1..] == current + t;
    }
  }

  lemma {:induction false} BlindKeeps(s: string, i: nat, depth: int, current: string, done: seq<string>)
    ensures done <= ScanConstructor(s, i, depth, current, done)
    decreases |s| - i
  {
    if i < |s| && !(depth == 0 && s[i] == ')') {
      if depth == 0 && s[i] == ',' {
        BlindKeeps(s, i + 1, depth, "", done + [Trim(current)]);
      } else {
        BlindKeeps(s, i + 1, Shift(depth, s[i]), current + [s[i]], done);
      }
    }
  }

  /** What the scanner gives out next is the text. */
  ghost predicate NextIs(result: seq<string>, done: seq<string>, t: string) {
    |result| > |done| && result[|done|] == t
  }

  /** A scan that cuts inside a text gives out a proper part of it, or nothing. */
  lemma {:induction false} BlindStops(
    s: string, i: nat, depth: int, current: string, done: seq<string>, t: string) returns (cut: nat)
    requires At(s, i, t) && BlindDepth(t, depth).None?
    ensures cut < |t|
    ensures var result := ScanConstructor(s, i, depth, current, done);
      |result| > |done| ==> NextIs(result, done, Trim(current + t[..cut]))
    decreases |t|
  {
    assert t == [t[0]] + t[1..];
    AtChar(s, i, t[0], t[1..]);
    if depth == 0 && (t[0] == ',' || t[0] == ')') {
      cut := 0;
      assert current + t[..0] == current;
      BlindKeeps(s, i + 1, 0, "", done + [Trim(current)]);
    } else {
      cut := BlindStops(s, i + 1, Shift(depth, t[0]), current + [t[0]], done, t[1..]);
      assert current + [t[0]] + t[1..][..cut] == current + t[..cut + 1];
      cut := cut + 1;
    }
  }

  lemma {:induction false} TrimShortens(s: string)
    ensures |Trim(s)| <= |s|
  {
    if s != [] && IsBlank(s[0]) {
      TrimShortens(s[1..]);
    } else if s != [] && IsBlank(s[|s| - 1]) {
      TrimShortens(s[..|s| - 1]);
    }
  }

  lemma {:induction false} TrimSkipsPad(pad: string, s: string)
    requires AllBlank(pad)
    ensures |Trim(pad + s)| <= |s|
  {
    if pad == [] {
      assert pad + s == s;
      TrimShortens(s);
    } else {
      assert (pad + s)[1..] == pad[1..] + s;
      TrimSkipsPad(pad[1..], s);
    }
  }

  lemma {:induction false} TrimGrows(s: string, c: char)
    ensures |Trim(s)| <= |Trim(s + [c])|
  {
    if s != [] {
      if IsBlank(s[0]) {
        assert (s + [c])[1..] == s[1..] + [c];
        TrimGrows(s[1..], c);
      } else if IsBlank(c) {
        assert (s + [c])[..|s|] == s;
      } else {
        TrimShortens(s);
      }
    }
  }

  /** What is collected is given out, with whatever is collected on top of it. */
  lemma {:induction false} BlindGivesOut(s: string, i: nat, depth: int, current: string, done: seq<string>, n: nat)
    requires |Trim(current)| > n
    ensures var result := ScanConstructor(s, i, depth, current, done); |result| > |done| && |result[|done|]| > n
    decreases |s| - i
  {
    if i < |s| && !(depth == 0 && s[i] == ')') {
      if depth == 0 && s[i] == ',' {
        BlindKeeps(s, i + 1, depth, "", done + [Trim(current)]);
      } else {
        TrimGrows(current, s[i]);
        BlindGivesOut(s, i + 1, Shift(depth, s[i]), current + [s[i]], done, n);
      }
    }
  }

  // ----- The quote-blind scanner on a list -----

  lemma {:induction false} BlankIsBlind(pad: string, t: string)
    requires AllBlank(pad)
    ensures BlindDepth(pad + t, 0) == BlindDepth(t, 0)
  {
    if pad == [] {
      assert pad + t == t;
    } else {
      assert (pad + t)[1..] == pad[1..] + t;
      BlankIsBlind(pad[1..], t);
    }
  }

  /** An argument with its padding in a list, followed by a comma or the close. */
  ghost predicate StandsAt(s: string, i: nat, pad: string, t: string, separator: char) {
    && AllBlank(pad) && IsTrimmed(t) && (separator == ',' || separator == ')')
    && At(s, i, pad + t) && i + |pad + t| < |s| && s[i + |pad + t|] == separator
  }

  /** An argument that ends off depth 0 swallows what separates it from the next. */
  lemma BlindSwallows(s: string, i: nat, done: seq<string>, pad: string, t: string, separator: char)
    requires StandsAt(s, i, pad, t, separator) && BlindDepth(t, 0).Some? && !BlindOver(t)
    ensures !NextIs(ScanConstructor(s, i, 0, "", done), done, t)
  {
    BlankIsBlind(pad, t);
    BlindRuns(s, i, 0, "", done, pad + t);
    assert "" + (pad + t) == pad + t;
    var j, depth := i + |pad + t|, BlindDepth(t, 0).value;
    assert pad + t + [separator] == pad + (t + [separator]) + "";
    TrimPadding(pad, t + [separator], "");
    BlindGivesOut(s, j + 1, Shift(depth, separator), pad + t + [separator], done, |t|);
  }

  lemma {:induction false} StopsInText(pad: string, t: string, cut: nat)
    requires AllBlank(pad) && IsTrimmed(t) && cut < |pad + t|
    ensures Trim((pad + t)[..cut]) != t
  {
    if cut <= |pad| {
      assert (pad + t)[..cut] == pad[..cut] + "";
      TrimSkipsPad(pad[..cut], "");
    } else {
      assert (pad + t)[..cut] == pad + t[..cut - |pad|];
      TrimSkipsPad(pad, t[..cut - |pad|]);
    }
  }

  /** The argument that a quote-blind scan does not go over is not given out. */
  lemma BlindMisses(s: string, i: nat, done: seq<string>, pad: string, t: string, separator: char)
    requires StandsAt(s, i, pad, t, separator) && !BlindOver(t)
    ensures !NextIs(ScanConstructor(s, i, 0, "", done), done, t)
  {
    if BlindDepth(t, 0).Some? {
      BlindSwallows(s, i, done, pad, t, separator);
    } else {
      BlankIsBlind(pad, t);
      var cut := BlindStops(s, i, 0, "", done, pad + t);
      assert "" + (pad + t)[..cut] == (pad + t)[..cut];
      StopsInText(pad, t, cut);
    }
  }

  /** The argument that it goes over is given out. */
  lemma BlindTakes(s: string, i: nat, done: seq<string>, pad: string, t: string, separator: char)
    requires StandsAt(s, i, pad, t, separator) && BlindOver(t)
    ensures ScanConstructor(s, i, 0, "", done)
         == if separator == ',' then ScanConstructor(s, i + |pad + t| + 1, 0, "", done + [t]) else done + [t]
  {
    BlankIsBlind(pad, t);
    BlindRuns(s, i, 0, "", done, pad + t);
    assert "" + (pad + t) == pad + t;
    assert pad + t == pad + t + "";
    TrimPadding(pad, t, "");
  }

  lemma PaddedStands(s: string, i: nat, pad: seq<Piece>, arg: seq<Piece>, separator: char, rest: string)
    requires IsPad(pad) && IsArgument(arg) && (separator == ',' || separator == ')')
    requires At(s, i, ShowAll(pad + arg) + ([separator] + rest))
    ensures StandsAt(s, i, ShowAll(pad), ShowAll(arg), separator)
    ensures At(s, i + |ShowAll(pad) + ShowAll(arg)| + 1, rest)
  {
    ShowAllConcat(pad, arg);
    AtConcat(s, i, ShowAll(pad + arg), [separator] + rest);
    AtChar(s, i + |ShowAll(pad + arg)|, separator, rest);
  }

  lemma FirstStands(s: string, i: nat, pad: seq<Piece>, args: seq<seq<Piece>>)
    requires args != [] && IsPad(pad) && IsArgument(args[0]) && At(s, i, ListText(pad, args, ')'))
    ensures StandsAt(s, i, ShowAll(pad), ShowAll(args[0]), if |args| == 1 then ')' else ',')
    ensures |args| > 1 ==> At(s, i + |ShowAll(pad) + ShowAll(args[0])| + 1, ListText(SPACE, args[1..], ')'))
  {
    ListTextUnfolds(pad, args, ')');
    if |args| == 1 {
      assert [')'] + "" == [')'];
      PaddedStands(s, i, pad, args[0], ')', "");
    } else {
      PaddedStands(s, i, pad, args[0], ',', ListText(SPACE, args[1..], ')'));
    }
  }

  /** The quote-blind scan goes over every argument. */
  predicate AllBlind(args: seq<seq<Piece>>) {
    forall k :: 0 <= k < |args| ==> BlindOver(ShowAll(args[k]))
  }

  lemma AllBlindCons(args: seq<seq<Piece>>)
    requires args != []
    ensures AllBlind(args) <==> BlindOver(ShowAll(args[0])) && AllBlind(args[1..])
  {
    assert args == [args[0]] + args[1..];
  }

  lemma BlindListMisses(s: string, i: nat, done: seq<string>, pad: seq<Piece>, args: seq<seq<Piece>>)
    requires AreArguments(args) && args != [] && IsPad(pad) && At(s, i, ListText(pad, args, ')'))
    requires !BlindOver(ShowAll(args[0]))
    ensures ScanConstructor(s, i, 0, "", done) != done + Texts(args)
  {
    var t := ShowAll(args[0]);
    FirstStands(s, i, pad, args);
    TextsCons(args);
    BlindMisses(s, i, done, ShowAll(pad), t, if |args| == 1 then ')' else ',');
    assert NextIs(done + Texts(args), done, t);
  }

  lemma {:induction false} BlindListIff(s: string, i: nat, done: seq<string>, pad: seq<Piece>, args: seq<seq<Piece>>)
    requires AreArguments(args) && args != [] && IsPad(pad) && At(s, i, ListText(pad, args, ')'))
    ensures ScanConstructor(s, i, 0, "", done) == done + Texts(args) <==> AllBlind(args)
    decreases |args|
  {
    var p, t, separator := ShowAll(pad), ShowAll(args[0]), if |args| == 1 then ')' else ',';
    AllBlindCons(args);
    if !BlindOver(t) {
      BlindListMisses(s, i, done, pad, args);
    } else {
      FirstStands(s, i, pad, args);
      TextsCons(args);
      BlindTakes(s, i, done, p, t, separator);
      if |args| == 1 {
        DoneEnds(done, t, Texts(args));
      } else {
        SpaceIsPad();
        BlindListIff(s, i + |p + t| + 1, done + [t], SPACE, args[1..]);
        DoneGrows(done, t, Texts(args[1..]), Texts(args));
      }
    }
  }

  lemma BlindCallIff(before: string, args: seq<seq<Piece>>, after: string)
    requires AreArguments(args)
    ensures ScanConstructor(CallText(before, args, ')', after), |before|, 0, "", []) == Texts(args) <==> AllBlind(args)
  {
    if args == [] {
      EmptyCall(before, ')', after);
      assert Trim("") == "";
    } else {
      ListStandsThere(before, args, ')', after);
      SpaceIsPad();
      BlindListIff(CallText(before, args, ')', after), |before|, [], [], args);
      assert [] + Texts(args) == Texts(args);
    }
  }

  /** The scanner of `constructorCalls` gives a call's arguments, as `callArguments` does, exactly
      when a quote-blind scan goes over each of them. */
  lemma ScannersAgreeIff(before: string, args: seq<seq<Piece>>, after: string)
    requires AreArguments(args)
    ensures var s := CallText(before, args, ')', after); var blind := ScanConstructor(s, |before|, 0, "", []);
      && (blind == Texts(args) <==> forall k :: 0 <= k < |args| ==> BlindOver(Texts(args)[k]))
      && (blind == Scan(s, |before|, 0, |before|, []) <==> blind == Texts(args))
  {
    CallArgumentsUndoesPrinting(before, args, ')', after);
    BlindCallIff(before, args, after);
    assert forall k :: 0 <= k < |args| ==> Texts(args)[k] == ShowAll(args[k]);
  }

  // ----- Which arguments it goes over -----

  predicate IsQuoteFree(p: Piece)
    decreases p
  {
    match p
    case Plain(_) => true
    case Quoted(_, _) => false
    case Group(_, inner, _) => forall i :: 0 <= i < |inner| ==> IsQuoteFree(inner[i])
  }

  predicate AreQuoteFree(pieces: seq<Piece>) {
    forall i :: 0 <= i < |pieces| ==> IsQuoteFree(pieces[i])
  }

  lemma {:induction false} BlindDepthConcat(a: string, b: string, depth: int)
    ensures BlindDepth(a + b, depth)
         == if BlindDepth(a, depth).Some? then BlindDepth(b, BlindDepth(a, depth).value) else None
  {
    if a == [] {
      assert a + b == b;
    } else {
      assert (a + b)[1..] == a[1..] + b;
      if !(depth == 0 && (a[0] == ',' || a[0] == ')')) {
        BlindDepthConcat(a[1..], b, Shift(depth, a[0]));
      }
    }
  }

  lemma BlindChar(c: char, depth: int)
    ensures BlindDepth([c], depth) == if depth == 0 && (c == ',' || c == ')') then None else Some(Shift(depth, c))
  {
    assert [c][1..] == [];
  }

  lemma {:induction false} BlindPiece(p: Piece, depth: nat)
    requires IsPiece(p, depth == 0) && IsQuoteFree(p)
    ensures BlindDepth(Show(p), depth) == Some(depth)
    decreases p, 1
  {
    match p
    case Plain(c) =>
      BlindChar(c, depth);
    case Group(open, inner, close) =>
      BlindPieces(inner, depth + 1);
      BlindChar(open, depth);
      BlindChar(close, depth + 1);
      BlindDepthConcat([open], ShowAll(inner), depth);
      BlindDepthConcat([open] + ShowAll(inner), [close], depth);
  }

  lemma {:induction false} BlindPieces(pieces: seq<Piece>, depth: nat)
    requires ArePieces(pieces, depth == 0) && AreQuoteFree(pieces)
    ensures BlindDepth(ShowAll(pieces), depth) == Some(depth)
    decreases pieces, 0
  {
    if pieces != [] {
      BlindPiece(pieces[0], depth);
      BlindPieces(pieces[1..], depth);
      BlindDepthConcat(Show(pieces[0]), ShowAll(pieces[1..]), depth);
    }
  }

  /** On quote-free argument lists the two scanners agree. */
  lemma ScannersAgree(before: string, args: seq<seq<Piece>>, after: string)
    requires AreArguments(args) && forall k :: 0 <= k < |args| ==> AreQuoteFree(args[k])
    ensures var s := CallText(before, args, ')', after);
      && ScanConstructor(s, |before|, 0, "", []) == Texts(args)
      && ScanConstructor(s, |before|, 0, "", []) == Scan(s, |before|, 0, |before|, [])
  {
    forall k | 0 <= k < |args| ensures BlindOver(Texts(args)[k]) { BlindPieces(args[k], 0); }
    ScannersAgreeIff(before, args, after);
  }

  lemma ShowQuotedChar(quote: char, c: char)
    ensures ShowAll([Quoted(quote, [Raw(c)])]) == [quote, c, quote]
  {
    var body := [Raw(c)];
    assert body[1..] == [];
    assert ShowQuoted(body) == [c] + [];
    ShowAllCons(Quoted(quote, body), []);
    assert [Quoted(quote, body)] + [] == [Quoted(quote, body)];
  }

  lemma BlindQuoted(quote: char, c: char)
    requires IsQuote(quote)
    ensures BlindOver([quote, c, quote]) <==> c != ',' && !IsOpen(c) && !IsClose(c)
  {
    BlindChar(quote, 0);
    BlindChar(c, 0);
    BlindDepthConcat([quote], [c], 0);
    BlindDepthConcat([quote] + [c], [quote], 0);
    assert [quote] + [c] + [quote] == [quote, c, quote];
    if BlindDepth([c], 0).Some? { BlindChar(quote, Shift(0, c)); }
  }

  /** One quoted character tells them apart exactly when it is a comma or a bracket, whatever the
      quote and whatever follows. */
  lemma QuotesTellThemApart(quote: char, c: char, after: string)
    requires IsQuote(quote) && c != quote && c != '\\'
    ensures var s := [quote, c, quote, ')'] + after;
      && Scan(s, 0, 0, 0, []) == [[quote, c, quote]]
      && (ScanConstructor(s, 0, 0, "", []) != [[quote, c, quote]] <==> c == ',' || IsOpen(c) || IsClose(c))
  {
    var arg := [Quoted(quote, [Raw(c)])];
    ShowQuotedChar(quote, c);
    JoinOne([arg]);
    CallArgumentsUndoesPrinting("", [arg], ')', after);
    ScannersAgreeIff("", [arg], after);
    BlindQuoted(quote, c);
    assert Texts([arg]) == [[quote, c, quote]];
    assert CallText("", [arg], ')', after) == [quote, c, quote, ')'] + after;
  }

  // ----- Every kind of quote and bracket -----

  lemma ShowEscaped(quote: char, c: char)
    ensures ShowAll([Quoted(quote, [Escaped(c)])]) == [quote, '\\', c, quote]
  {
    var body := [Escaped(c)];
    assert body[1..] == [];
    assert ShowQuoted(body) == ['\\', c] + [];
    ShowAllCons(Quoted(quote, body), []);
    assert [Quoted(quote, body)] + [] == [Quoted(quote, body)];
  }

  lemma ShowGroup(open: char, c: char, close: char)
    ensures ShowAll([Group(open, [Plain(c)], close)]) == [open, c, close]
  {
    assert [Plain(c)][1..] == [] && ShowAll([Plain(c)]) == [c] + [];
    ShowAllCons(Group(open, [Plain(c)], close), []);
    assert [Group(open, [Plain(c)], close)] + [] == [Group(open, [Plain(c)], close)];
  }

  const EVERY_KIND: seq<seq<Piece>> := [
    [Quoted('\'', [Raw(',')])], [Quoted('\"', [Raw(')')])], [Quoted('`', [Escaped('`')])],
    [Group('(', [Plain(',')], ')')], [Group('[', [Plain(',')], ']')], [Group('{', [Plain(',')], '}')]
  ]

  lemma EveryKindShows()
    ensures Texts(EVERY_KIND) == ["','", "\")\"", "`\\``", "(,)", "[,]", "{,}"]
  {
    ShowQuotedChar('\'', ',');
    ShowQuotedChar('\"', ')');
    ShowEscaped('`', '`');
    ShowGroup('(', ',', ')');
    ShowGroup('[', ',', ']');
    ShowGroup('{', ',', '}');
  }

  lemma EveryKindIsArgument()
    ensures AreArguments(EVERY_KIND)
  {
    EveryKindShows();
    forall i | 0 <= i < |EVERY_KIND| ensures IsArgument(EVERY_KIND[i]) {
      assert Texts(EVERY_KIND)[i] == ShowAll(EVERY_KIND[i]);
    }
  }

  /** Commas and closing brackets inside each kind of quote, behind a backslash and inside each kind of
      bracket do not separate arguments. */
  lemma EveryKindHolds(after: string)
    ensures var texts := ["','", "\")\"", "`\\``", "(,)", "[,]", "{,}"];
      Scan(Join(texts, ", ") + [')'] + after, 0, 0, 0, []) == texts
  {
    EveryKindShows();
    EveryKindIsArgument();
    CallArgumentsUndoesPrinting("", EVERY_KIND, ')', after);
    assert "" + (Join(Texts(EVERY_KIND), ", ") + [')']) + after == Join(Texts(EVERY_KIND), ", ") + [')'] + after;
  }
}
