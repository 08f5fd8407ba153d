/**
 A reader of the statements `renderStatement` writes, and the proof that the text of a
 replacement means what its groups mean.
 */
module UnbarrelReader {
  import opened Options
  import opened Text
  import opened ModulePaths
  import opened Unbarrel

  predicate IsIdentifierChar(c: char) {
    || 'a' <= c <= 'z' || 'A' <= c <= 'Z' || '0' <= c <= '9' || c == '_' || c == '$'
    || (c >= '\U{0080}' && !IsBlank(c))
  }

  predicate IsIdentifier(s: string) {
    s != "" && !('0' <= s[0] <= '9') && forall i :: 0 <= i < |s| ==> IsIdentifierChar(s[i])
  }

  /** A specifier that can stand between double quotes as it is. */
  predicate IsPlainTarget(s: string) {
    forall i :: 0 <= i < |s| ==> IsPlainChar(s[i])
  }

  predicate IsPlainChar(c: char) {
    c != '\"' && c != '\\' && c != '\n' && c != '\r'
  }

  /** The index of the first `c`, or the length. */
  function IndexOf(s: string, c: char): (n: nat)
    ensures n <= |s| && c !in s[..n]
    ensures n < |s| ==> s[n] == c
  {
    if s == [] || s[0] == c then 0 else 1 + IndexOf(s[1..], c)
  }

  /** One specifier of the list; its number of words tells the forms apart, so names spelled
      `type` or `as` are read as TypeScript reads them. */
  function ReadWords(words: seq<string>): Option<Specifier> {
    if !(forall i :: 0 <= i < |words| ==> IsIdentifier(words[i])) then None
    else if |words| == 1 then Some(Specifier(words[0], words[0], false))
    else if |words| == 2 && words[0] == "type" then Some(Specifier(words[1], words[1], true))
    else if |words| == 3 && words[1] == "as" then Some(Specifier(words[0], words[2], false))
    else if |words| == 4 && words[0] == "type" && words[2] == "as" then Some(Specifier(words[1], words[3], true))
    else None
  }

  function ReadItems(items: seq<string>): Option<seq<Specifier>> {
    if items == [] then Some([])
    else
      match (ReadWords(Split(Trim(items[0]), ' ')), ReadItems(items[1..]))
      case (Some(x), Some(rest)) => Some([x] + rest)
      case _ => None
  }

  /** `{ list ` */
  function ReadList(text: string): Option<seq<Specifier>> {
    if !(|text| >= 3 && StartsWith(text, "{ ") && text[|text| - 1] == ' ') then None
    else ReadItems(Split(text[2..|text| - 1], ','))
  }

  /** A string literal behind its opening quote: its value, and the text behind its closing quote. */
  datatype Literal = Literal(value: string, rest: string)

  function ReadString(s: string): Option<Literal> {
    if s == "" || s[0] == '\n' || s[0] == '\r' then None
    else if s[0] == '\"' then Some(Literal("", s[1..]))
    else if s[0] != '\\' then Prepend(s[0], ReadString(s[1..]))
    else if |s| == 1 then None
    else
      match Unescape(s[1])
      case None => None
      case Some(c) => Prepend(c, ReadString(s[2..]))
  }

  function Prepend(c: char, r: Option<Literal>): Option<Literal> {
    if r.Some? then Some(r.value.(value := [c] + r.value.value)) else None
  }

  /** The escapes of one character; the others are not read. */
  function Unescape(c: char): Option<char> {
    if c == 'n' then Some('\n') else if c == 'r' then Some('\r') else if c == 't' then Some('\t')
    else if c in "xu0123456789bfv\n\r" then None
    else Some(c)
  }

  /** ` from "target";` */
  function ReadTarget(text: string): Option<string> {
    if !StartsWith(text, " from \"") then None
    else
      var literal := ReadString(text[7..]);
      if literal.None? || literal.value.rest != ";" then None else Some(literal.value.value)
  }

  /** `{ list } from "target";` */
  function ReadClause(keyword: Keyword, typeOnly: bool, text: string): Option<Statement> {
    var close := IndexOf(text, '}');
    if close == |text| then None
    else Assemble(keyword, typeOnly, ReadList(text[..close]), ReadTarget(text[close + 1..]))
  }

  function Assemble(
    keyword: Keyword, typeOnly: bool, list: Option<seq<Specifier>>, target: Option<string>): Option<Statement>
  {
    if list.Some? && target.Some? then Some(Statement(keyword, target.value, typeOnly, list.value)) else None
  }

  function ReadStatement(text: string): Option<Statement> {
    if StartsWith(text, "import ") then ReadMarked(Import, text[7..])
    else if StartsWith(text, "export ") then ReadMarked(Export, text[7..])
    else None
  }

  function ReadMarked(keyword: Keyword, text: string): Option<Statement> {
    if StartsWith(text, "type ") then ReadClause(keyword, true, text[5..]) else ReadClause(keyword, false, text)
  }

  function ReadLines(lines: seq<string>): Option<seq<Statement>> {
    if lines == [] then Some([])
    else
      match (ReadStatement(lines[0]), ReadLines(lines[1..]))
      case (Some(s), Some(rest)) => Some([s] + rest)
      case _ => None
  }

  function ReadStatements(text: string): Option<seq<Statement>> {
    ReadLines(Split(text, '\n'))
  }

  // ----- Reading undoes writing -----

  predicate Spellable(n: RewrittenName) {
    IsIdentifier(n.name) && IsIdentifier(n.bound)
  }

  predicate AllSpellable(names: seq<RewrittenName>) {
    forall i :: 0 <= i < |names| ==> Spellable(names[i])
  }

  /** Joined words hold only identifier characters and the spaces between them. */
  lemma {:induction false} JoinedWords(words: seq<string>)
    requires words != [] && forall i :: 0 <= i < |words| ==> IsIdentifier(words[i])
    ensures var s := Join(words, " ");
      IsTrimmed(s) && forall i :: 0 <= i < |s| ==> s[i] == ' ' || IsIdentifierChar(s[i])
  {
    if |words| > 1 {
      JoinedWords(words[1..]);
      var s := Join(words[1..], " ");
      assert Join(words, " ") == words[0] + " " + s;
    }
  }

  lemma WordsReadBack(n: RewrittenName, marked: bool)
    requires Spellable(n)
    ensures ReadWords(Split(Join(Words(n, marked), " "), ' ')) == Some(Specifier(n.name, n.bound, marked))
    ensures var s := Join(Words(n, marked), " ");
      IsTrimmed(s) && forall i :: 0 <= i < |s| ==> s[i] == ' ' || IsIdentifierChar(s[i])
  {
    var words := Words(n, marked);
    assert IsIdentifier("type") && IsIdentifier("as");
    assert forall i :: 0 <= i < |words| ==> IsIdentifier(words[i]);
    assert [' '] == " ";
    SplitJoin(words, ' ');
    JoinedWords(words);
  }

  predicate IsItem(s: string) {
    IsTrimmed(s) && forall i :: 0 <= i < |s| ==> s[i] == ' ' || IsIdentifierChar(s[i])
  }

  lemma TrimItem(pad: string, item: string)
    requires AllBlank(pad) && IsTrimmed(item)
    ensures Trim(pad + item) == item
  {
    TrimPadding(pad, item, "");
    assert pad + item + "" == pad + item;
  }

  function ReadCons(first: Option<Specifier>, rest: Option<seq<Specifier>>): Option<seq<Specifier>> {
    match (first, rest)
    case (Some(x), Some(xs)) => Some([x] + xs)
    case _ => None
  }

  lemma ReadItemsCons(item: string, rest: seq<string>)
    ensures ReadItems([item] + rest) == ReadCons(ReadWords(Split(Trim(item), ' ')), ReadItems(rest))
  {
    assert ([item] + rest)[1..] == rest;
  }

  lemma PaddedItem(pad: string, item: string, rest: seq<string>)
    requires AllBlank(pad) && IsTrimmed(item)
    ensures ReadItems([pad + item] + rest) == ReadItems([item] + rest)
  {
    TrimItem(pad, item);
    TrimItem("", item);
    assert "" + item == item;
    ReadItemsCons(pad + item, rest);
    ReadItemsCons(item, rest);
  }

  /** Splitting the list at its commas gives the items back, but for the spaces after commas. */
  lemma {:induction false} ItemsReadBack(items: seq<string>, pad: string)
    requires items != [] && AllBlank(pad) && ',' !in pad
    requires forall i :: 0 <= i < |items| ==> IsItem(items[i])
    ensures ReadItems(Split(pad + Join(items, ", "), ',')) == ReadItems(items)
    decreases |items|
  {
    var first := pad + items[0];
    assert ',' !in first;
    if |items| == 1 {
      SplitWhole(first, ',');
      PaddedItem(pad, items[0], []);
      assert [first] + [] == [first] && [items[0]] + [] == items;
    } else {
      var list := Join(items[1..], ", ");
      ItemsReadBack(items[1..], " ");
      ListSplits(pad, items[0], list);
      PaddedItem(pad, items[0], Split(" " + list, ','));
      ReadItemsCons(items[0], Split(" " + list, ','));
      ReadItemsCons(items[0], items[1..]);
      assert items == [items[0]] + items[1..];
    }
  }

  lemma ListSplits(pad: string, item: string, list: string)
    requires ',' !in pad + item
    ensures Split(pad + (item + ", " + list), ',') == [pad + item] + Split(" " + list, ',')
  {
    assert ", " == [','] + " ";
    assert pad + (item + ", " + list) == (pad + item) + [','] + (" " + list);
    SplitFirst(pad + item, ',', " " + list);
  }

  function Specifiers(names: seq<RewrittenName>, marks: seq<bool>): seq<Specifier>
    requires |names| == |marks|
  {
    if names == [] then []
    else [Specifier(names[0].name, names[0].bound, marks[0])] + Specifiers(names[1..], marks[1..])
  }

  lemma {:induction false} SpecifiersAt(names: seq<RewrittenName>, marks: seq<bool>)
    requires |names| == |marks|
    ensures |Specifiers(names, marks)| == |names|
    ensures forall i :: 0 <= i < |names| ==>
      Specifiers(names, marks)[i] == Specifier(names[i].name, names[i].bound, marks[i])
  {
    if names != [] {
      SpecifiersAt(names[1..], marks[1..]);
    }
  }

  lemma ItemReadsBack(n: RewrittenName, marked: bool, item: string)
    requires Spellable(n) && item == Join(Words(n, marked), " ")
    ensures IsItem(item) && ReadWords(Split(Trim(item), ' ')) == Some(Specifier(n.name, n.bound, marked))
  {
    WordsReadBack(n, marked);
    TrimItem("", item);
    assert "" + item == item;
  }

  lemma {:induction false} NamesReadBack(names: seq<RewrittenName>, marks: seq<bool>, items: seq<string>)
    requires |names| == |marks| == |items| && AllSpellable(names)
    requires forall i :: 0 <= i < |names| ==> items[i] == Join(Words(names[i], marks[i]), " ")
    ensures ReadItems(items) == Some(Specifiers(names, marks))
    ensures forall i :: 0 <= i < |items| ==> IsItem(items[i])
  {
    if names != [] {
      NamesReadBack(names[1..], marks[1..], items[1..]);
      ItemReadsBack(names[0], marks[0], items[0]);
      assert forall i :: 1 <= i < |items| ==> items[i] == items[1..][i - 1];
    }
  }

  /** An item list never holds a brace. */
  lemma {:induction false} NoBrace(items: seq<string>)
    requires forall i :: 0 <= i < |items| ==> IsItem(items[i])
    ensures '}' !in Join(items, ", ") && '\n' !in Join(items, ", ")
  {
    if |items| > 1 {
      NoBrace(items[1..]);
      assert Join(items, ", ") == items[0] + ", " + Join(items[1..], ", ");
    }
  }

  lemma IndexOfFirst(before: string, c: char, after: string)
    requires c !in before
    ensures IndexOf(before + [c] + after, c) == |before|
  {
    var s := before + [c] + after;
    var n := IndexOf(s, c);
    assert s[|before|] == c;
    assert forall i :: 0 <= i < |before| ==> s[i] == before[i];
    assert forall i :: 0 <= i < n ==> s[..n][i] == s[i];
  }

  lemma Dropped(prefix: string, s: string)
    ensures StartsWith(prefix + s, prefix) && (prefix + s)[|prefix|..] == s
  {
  }

  lemma NotPrefix(prefix: string, s: string)
    requires prefix != "" && s != "" && prefix[0] != s[0]
    ensures !StartsWith(s, prefix)
  {
  }

  /** A literal is never shorter than what it stands for and what follows it, and an escape makes it
      longer. */
  lemma {:induction false} LiteralLength(s: string)
    ensures ReadString(s).Some? ==> |ReadString(s).value.value| + 1 + |ReadString(s).value.rest| <= |s|
    decreases |s|
  {
    if s != "" && s[0] != '\"' {
      LiteralLength(s[1..]);
      if |s| > 1 { LiteralLength(s[2..]); }
    }
  }

  /** Written between quotes as it is, a text is read back as itself exactly when it is plain. */
  lemma {:induction false} StringReadsBackIff(value: string, rest: string)
    ensures ReadString(value + "\"" + rest) == Some(Literal(value, rest)) <==> IsPlainTarget(value)
  {
    var s := value + "\"" + rest;
    if value == "" {
      assert s == "\"" + rest && s[1..] == rest;
    } else {
      var more := value[1..] + "\"" + rest;
      assert s[0] == value[0] && s[1..] == more;
      assert value == [value[0]] + value[1..];
      StringReadsBackIff(value[1..], rest);
      if value[0] == '\\' {
        LiteralLength(s[2..]);
      } else if IsPlainChar(value[0]) {
        assert ReadString(s) == Prepend(value[0], ReadString(more));
        PrependIff(value[0], ReadString(more), value[1..], rest);
        assert IsPlainTarget(value) <==> IsPlainTarget(value[1..]) by {
          assert forall i :: 1 <= i < |value| ==> value[i] == value[1..][i - 1];
        }
      }
    }
  }

  lemma PrependIff(c: char, r: Option<Literal>, value: string, rest: string)
    ensures Prepend(c, r) == Some(Literal([c] + value, rest)) <==> r == Some(Literal(value, rest))
  {
    if r.Some? {
      assert ([c] + r.value.value)[1..] == r.value.value && ([c] + value)[1..] == value;
    }
  }

  lemma TargetReadsBackIff(target: string)
    ensures ReadTarget(Closing(target)) == Some(target) <==> IsPlainTarget(target)
  {
    Dropped(" from \"", target + "\";");
    assert target + "\";" == target + "\"" + ";";
    StringReadsBackIff(target, ";");
    if ReadTarget(Closing(target)) == Some(target) {
      assert ReadString(target + "\";") == Some(Literal(target, ";"));
    }
  }

  lemma ListReadsBack(list: string)
    ensures ReadList(Opening(list)) == ReadItems(Split(list, ','))
  {
    var text := Opening(list);
    assert text[2..|text| - 1] == list;
  }

  lemma ClauseSplits(keyword: Keyword, typeOnly: bool, open: string, tail: string)
    requires '}' !in open
    ensures ReadClause(keyword, typeOnly, open + ['}'] + tail)
         == Assemble(keyword, typeOnly, ReadList(open), ReadTarget(tail))
  {
    var text := open + ['}'] + tail;
    IndexOfFirst(open, '}', tail);
    assert text[..|open|] == open;
    assert text[|open| + 1..] == tail;
  }

  lemma OpeningHasNoBrace(list: string)
    requires '}' !in list
    ensures '}' !in Opening(list)
  {
  }

  lemma ClauseReadsBack(keyword: Keyword, typeOnly: bool, list: string, target: string)
    requires '}' !in list
    ensures ReadClause(keyword, typeOnly, Opening(list) + ['}'] + Closing(target))
         == Assemble(keyword, typeOnly, ReadItems(Split(list, ',')), ReadTarget(Closing(target)))
  {
    OpeningHasNoBrace(list);
    ClauseSplits(keyword, typeOnly, Opening(list), Closing(target));
    ListReadsBack(list);
  }

  lemma KeywordReadsBack(keyword: Keyword, typeOnly: bool, clause: string)
    requires clause != "" && clause[0] == '{'
    ensures ReadStatement(KeywordText(keyword) + (TypeText(typeOnly) + clause)) == ReadClause(keyword, typeOnly, clause)
  {
    var rest := TypeText(typeOnly) + clause;
    Dropped(KeywordText(keyword), rest);
    if keyword.Export? { NotPrefix("import ", KeywordText(keyword) + rest); }
    MarkReadsBack(keyword, typeOnly, clause);
  }

  lemma MarkReadsBack(keyword: Keyword, typeOnly: bool, clause: string)
    requires clause != "" && clause[0] == '{'
    ensures ReadMarked(keyword, TypeText(typeOnly) + clause) == ReadClause(keyword, typeOnly, clause)
  {
    if typeOnly { TypeMarkReadsBack(keyword, clause); } else { NoMarkReadsBack(keyword, clause); }
  }

  lemma TypeMarkReadsBack(keyword: Keyword, clause: string)
    ensures ReadMarked(keyword, TypeText(true) + clause) == ReadClause(keyword, true, clause)
  {
    Dropped(TypeText(true), clause);
  }

  lemma NoMarkReadsBack(keyword: Keyword, clause: string)
    requires clause != "" && clause[0] == '{'
    ensures ReadMarked(keyword, TypeText(false) + clause) == ReadClause(keyword, false, clause)
  {
    assert TypeText(false) + clause == clause;
    NotPrefix("type ", clause);
  }

  /** The text of a statement reads back as the statement meant exactly when every name in it is an
      identifier and its target needs no escape. */
  lemma StatementReadsBackIff(keyword: Keyword, g: Group)
    requires g.names != []
    ensures ReadStatement(RenderStatement(keyword, g.target, g.names)) == Some(ToStatement(keyword, g))
       <==> IsReadable(g)
  {
    if AllSpellable(g.names) {
      SpelledStatement(keyword, g);
      TargetReadsBackIff(g.target);
    } else if ReadStatement(RenderStatement(keyword, g.target, g.names)) == Some(ToStatement(keyword, g)) {
      ReadsIdentifiers(RenderStatement(keyword, g.target, g.names));
      forall i | 0 <= i < |g.names| ensures Spellable(g.names[i]) {
        assert ToStatement(keyword, g).specifiers[i].taken == g.names[i].name;
      }
    }
  }

  predicate IsReadable(g: Group) {
    AllSpellable(g.names) && IsPlainTarget(g.target)
  }

  lemma ListOfReadsBack(keyword: Keyword, g: Group)
    requires g.names != [] && AllSpellable(g.names)
    ensures var list := Join(Items(g.names), ", ");
      && '}' !in list && '\n' !in list
      && ReadItems(Split(list, ',')) == Some(ToStatement(keyword, g).specifiers)
  {
    var all, items := AllTypes(g.names), Items(g.names);
    var marks := seq(|g.names|, i requires 0 <= i < |g.names| => !all && g.names[i].typeOnly);
    NamesReadBack(g.names, marks, items);
    SpecifiersAt(g.names, marks);
    assert ToStatement(keyword, g).specifiers == Specifiers(g.names, marks);
    ItemsReadBack(items, "");
    assert "" + Join(items, ", ") == Join(items, ", ");
    NoBrace(items);
  }

  /** With names that are identifiers, only the target is left to read. */
  lemma SpelledStatement(keyword: Keyword, g: Group)
    requires g.names != [] && AllSpellable(g.names)
    ensures ReadStatement(RenderStatement(keyword, g.target, g.names))
         == Assemble(keyword, AllTypes(g.names), Some(ToStatement(keyword, g).specifiers), ReadTarget(Closing(g.target)))
  {
    var all, list := AllTypes(g.names), Join(Items(g.names), ", ");
    ListOfReadsBack(keyword, g);
    ClauseReadsBack(keyword, all, list, g.target);
    KeywordReadsBack(keyword, all, Opening(list) + ['}'] + Closing(g.target));
  }

  lemma ReadableIsOneLine(keyword: Keyword, g: Group)
    requires g.names != [] && IsReadable(g)
    ensures '\n' !in RenderStatement(keyword, g.target, g.names)
  {
    ListOfReadsBack(keyword, g);
    assert forall i :: 0 <= i < |g.target| ==> IsPlainChar(g.target[i]);
    OneLine(keyword, AllTypes(g.names), Join(Items(g.names), ", "), g.target);
  }

  lemma OneLine(keyword: Keyword, typeOnly: bool, list: string, target: string)
    requires '\n' !in list && '\n' !in target
    ensures '\n' !in KeywordText(keyword) + (TypeText(typeOnly) + (Opening(list) + ['}'] + Closing(target)))
  {
    assert '\n' !in Opening(list);
    assert '\n' !in Closing(target) by { assert '\n' !in " from \"" && '\n' !in "\";"; }
    assert '\n' !in KeywordText(keyword) && '\n' !in TypeText(typeOnly);
  }

  lemma {:induction false} ItemsAreIdentifiers(items: seq<string>)
    ensures ReadItems(items).Some? ==>
      forall i :: 0 <= i < |ReadItems(items).value| ==>
        IsIdentifier(ReadItems(items).value[i].taken) && IsIdentifier(ReadItems(items).value[i].bound)
  {
    if items != [] {
      ItemsAreIdentifiers(items[1..]);
    }
  }

  predicate BindsIdentifiers(s: Statement) {
    forall i :: 0 <= i < |s.specifiers| ==> IsIdentifier(s.specifiers[i].taken) && IsIdentifier(s.specifiers[i].bound)
  }

  lemma ListIdentifiers(text: string)
    ensures ReadList(text).Some? ==> forall i :: 0 <= i < |ReadList(text).value| ==>
      IsIdentifier(ReadList(text).value[i].taken) && IsIdentifier(ReadList(text).value[i].bound)
  {
    if |text| >= 3 {
      ItemsAreIdentifiers(Split(text[2..|text| - 1], ','));
    }
  }

  lemma ClauseIdentifiers(keyword: Keyword, typeOnly: bool, text: string)
    ensures ReadClause(keyword, typeOnly, text).Some? ==> BindsIdentifiers(ReadClause(keyword, typeOnly, text).value)
  {
    ListIdentifiers(text[..IndexOf(text, '}')]);
  }

  lemma ReadsIdentifiers(text: string)
    ensures ReadStatement(text).Some? ==> BindsIdentifiers(ReadStatement(text).value)
  {
    if |text| >= 7 {
      var marked := text[7..];
      forall keyword, typeOnly, clause
        ensures ReadClause(keyword, typeOnly, clause).Some? ==>
          BindsIdentifiers(ReadClause(keyword, typeOnly, clause).value)
      {
        ClauseIdentifiers(keyword, typeOnly, clause);
      }
    }
  }

  predicate ReadableGroups(groups: seq<Group>) {
    forall i :: 0 <= i < |groups| ==> IsReadable(groups[i])
  }

  function Rendered(keyword: Keyword, groups: seq<Group>): (r: seq<string>)
    ensures |r| == |groups|
    ensures forall i :: 0 <= i < |r| ==> r[i] == RenderStatement(keyword, groups[i].target, groups[i].names)
  {
    seq(|groups|, i requires 0 <= i < |groups| => RenderStatement(keyword, groups[i].target, groups[i].names))
  }

  /** Lines read as statements one by one. */
  lemma {:induction false} ReadLinesIff(lines: seq<string>, statements: seq<Statement>)
    ensures ReadLines(lines) == Some(statements)
       <==> |lines| == |statements| && forall i :: 0 <= i < |lines| ==> ReadStatement(lines[i]) == Some(statements[i])
  {
    if lines == [] {
    } else if statements == [] {
    } else {
      ReadLinesIff(lines[1..], statements[1..]);
      assert lines == [lines[0]] + lines[1..] && statements == [statements[0]] + statements[1..];
      if ReadLines(lines) == Some(statements) {
        assert [statements[0]] + ReadLines(lines[1..]).value == statements;
        assert ([statements[0]] + ReadLines(lines[1..]).value)[1..] == ReadLines(lines[1..]).value;
      }
    }
  }

  /** The text of the groups reads back as their statements exactly when every group is readable. */
  lemma GroupsReadBackIff(keyword: Keyword, groups: seq<Group>)
    requires groups != [] && forall i :: 0 <= i < |groups| ==> groups[i].names != []
    ensures ReadStatements(RenderAll(keyword, groups)) == Some(ToStatements(keyword, groups)) <==> ReadableGroups(groups)
  {
    var lines, statements := Rendered(keyword, groups), ToStatements(keyword, groups);
    assert RenderAll(keyword, groups) == Join(lines, "\n");
    SplitIntoLines(lines);
    LinesArePartsIff(lines);
    ReadLinesIff(LinesOfParts(lines), statements);
    forall i | 0 <= i < |groups|
      ensures ReadStatement(lines[i]) == Some(statements[i]) <==> IsReadable(groups[i])
      ensures IsReadable(groups[i]) ==> '\n' !in lines[i]
    {
      StatementReadsBackIff(keyword, groups[i]);
      if IsReadable(groups[i]) { ReadableIsOneLine(keyword, groups[i]); }
    }
  }

  // ----- What the whole replacement says -----

  predicate IdentifierBinding(b: Binding) {
    IsIdentifier(b.bound) && IsIdentifier(b.name)
  }

  /** What the statement takes and binds can be written down: each name is an identifier where it is
      defined and where it is bound, and each defining module's specifier needs no escape. */
  predicate IsWritable(file: Path, barrel: Barrel, s: StatementNode)
    requires Known(barrel, s.specifiers)
  {
    forall k :: 0 <= k < |s.specifiers| ==>
      var x := s.specifiers[k].specifier;
      IdentifierBinding(ThroughBinding(barrel, s.typeOnly, x)) && IsPlainTarget(TargetOf(file, barrel, x))
  }

  /** Name `n` stands in a group of target `t`. */
  predicate Holds(groups: seq<Group>, t: string, n: RewrittenName) {
    exists j :: 0 <= j < |groups| && groups[j].target == t && n in groups[j].names
  }

  lemma {:induction false} AddNameHolds(groups: seq<Group>, target: string, name: RewrittenName, t: string, n: RewrittenName)
    ensures Holds(AddName(groups, target, name), t, n) <==> Holds(groups, t, n) || (t == target && n == name)
  {
    var after := AddName(groups, target, name);
    if groups == [] {
      assert after[0] == Group(target, [name]);
    } else if groups[0].target == target {
      assert after[0] == groups[0].(names := groups[0].names + [name]);
      assert forall j :: 1 <= j < |groups| ==> after[j] == groups[j];
    } else {
      AddNameHolds(groups[1..], target, name, t, n);
      HoldsCons(groups[0], groups[1..], t, n);
      HoldsCons(groups[0], AddName(groups[1..], target, name), t, n);
      assert groups == [groups[0]] + groups[1..];
    }
  }

  lemma HoldsCons(g: Group, rest: seq<Group>, t: string, n: RewrittenName)
    ensures Holds([g] + rest, t, n) <==> (g.target == t && n in g.names) || Holds(rest, t, n)
  {
    var all := [g] + rest;
    assert all[0] == g && forall j :: 0 <= j < |rest| ==> all[j + 1] == rest[j];
    if Holds(all, t, n) {
      var j :| 0 <= j < |all| && all[j].target == t && n in all[j].names;
      assert j > 0 ==> rest[j - 1] == all[j];
    }
    if Holds(rest, t, n) {
      var j :| 0 <= j < |rest| && rest[j].target == t && n in rest[j].names;
      assert all[j + 1] == rest[j];
    }
  }

  /** The groups hold exactly the statement's names under their targets. */
  lemma {:induction false} GroupsHold(file: Path, barrel: Barrel, s: StatementNode, i: nat, t: string, n: RewrittenName)
    requires i <= |s.specifiers| && Known(barrel, s.specifiers[..i])
    ensures Holds(GroupsOf(file, barrel, s, i), t, n) <==>
      exists k :: 0 <= k < i && Takes(file, barrel, s, k, t, n)
  {
    if i > 0 {
      assert s.specifiers[..i][i - 1] == s.specifiers[i - 1];
      assert s.specifiers[..i][..i - 1] == s.specifiers[..i - 1];
      GroupsHold(file, barrel, s, i - 1, t, n);
      var x := s.specifiers[i - 1].specifier;
      AddNameHolds(GroupsOf(file, barrel, s, i - 1), TargetOf(file, barrel, x), NameOf(barrel, s.typeOnly, x), t, n);
      assert Takes(file, barrel, s, i - 1, t, n) <==>
        t == TargetOf(file, barrel, x) && n == NameOf(barrel, s.typeOnly, x);
    }
  }

  ghost predicate Takes(file: Path, barrel: Barrel, s: StatementNode, k: nat, t: string, n: RewrittenName) {
    && k < |s.specifiers| && s.specifiers[k].Named? && s.specifiers[k].specifier.taken in barrel
    && t == TargetOf(file, barrel, s.specifiers[k].specifier)
    && n == NameOf(barrel, s.typeOnly, s.specifiers[k].specifier)
  }

  lemma WritableIff(file: Path, barrel: Barrel, s: StatementNode, groups: seq<Group>)
    requires Known(barrel, s.specifiers) && s.specifiers[..|s.specifiers|] == s.specifiers
    requires groups == GroupsOf(file, barrel, s, |s.specifiers|)
    requires forall j :: 0 <= j < |groups| ==> groups[j].names != []
    ensures ReadableGroups(groups) <==> IsWritable(file, barrel, s)
  {
    if ReadableGroups(groups) {
      forall k | 0 <= k < |s.specifiers|
        ensures var x := s.specifiers[k].specifier;
          IdentifierBinding(ThroughBinding(barrel, s.typeOnly, x)) && IsPlainTarget(TargetOf(file, barrel, x))
      {
        var x := s.specifiers[k].specifier;
        var t, n := TargetOf(file, barrel, x), NameOf(barrel, s.typeOnly, x);
        GroupsHold(file, barrel, s, |s.specifiers|, t, n);
        assert Takes(file, barrel, s, k, t, n);
        var j :| 0 <= j < |groups| && groups[j].target == t && n in groups[j].names;
        assert IsReadable(groups[j]);
      }
    }
    if IsWritable(file, barrel, s) {
      forall j | 0 <= j < |groups| ensures IsReadable(groups[j]) {
        forall i | 0 <= i < |groups[j].names|
          ensures Spellable(groups[j].names[i]) && IsPlainTarget(groups[j].target)
        {
          GroupsHold(file, barrel, s, |s.specifiers|, groups[j].target, groups[j].names[i]);
          var k :| 0 <= k < |s.specifiers| && Takes(file, barrel, s, k, groups[j].target, groups[j].names[i]);
        }
        assert Spellable(groups[j].names[0]);
      }
    }
  }

  /** The text a statement is replaced with reads back as what was meant exactly when what the
      statement takes and binds can be written down: a name written as a string is copied without its
      quotes, and a specifier is quoted without escapes.  Then it means what the statement meant: the
      same names, each as often, from the same modules, type-only in the same cases. */
  lemma ReplacementReadsBack(file: Path, barrel: Barrel, s: StatementNode)
    requires IsBarrel(barrel) && !IsSkipped(barrel, s)
    ensures var outcome := OutcomeOf(file, barrel, s);
      && outcome.Rewritten?
      && (ReadStatements(outcome.text) == Some(ToStatements(s.keyword, outcome.groups)) <==> IsWritable(file, barrel, s))
      && (IsWritable(file, barrel, s) ==>
            && ReadStatements(outcome.text).Some?
            && multiset(DirectAll(file, ReadStatements(outcome.text).value))
            == multiset(Through(barrel, s.typeOnly, s.specifiers)))
  {
    OutcomeMeans(file, barrel, s);
    var groups := OutcomeOf(file, barrel, s).groups;
    assert s.specifiers[..|s.specifiers|] == s.specifiers;
    forall i | 0 <= i < |groups| ensures groups[i].names != [] {
      assert IsGroup(file, barrel, groups[i]);
    }
    GroupsReadBackIff(s.keyword, groups);
    WritableIff(file, barrel, s, groups);
  }

  // ----- Inputs whose replacement does not read back -----

  const EXAMPLE_FILE: Path := ["repo", "a.ts"]

  /** `import { T }` of the barrel. */
  const TAKES_T := StatementNode(Import, false, [Named(Specifier("T", "T", false))], false)

  function BarrelOfT(module_: Path, name: string): Barrel {
    map["T" := Origin(File(module_), name, false)]
  }

  lemma SpecifierBeside(name: string)
    requires IsSegment(name) && name[0] != '.'
    ensures SpecifierTo(EXAMPLE_FILE, File(["repo", name])) == "./" + name
  {
    var dir := ["repo"];
    assert Dirname(EXAMPLE_FILE) == dir;
    assert Common(dir, ["repo", name]) == 1;
    assert Relative(dir, ["repo", name]) == [name];
    assert Join([name], "/") == name;
  }

  lemma ReplacementOfT(name: string, origin: string)
    requires IsSegment(name) && name[0] != '.'
    ensures var barrel := BarrelOfT(["repo", name], origin);
      && IsBarrel(barrel) && !IsSkipped(barrel, TAKES_T)
      && OutcomeOf(EXAMPLE_FILE, barrel, TAKES_T).Rewritten?
      && OutcomeOf(EXAMPLE_FILE, barrel, TAKES_T).groups == [Group("./" + name, [RewrittenName(origin, "T", false)])]
      && (IsWritable(EXAMPLE_FILE, barrel, TAKES_T) <==> IsIdentifier(origin) && IsPlainTarget("./" + name))
  {
    var barrel := BarrelOfT(["repo", name], origin);
    SpecifierBeside(name);
    KnownIff(barrel, TAKES_T.specifiers);
    OutcomeMeans(EXAMPLE_FILE, barrel, TAKES_T);
    assert TAKES_T.specifiers[..1] == TAKES_T.specifiers;
    assert GroupsOf(EXAMPLE_FILE, barrel, TAKES_T, 1)
        == AddName(GroupsOf(EXAMPLE_FILE, barrel, TAKES_T, 0), "./" + name, RewrittenName(origin, "T", false));
    assert IsIdentifier("T");
  }

  /** The name `"a-b"`, exported by the barrel as `T`, is written without its quotes. */
  lemma StringNameExample()
    ensures var barrel := BarrelOfT(["repo", "m.ts"], "a-b"); var outcome := OutcomeOf(EXAMPLE_FILE, barrel, TAKES_T);
      && outcome.Rewritten? && outcome.groups == [Group("./m.ts", [RewrittenName("a-b", "T", false)])]
      && ReadStatements(outcome.text) != Some(ToStatements(Import, outcome.groups))
  {
    var barrel := BarrelOfT(["repo", "m.ts"], "a-b");
    assert "m.ts"[0] == 'm' && "./" + "m.ts" == "./m.ts";
    ReplacementOfT("m.ts", "a-b");
    assert "a-b"[1] == '-' && !IsIdentifierChar('-');
    ReplacementReadsBack(EXAMPLE_FILE, barrel, TAKES_T);
  }

  /** A module whose path holds a quote is written as it is. */
  lemma QuotedPathExample()
    ensures var barrel := BarrelOfT(["repo", "a\"b.ts"], "T"); var outcome := OutcomeOf(EXAMPLE_FILE, barrel, TAKES_T);
      && outcome.Rewritten? && outcome.groups == [Group("./a\"b.ts", [RewrittenName("T", "T", false)])]
      && ReadStatements(outcome.text) != Some(ToStatements(Import, outcome.groups))
  {
    var barrel := BarrelOfT(["repo", "a\"b.ts"], "T");
    assert "a\"b.ts"[0] == 'a' && "./" + "a\"b.ts" == "./a\"b.ts";
    ReplacementOfT("a\"b.ts", "T");
    assert "./a\"b.ts"[3] == '\"';
    assert !IsPlainChar("./a\"b.ts"[3]);
    ReplacementReadsBack(EXAMPLE_FILE, barrel, TAKES_T);
  }
}
