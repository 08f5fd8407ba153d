/**
 `scripts/build_attestation.ts`: did a run execute the committed workflow?  The committed
 definition is a template in which `${{ … }}` stands for anything; the definition the run
 executed must be an instance of it.
 */
module Provenance {
  import opened Options
  import opened Text

  /** A parsed YAML value, or the `Builtin` function found under a name objects inherit.  A timestamp
      is an object that holds its time in no key. */
  datatype Value =
    | Null
    | Bool(b: bool)
    | Number(n: real)
    | Str(s: string)
    | List(items: seq<Value>)
    | Timestamp(time: int)
    | Mapping(fields: seq<Field>)
    | Builtin

  datatype Field = Field(key: string, value: Value)

  // ----- Objects -----

  predicate IsObject(v: Value) {
    v.Mapping? || v.Timestamp?
  }

  /** The fields an object has itself. */
  function Own(v: Value): seq<Field> {
    if v.Mapping? then v.fields else []
  }

  /** The names `in` finds on every object, whatever its own keys.  (Deno removes `__proto__`.) */
  const INHERITED: set<string> := {
    "constructor", "hasOwnProperty", "isPrototypeOf", "propertyIsEnumerable", "toLocaleString", "toString",
    "valueOf", "__defineGetter__", "__defineSetter__", "__lookupGetter__", "__lookupSetter__"
  }

  /** The parts of a time a `Date` has a getter and a setter for. */
  const TIME_PARTS: set<string> := {
    "Date", "FullYear", "Hours", "Milliseconds", "Minutes", "Month", "Seconds",
    "UTCDate", "UTCFullYear", "UTCHours", "UTCMilliseconds", "UTCMinutes", "UTCMonth", "UTCSeconds", "Time", "Year"
  }

  /** The names every `Date` inherits besides. */
  predicate IsDateName(key: string) {
    || ((StartsWith(key, "get") || StartsWith(key, "set")) && key[3..] in TIME_PARTS)
    || key in {"getDay", "getUTCDay", "getTimezoneOffset"}
    || key in {"toDateString", "toGMTString", "toISOString", "toJSON", "toLocaleDateString", "toLocaleTimeString",
               "toTimeString", "toUTCString"}
  }

  predicate Inherits(v: Value, key: string) {
    key in INHERITED || (v.Timestamp? && IsDateName(key))
  }

  predicate HasOwn(fields: seq<Field>, key: string) {
    exists i :: 0 <= i < |fields| && fields[i].key == key
  }

  /** `key in object` */
  predicate HasKey(v: Value, key: string) {
    HasOwn(Own(v), key) || Inherits(v, key)
  }

  /** `object[key]`: its own value, or what it inherits under that name. */
  function Get(fields: seq<Field>, key: string): Value {
    if fields == [] then Builtin
    else if fields[0].key == key then fields[0].value
    else Get(fields[1..], key)
  }

  predicate IsEmptyDefault(v: Value) {
    match v
    case Null => true
    case Bool(b) => !b
    case Number(n) => n == 0.0
    case Str(s) => s == ""
    case List(items) => items == []
    case Timestamp(_) => true
    case Mapping(fields) => fields == []
    case Builtin => false
  }

  /** What passes as an extra field: nothing, zero or false, whatever is empty, and a timestamp. */
  lemma EmptyDefaultIff(v: Value)
    ensures IsEmptyDefault(v) <==>
      v.Timestamp? || v in {Null, Bool(false), Number(0.0), Str(""), List([]), Mapping([])}
  {
  }

  // ----- Expressions in a string -----

  /** The index of the first `needle` at or after `from`. */
  function Find(s: string, needle: string, from: nat): (r: Option<nat>)
    ensures r.Some? ==> from <= r.value && r.value + |needle| <= |s|
    decreases |s| - from
  {
    if from + |needle| > |s| then None
    else if s[from..from + |needle|] == needle then Some(from)
    else Find(s, needle, from + 1)
  }

  const OPENER := "${{"
  const CLOSER := "}}"

  /** The first expression: a lazy match of `${{`, anything, `}}`. */
  function FirstExpression(s: string): (r: Option<(nat, nat)>)
    ensures r.Some? ==> r.value.0 < r.value.1 <= |s|
  {
    var open := Find(s, OPENER, 0);
    if open.None? then None
    else
      var close := Find(s, CLOSER, open.value + 3);
      if close.None? then None else Some((open.value, close.value + 2))
  }

  predicate StandsAt(s: string, needle: string, i: nat) {
    i + |needle| <= |s| && s[i..i + |needle|] == needle
  }

  /** An opener with a closer somewhere behind it. */
  predicate OpensAt(s: string, a: nat) {
    StandsAt(s, "${{", a) && exists b: nat :: a + 3 <= b <= |s| && StandsAt(s, "}}", b)
  }

  /** The first expression begins at the first opener that is closed, and ends with its first closer. */
  lemma FirstExpressionIff(s: string, a: nat, b: nat)
    ensures FirstExpression(s) == Some((a, b)) <==>
      && OpensAt(s, a) && (forall x: nat :: x < a ==> !OpensAt(s, x))
      && a + 5 <= b && StandsAt(s, "}}", b - 2) && forall y: nat :: a + 3 <= y < b - 2 ==> !StandsAt(s, "}}", y)
    ensures FirstExpression(s).None? <==> forall x: nat :: !OpensAt(s, x)
  {
    assert OPENER == "${{" && CLOSER == "}}";
    FindIsFirst(s, OPENER, 0);
    var open := Find(s, OPENER, 0);
    if open.Some? {
      FindIsFirst(s, CLOSER, open.value + 3);
      if Find(s, CLOSER, open.value + 3).Some? { assert OpensAt(s, open.value); }
    }
  }

  lemma {:induction false} FindIsFirst(s: string, needle: string, from: nat)
    ensures var r := Find(s, needle, from);
      && (r.Some? ==> StandsAt(s, needle, r.value) && forall x: nat :: from <= x < r.value ==> !StandsAt(s, needle, x))
      && (r.None? ==> forall x: nat :: from <= x ==> !StandsAt(s, needle, x))
    decreases |s| - from
  {
    if from + |needle| <= |s| && s[from..from + |needle|] != needle {
      FindIsFirst(s, needle, from + 1);
      assert !StandsAt(s, needle, from);
    }
  }

  /** The text between expressions: `split` by them.  One part means that the string holds none. */
  function Literals(s: string): (r: seq<string>)
    ensures r != []
    decreases |s|
  {
    var x := FirstExpression(s);
    if x.None? then [s] else [s[..x.value.0]] + Literals(s[x.value.1..])
  }

  predicate IsTemplate(s: string) {
    |Literals(s)| > 1
  }

  /** A string is a template exactly when an opener in it is closed. */
  lemma TemplateIffOpened(s: string)
    ensures IsTemplate(s) <==> exists x: nat :: OpensAt(s, x)
  {
    var x := FirstExpression(s);
    FirstExpressionIff(s, if x.Some? then x.value.0 else 0, if x.Some? then x.value.1 else 0);
  }

  predicate OnlyExpressions(literals: seq<string>) {
    forall i :: 0 <= i < |literals| ==> Trim(literals[i]) == ""
  }

  /** The anchored pattern: each literal as it is, anything between two of them.  As a regular
      expression engine does, every length is tried for the text between. */
  predicate Matches(literals: seq<string>, text: string)
    requires literals != []
    decreases literals
  {
    && literals[0] <= text
    && if |literals| == 1 then text == literals[0]
       else exists k :: |literals[0]| <= k <= |text| && Matches(literals[1..], text[k..])
  }

  predicate TemplateAccepts(literals: seq<string>, evaluated: Value)
    requires literals != []
  {
    OnlyExpressions(literals) || (evaluated.Str? && Matches(literals, evaluated.s))
  }

  // ----- The check -----

  const RUN_METADATA_KEYS: set<string> := {"sensitiveFormat", "writtenReferences"}

  datatype Reason = Differs | NotAList | WrongLength | NotAMapping | Missing | Extra

  /** Where a finding is, as the dotted path the source prints, and what it says. */
  datatype Finding = Finding(at: string, reason: Reason)

  function Path(at: string, key: string): string {
    if at != "" then at + "." + key else key
  }

  function ItemPath(at: string, i: nat): string {
    at + "[" + Digits(i) + "]"
  }

  function Digits(n: nat): string {
    if n < 10 then [('0' as int + n) as char] else Digits(n / 10) + [('0' as int + n % 10) as char]
  }

  function Check(committed: Value, evaluated: Value, at: string): (findings: seq<Finding>)
    decreases committed, 1
  {
    if committed.Str? && IsTemplate(committed.s) then
      if TemplateAccepts(Literals(committed.s), evaluated) then [] else [Finding(at, Differs)]
    else if committed.List? then
      if !evaluated.List? then [Finding(at, NotAList)]
      else if |evaluated.items| != |committed.items| then [Finding(at, WrongLength)]
      else CheckItems(committed.items, evaluated.items, at, 0)
    else if IsObject(committed) then
      if !IsObject(evaluated) then [Finding(at, NotAMapping)]
      else
        (if committed.Mapping? then CheckFields(committed.fields, evaluated, at) else [])
        + ExtraFields(committed, Own(evaluated), at)
    else if committed == evaluated then []
    else [Finding(at, Differs)]
  }

  function CheckItems(committed: seq<Value>, evaluated: seq<Value>, at: string, i: nat): seq<Finding>
    requires |committed| == |evaluated|
    decreases committed, 0
  {
    if committed == [] then []
    else Check(committed[0], evaluated[0], ItemPath(at, i)) + CheckItems(committed[1..], evaluated[1..], at, i + 1)
  }

  function CheckFields(committed: seq<Field>, evaluated: Value, at: string): seq<Finding>
    decreases committed, 0
  {
    if committed == [] then []
    else
      var key := committed[0].key;
      (if !HasKey(evaluated, key) then [Finding(Path(at, key), Missing)]
       else Check(committed[0].value, Get(Own(evaluated), key), Path(at, key)))
      + CheckFields(committed[1..], evaluated, at)
  }

  function ExtraFields(committed: Value, evaluated: seq<Field>, at: string): seq<Finding>
    decreases evaluated
  {
    if evaluated == [] then []
    else
      var f := evaluated[0];
      (if HasKey(committed, f.key) || IsEmptyDefault(f.value) || (at == "" && f.key in RUN_METADATA_KEYS) then []
       else [Finding(Path(at, f.key), Extra)])
      + ExtraFields(committed, evaluated[1..], at)
  }

  // ----- What it means to pass -----

  /** The literals with one text put between each two of them. */
  function Interleave(literals: seq<string>, texts: seq<string>): string
    requires |literals| == |texts| + 1
  {
    if texts == [] then literals[0] else literals[0] + texts[0] + Interleave(literals[1..], texts[1..])
  }

  /** `text` is the template with some text for each expression. */
  ghost predicate IsInstance(literals: seq<string>, text: string)
    requires literals != []
  {
    exists texts: seq<string> :: |texts| + 1 == |literals| && Interleave(literals, texts) == text
  }

  /** Only expressions and blanks, which may become anything; or some text for each expression. */
  ghost predicate InstanceOf(literals: seq<string>, evaluated: Value)
    requires literals != []
  {
    || (forall i :: 0 <= i < |literals| ==> AllBlank(literals[i]))
    || (evaluated.Str? && IsInstance(literals, evaluated.s))
  }

  /** The evaluated value conforms to the committed one.  `atRoot` says that every key on the way
      here was empty, which is how the check recognises the root.  Of a timestamp nothing is compared. */
  ghost predicate Conforms(committed: Value, evaluated: Value, atRoot: bool)
    decreases committed, 1
  {
    match committed
    case Str(s) =>
      if IsTemplate(s) then InstanceOf(Literals(s), evaluated) else evaluated == committed
    case List(items) =>
      && evaluated.List? && |evaluated.items| == |items|
      && forall i :: 0 <= i < |items| ==> Conforms(items[i], evaluated.items[i], false)
    case Timestamp(_) => IsObject(evaluated) && ExtrasAllowed(committed, evaluated, atRoot)
    case Mapping(fields) =>
      && IsObject(evaluated)
      && FieldsConform(fields, evaluated, atRoot)
      && ExtrasAllowed(committed, evaluated, atRoot)
    case _ => evaluated == committed
  }

  /** Every committed key is there, with a value that conforms. */
  ghost predicate FieldsConform(committed: seq<Field>, evaluated: Value, atRoot: bool)
    decreases committed, 0
  {
    forall i :: 0 <= i < |committed| ==>
      && HasKey(evaluated, committed[i].key)
      && Conforms(committed[i].value, Get(Own(evaluated), committed[i].key), atRoot && committed[i].key == "")
  }

  /** Every other key is an empty default, root metadata, or a name the committed object inherits. */
  ghost predicate ExtrasAllowed(committed: Value, evaluated: Value, atRoot: bool) {
    ExtrasIn(committed, Own(evaluated), atRoot)
  }

  ghost predicate ExtrasIn(committed: Value, fields: seq<Field>, atRoot: bool) {
    forall i :: 0 <= i < |fields| ==> MayBeExtra(fields[i], atRoot) || HasKey(committed, fields[i].key)
  }

  predicate MayBeExtra(f: Field, atRoot: bool) {
    IsEmptyDefault(f.value) || (atRoot && f.key in RUN_METADATA_KEYS)
  }

  lemma {:induction false} InstanceMatches(literals: seq<string>, texts: seq<string>)
    requires |literals| == |texts| + 1
    ensures Matches(literals, Interleave(literals, texts))
  {
    if texts != [] {
      InstanceMatches(literals[1..], texts[1..]);
      var text := Interleave(literals, texts);
      var k := |literals[0]| + |texts[0]|;
      assert text[k..] == Interleave(literals[1..], texts[1..]);
      assert Matches(literals[1..], text[k..]);
    }
  }

  lemma {:induction false} MatchIsInstance(literals: seq<string>, text: string) returns (texts: seq<string>)
    requires literals != [] && Matches(literals, text)
    ensures |texts| + 1 == |literals| && Interleave(literals, texts) == text
  {
    if |literals| == 1 {
      texts := [];
    } else {
      var k :| |literals[0]| <= k <= |text| && Matches(literals[1..], text[k..]);
      var rest := MatchIsInstance(literals[1..], text[k..]);
      texts := [text[|literals[0]|..k]] + rest;
      assert texts[1..] == rest;
      assert text == literals[0] + texts[0] + text[k..];
    }
  }

  /** The anchored pattern accepts exactly the instances of the template. */
  lemma MatchesIffInstance(literals: seq<string>, text: string)
    requires literals != []
    ensures Matches(literals, text) <==> IsInstance(literals, text)
  {
    if Matches(literals, text) {
      var texts := MatchIsInstance(literals, text);
    }
    if IsInstance(literals, text) {
      var texts: seq<string> :| |texts| + 1 == |literals| && Interleave(literals, texts) == text;
      InstanceMatches(literals, texts);
    }
  }

  /** The check reports nothing exactly when the evaluated value conforms. */
  lemma {:induction false} CheckIffConforms(committed: Value, evaluated: Value, at: string)
    ensures Check(committed, evaluated, at) == [] <==> Conforms(committed, evaluated, at == "")
    decreases committed, 1
  {
    match committed
    case Str(s) => TemplateIff(Literals(s), evaluated);
    case List(items) =>
      if evaluated.List? && |evaluated.items| == |items| { CheckItemsIff(items, evaluated.items, at, 0); }
    case Timestamp(_) => ExtraFieldsIff(committed, Own(evaluated), at);
    case Mapping(fields) =>
      CheckFieldsIff(fields, evaluated, at);
      ExtraFieldsIff(committed, Own(evaluated), at);
    case _ =>
  }

  lemma TemplateIff(literals: seq<string>, evaluated: Value)
    requires literals != []
    ensures TemplateAccepts(literals, evaluated) <==> InstanceOf(literals, evaluated)
  {
    forall i | 0 <= i < |literals| ensures Trim(literals[i]) == "" <==> AllBlank(literals[i]) {
      TrimIsEmpty(literals[i]);
    }
    if evaluated.Str? { MatchesIffInstance(literals, evaluated.s); }
  }

  lemma {:induction false} CheckItemsIff(committed: seq<Value>, evaluated: seq<Value>, at: string, i: nat)
    requires |committed| == |evaluated|
    ensures CheckItems(committed, evaluated, at, i) == []
       <==> forall j :: 0 <= j < |committed| ==> Conforms(committed[j], evaluated[j], false)
    decreases committed, 0
  {
    if committed != [] {
      CheckIffConforms(committed[0], evaluated[0], ItemPath(at, i));
      CheckItemsIff(committed[1..], evaluated[1..], at, i + 1);
      assert forall j :: 1 <= j < |committed| ==>
        committed[j] == committed[1..][j - 1] && evaluated[j] == evaluated[1..][j - 1];
    }
  }

  lemma {:induction false} CheckFieldsIff(committed: seq<Field>, evaluated: Value, at: string)
    ensures CheckFields(committed, evaluated, at) == [] <==> FieldsConform(committed, evaluated, at == "")
    decreases committed, 0
  {
    if committed != [] {
      CheckIffConforms(committed[0].value, Get(Own(evaluated), committed[0].key), Path(at, committed[0].key));
      CheckFieldsIff(committed[1..], evaluated, at);
      FieldsConformCons(committed, evaluated, at == "");
    }
  }

  lemma FieldsConformCons(committed: seq<Field>, evaluated: Value, atRoot: bool)
    requires committed != []
    ensures FieldsConform(committed, evaluated, atRoot)
       <==> && HasKey(evaluated, committed[0].key)
            && Conforms(committed[0].value, Get(Own(evaluated), committed[0].key), atRoot && committed[0].key == "")
            && FieldsConform(committed[1..], evaluated, atRoot)
  {
    assert forall j :: 1 <= j < |committed| ==> committed[j] == committed[1..][j - 1];
  }

  lemma {:induction false} ExtraFieldsIff(committed: Value, evaluated: seq<Field>, at: string)
    ensures ExtraFields(committed, evaluated, at) == [] <==> ExtrasIn(committed, evaluated, at == "")
    decreases evaluated
  {
    if evaluated != [] {
      ExtraFieldsIff(committed, evaluated[1..], at);
      assert forall j :: 1 <= j < |evaluated| ==> evaluated[j] == evaluated[1..][j - 1];
    }
  }

  /** Two inputs on which "an extra key is an empty default, or metadata at the root" fails: a name
      every object inherits counts as committed, and below an empty key the path still looks like
      the root.  `ExtrasAllowed` says exactly what passes. */
  lemma ExtraKeyExamples()
    ensures Check(Mapping([]), Mapping([Field("toString", Str("x"))]), "") == []
    ensures Check(Mapping([Field("", Mapping([]))]),
                  Mapping([Field("", Mapping([Field("sensitiveFormat", Str("x"))]))]), "") == []
    ensures !Documented(Mapping([]), Mapping([Field("toString", Str("x"))]), true)
    ensures !Documented(Mapping([Field("", Mapping([]))]),
                        Mapping([Field("", Mapping([Field("sensitiveFormat", Str("x"))]))]), true)
  {
    assert "toString" !in RUN_METADATA_KEYS by { assert |"toString"| == 8; }
    assert Inherits(Mapping([]), "toString");
    ExtraPasses(Mapping([]), Field("toString", Str("x")), "");
    ExtraIsNotDocumented(Field("toString", Str("x")), true);
    ExtraPasses(Mapping([]), Field("sensitiveFormat", Str("x")), "");
    ExtraIsNotDocumented(Field("sensitiveFormat", Str("x")), false);
    var inner := Mapping([Field("sensitiveFormat", Str("x"))]);
    CheckIffConforms(Mapping([]), inner, "");
    OneFieldPasses("", Mapping([]), inner);
    OneFieldDocumented("", Mapping([]), inner);
  }

  /** Of a timestamp nothing is compared: it passes for any other and for an empty mapping, an extra one
      passes as an empty default, and what is committed as a timestamp may be a mapping with any
      names a `Date` has. */
  lemma TimestampExamples(key: string, a: int, b: int)
    ensures Check(Mapping([Field(key, Timestamp(a))]), Mapping([Field(key, Timestamp(b))]), "") == []
    ensures Check(Mapping([Field(key, Timestamp(a))]), Mapping([Field(key, Mapping([]))]), "") == []
    ensures Check(Mapping([]), Mapping([Field(key, Timestamp(b))]), "") == []
    ensures Check(Timestamp(a), Mapping([Field("getDay", Str("x"))]), "at") == []
    ensures a != b ==> !Documented(Mapping([Field(key, Timestamp(a))]), Mapping([Field(key, Timestamp(b))]), true)
  {
    OneFieldPasses(key, Timestamp(a), Timestamp(b));
    OneFieldPasses(key, Timestamp(a), Mapping([]));
    ExtraPasses(Mapping([]), Field(key, Timestamp(b)), "");
    assert Inherits(Timestamp(a), "getDay");
    ExtraPasses(Timestamp(a), Field("getDay", Str("x")), "at");
    OneFieldDocumented(key, Timestamp(a), Timestamp(b));
  }

  lemma ExtraPasses(committed: Value, f: Field, at: string)
    requires IsObject(committed) && Own(committed) == []
    requires Inherits(committed, f.key) || MayBeExtra(f, at == "")
    ensures Check(committed, Mapping([f]), at) == []
  {
    assert [f][0] == f;
    CheckIffConforms(committed, Mapping([f]), at);
  }

  lemma ExtraIsNotDocumented(f: Field, root: bool)
    requires !MayBeExtra(f, root)
    ensures !Documented(Mapping([]), Mapping([f]), root)
  {
    assert Mapping([f]).fields[0] == f && !HasOwn([], f.key);
  }

  lemma OneFieldDocumented(key: string, c: Value, e: Value)
    ensures Documented(Mapping([Field(key, c)]), Mapping([Field(key, e)]), true) ==> Documented(c, e, false)
  {
    assert Get([Field(key, e)], key) == e;
    assert Mapping([Field(key, c)]).fields[0] == Field(key, c);
  }

  lemma OneFieldPasses(key: string, c: Value, e: Value)
    requires Conforms(c, e, key == "")
    ensures Check(Mapping([Field(key, c)]), Mapping([Field(key, e)]), "") == []
  {
    var committed, evaluated := Mapping([Field(key, c)]), Mapping([Field(key, e)]);
    assert Own(evaluated)[0] == Field(key, e) && HasOwn(Own(evaluated), key) && Get(Own(evaluated), key) == e;
    assert Own(committed)[0] == Field(key, c) && HasOwn(Own(committed), key);
    CheckIffConforms(committed, evaluated, "");
  }

  // ----- Every instance passes -----

  /** The raw expressions between the literals. */
  ghost function Raws(s: string): (r: seq<string>)
    ensures |r| + 1 == |Literals(s)|
    decreases |s|
  {
    var x := FirstExpression(s);
    if x.None? then [] else [s[x.value.0..x.value.1]] + Raws(s[x.value.1..])
  }

  lemma InterleaveCons(literal: string, literals: seq<string>, text: string, texts: seq<string>)
    requires |literals| == |texts| + 1
    ensures Interleave([literal] + literals, [text] + texts) == literal + text + Interleave(literals, texts)
  {
    assert ([text] + texts)[1..] == texts && ([literal] + literals)[1..] == literals;
  }

  lemma {:induction false} Reassembles(s: string)
    ensures Interleave(Literals(s), Raws(s)) == s
    decreases |s|
  {
    var x := FirstExpression(s);
    if x.Some? {
      var (from, to) := x.value;
      Reassembles(s[to..]);
      InterleaveCons(s[..from], Literals(s[to..]), s[from..to], Raws(s[to..]));
      assert s == s[..from] + s[from..to] + s[to..];
    }
  }

  /** No mapping in `v` has a key twice. */
  predicate DistinctKeys(v: Value)
    decreases v
  {
    match v
    case List(items) => forall i :: 0 <= i < |items| ==> DistinctKeys(items[i])
    case Mapping(fields) =>
      && (forall i, j :: 0 <= i < j < |fields| ==> fields[i].key != fields[j].key)
      && forall i :: 0 <= i < |fields| ==> DistinctKeys(fields[i].value)
    case _ => true
  }

  lemma {:induction false} GetDistinct(fields: seq<Field>, rest: seq<Field>, i: nat)
    requires i < |fields| && forall j, k :: 0 <= j < k < |fields| ==> fields[j].key != fields[k].key
    ensures HasOwn(fields + rest, fields[i].key) && Get(fields + rest, fields[i].key) == fields[i].value
  {
    var all := fields + rest;
    assert all[i].key == fields[i].key;
    if i > 0 {
      assert all[1..] == fields[1..] + rest;
      GetDistinct(fields[1..], rest, i - 1);
    }
  }

  /** `e` is made from the definition `c`: every occurrence of an expression gets some text of its own
      (a string of only expressions and blanks becomes any value), and every mapping gets some empty
      defaults of its own behind its fields. */
  ghost predicate MadeFrom(c: Value, e: Value)
    decreases c
  {
    match c
    case Str(s) => if IsTemplate(s) then InstanceOf(Literals(s), e) else e == c
    case List(items) =>
      e.List? && |e.items| == |items| && forall i :: 0 <= i < |items| ==> MadeFrom(items[i], e.items[i])
    case Mapping(fields) =>
      && e.Mapping? && |fields| <= |e.fields|
      && (forall i :: 0 <= i < |fields| ==>
            e.fields[i].key == fields[i].key && MadeFrom(fields[i].value, e.fields[i].value))
      && (forall i :: |fields| <= i < |e.fields| ==> IsEmptyDefault(e.fields[i].value))
    case _ => e == c
  }

  lemma {:induction false} MadeConforms(c: Value, e: Value, atRoot: bool)
    requires DistinctKeys(c) && MadeFrom(c, e)
    ensures Conforms(c, e, atRoot)
    decreases c
  {
    match c
    case List(items) =>
      forall i | 0 <= i < |items| ensures Conforms(items[i], e.items[i], false) {
        MadeConforms(items[i], e.items[i], false);
      }
    case Mapping(fields) =>
      var own, extras := e.fields[..|fields|], e.fields[|fields|..];
      assert own + extras == e.fields;
      forall i | 0 <= i < |fields|
        ensures HasKey(e, fields[i].key)
        ensures Conforms(fields[i].value, Get(e.fields, fields[i].key), atRoot && fields[i].key == "")
      {
        GetDistinct(own, extras, i);
        MadeConforms(fields[i].value, e.fields[i].value, atRoot && fields[i].key == "");
      }
      forall i | 0 <= i < |e.fields| ensures MayBeExtra(e.fields[i], atRoot) || HasKey(c, e.fields[i].key) {
        if i < |fields| { assert fields[i].key == e.fields[i].key; }
      }
    case _ =>
  }

  /** Whatever is made from the committed definition is accepted. */
  lemma InstanceIsAccepted(committed: Value, evaluated: Value)
    requires DistinctKeys(committed) && MadeFrom(committed, evaluated)
    ensures Check(committed, evaluated, "") == []
  {
    MadeConforms(committed, evaluated, true);
    CheckIffConforms(committed, evaluated, "");
  }

  // ----- What the check documents -----

  /** The promise as documented: expressions match anything, everything else is equal; keys only the
      evaluated mapping has are empty defaults, or metadata at the root.  A timestamp is not empty. */
  ghost predicate Documented(committed: Value, evaluated: Value, root: bool)
    decreases committed
  {
    match committed
    case Str(s) => if IsTemplate(s) then InstanceOf(Literals(s), evaluated) else evaluated == committed
    case List(items) =>
      && evaluated.List? && |evaluated.items| == |items|
      && forall i :: 0 <= i < |items| ==> Documented(items[i], evaluated.items[i], false)
    case Mapping(fields) =>
      && evaluated.Mapping?
      && (forall i :: 0 <= i < |fields| ==>
            && HasOwn(evaluated.fields, fields[i].key)
            && Documented(fields[i].value, Get(evaluated.fields, fields[i].key), false))
      && (forall i :: 0 <= i < |evaluated.fields| ==>
            || (MayBeExtra(evaluated.fields[i], root) && !evaluated.fields[i].value.Timestamp?)
            || HasOwn(fields, evaluated.fields[i].key))
    case _ => evaluated == committed
  }

  /** No key is empty or a name every object inherits, and no value is a timestamp. */
  predicate IsPlain(v: Value)
    decreases v
  {
    match v
    case List(items) => forall i :: 0 <= i < |items| ==> IsPlain(items[i])
    case Timestamp(_) => false
    case Mapping(fields) =>
      forall i :: 0 <= i < |fields| ==>
        fields[i].key != "" && fields[i].key !in INHERITED && IsPlain(fields[i].value)
    case _ => true
  }

  /** What is documented to pass does pass. */
  lemma {:induction false} DocumentedConforms(c: Value, e: Value, root: bool, atRoot: bool)
    requires Documented(c, e, root) && (root ==> atRoot)
    ensures Conforms(c, e, atRoot)
    decreases c
  {
    match c
    case List(items) =>
      forall i | 0 <= i < |items| ensures Conforms(items[i], e.items[i], false) {
        DocumentedConforms(items[i], e.items[i], false, false);
      }
    case Mapping(fields) =>
      forall i | 0 <= i < |fields|
        ensures Conforms(fields[i].value, Get(e.fields, fields[i].key), atRoot && fields[i].key == "")
      {
        DocumentedConforms(fields[i].value, Get(e.fields, fields[i].key), false, atRoot && fields[i].key == "");
      }
      forall i | 0 <= i < |e.fields| ensures MayBeExtra(e.fields[i], atRoot) || HasKey(c, e.fields[i].key) {
        assert MayBeExtra(e.fields[i], root) || HasOwn(fields, e.fields[i].key);
      }
    case _ =>
  }

  lemma {:induction false} ConformsDocumented(c: Value, e: Value, root: bool)
    requires IsPlain(c) && IsPlain(e) && Conforms(c, e, root)
    ensures Documented(c, e, root)
    decreases c
  {
    match c
    case List(items) =>
      forall i | 0 <= i < |items| ensures Documented(items[i], e.items[i], false) {
        ConformsDocumented(items[i], e.items[i], false);
      }
    case Mapping(fields) =>
      forall i | 0 <= i < |fields|
        ensures HasOwn(e.fields, fields[i].key) && Documented(fields[i].value, Get(e.fields, fields[i].key), false)
      {
        GetOwn(e.fields, fields[i].key);
        ConformsDocumented(fields[i].value, Get(e.fields, fields[i].key), false);
      }
      forall i | 0 <= i < |e.fields|
        ensures MayBeExtra(e.fields[i], root) || HasOwn(fields, e.fields[i].key)
        ensures !e.fields[i].value.Timestamp?
      {
        assert e.fields[i].key !in INHERITED && IsPlain(e.fields[i].value);
      }
    case _ =>
  }

  lemma {:induction false} GetOwn(fields: seq<Field>, key: string)
    requires HasOwn(fields, key)
    ensures exists i :: 0 <= i < |fields| && fields[i].key == key && Get(fields, key) == fields[i].value
  {
    if fields[0].key != key {
      GetOwn(fields[1..], key);
      var i :| 0 <= i < |fields[1..]| && fields[1..][i].key == key && Get(fields[1..], key) == fields[1..][i].value;
      assert fields[i + 1] == fields[1..][i];
    }
  }

  /** Everything documented to pass passes, and where no key is empty or inherited and no value is a
      timestamp nothing else does. */
  lemma CheckIsDocumented(committed: Value, evaluated: Value)
    ensures Documented(committed, evaluated, true) ==> Check(committed, evaluated, "") == []
    ensures IsPlain(committed) && IsPlain(evaluated) ==>
      (Check(committed, evaluated, "") == [] <==> Documented(committed, evaluated, true))
  {
    CheckIffConforms(committed, evaluated, "");
    if Documented(committed, evaluated, true) { DocumentedConforms(committed, evaluated, true, true); }
    if IsPlain(committed) && IsPlain(evaluated) && Conforms(committed, evaluated, true) {
      ConformsDocumented(committed, evaluated, true);
    }
  }
}
