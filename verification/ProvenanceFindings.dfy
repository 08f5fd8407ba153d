/**
 What the template check of `scripts/build_attestation.ts` reports: exactly one kind of fault at
 each place where the two definitions part, under the dotted path of that place.
 */
module ProvenanceFindings {
  import opened Options
  import opened Text
  import opened Provenance

  /** One step down: into a mapping's field or a list's item. */
  datatype Hop = Key(key: string) | Index(i: nat)

  /** A number as it is printed: without leading zeros, and with this value. */
  predicate IsDecimal(s: string) {
    s != "" && (forall i :: 0 <= i < |s| ==> '0' <= s[i] <= '9') && (|s| > 1 ==> s[0] != '0')
  }

  function DecimalValue(s: string): nat
    requires forall i :: 0 <= i < |s| ==> '0' <= s[i] <= '9'
  {
    if s == "" then 0 else 10 * DecimalValue(s[..|s| - 1]) + (s[|s| - 1] as int - '0' as int)
  }

  lemma {:induction false} DigitsAreDecimal(n: nat)
    ensures IsDecimal(Digits(n)) && DecimalValue(Digits(n)) == n
    ensures n > 0 ==> Digits(n)[0] != '0'
    decreases n
  {
    if n >= 10 {
      DigitsAreDecimal(n / 10);
      var init, last := Digits(n / 10), ('0' as int + n % 10) as char;
      assert Digits(n) == init + [last] && (init + [last])[..|init|] == init;
    } else {
      assert Digits(n)[..0] == "";
    }
  }

  /** `t` is the path `at`, one step further. */
  ghost predicate IsPathTo(at: string, hop: Hop, t: string) {
    match hop
    case Key(key) => t == if at == "" then key else at + "." + key
    case Index(i) => exists digits :: IsDecimal(digits) && DecimalValue(digits) == i && t == at + "[" + digits + "]"
  }

  /** From two values at the same place, a step leads to two values one place further. */
  ghost predicate StepsTo(c: Value, e: Value, hop: Hop, c': Value, e': Value) {
    match hop
    case Index(i) => c.List? && e.List? && |c.items| == |e.items| && i < |c.items| && c' == c.items[i] && e' == e.items[i]
    case Key(key) =>
      c.Mapping? && IsObject(e) && Field(key, c') in c.fields && HasKey(e, key) && e' == Get(Own(e), key)
  }

  /** What is wrong with the two values themselves, and under which path it is reported. */
  ghost predicate IsFault(c: Value, e: Value, at: string, f: Finding) {
    if c.Str? && IsTemplate(c.s) then f == Finding(at, Differs) && !InstanceOf(Literals(c.s), e)
    else if c.List? then
      || (f == Finding(at, NotAList) && !e.List?)
      || (f == Finding(at, WrongLength) && e.List? && |e.items| != |c.items|)
    else if IsObject(c) then
      || (f == Finding(at, NotAMapping) && !IsObject(e))
      || (f.reason.Missing? && IsObject(e)
          && exists key :: HasOwn(Own(c), key) && !HasKey(e, key) && IsPathTo(at, Key(key), f.at))
      || (f.reason.Extra? && IsObject(e)
          && exists x :: x in Own(e) && !MayBeExtra(x, at == "") && !HasKey(c, x.key) && IsPathTo(at, Key(x.key), f.at))
    else f == Finding(at, Differs) && c != e
  }

  /** Some place in the two values, reached from `at` on, has this fault. */
  ghost predicate HasFault(c: Value, e: Value, at: string, f: Finding, depth: nat)
    decreases depth
  {
    || IsFault(c, e, at, f)
    || (depth > 0 && exists hop, c', e', t :: StepsTo(c, e, hop, c', e') && IsPathTo(at, hop, t) && HasFault(c', e', t, f, depth - 1))
  }

  lemma {:induction false} DecimalIsUnique(a: string, b: string)
    requires IsDecimal(a) && IsDecimal(b) && DecimalValue(a) == DecimalValue(b)
    ensures a == b
    decreases |a|
  {
    if |a| == 1 || |b| == 1 {
      if |a| > 1 { LeadingIsPositive(a[..|a| - 1]); }
      if |b| > 1 { LeadingIsPositive(b[..|b| - 1]); }
      if |a| == 1 && |b| == 1 { assert a[..0] == "" && b[..0] == ""; }
    } else {
      assert a == a[..|a| - 1] + [a[|a| - 1]] && b == b[..|b| - 1] + [b[|b| - 1]];
      DecimalIsUnique(a[..|a| - 1], b[..|b| - 1]);
    }
  }

  lemma {:induction false} LeadingIsPositive(s: string)
    requires s != "" && (forall i :: 0 <= i < |s| ==> '0' <= s[i] <= '9') && s[0] != '0'
    ensures DecimalValue(s) > 0
    decreases |s|
  {
    if |s| > 1 { LeadingIsPositive(s[..|s| - 1]); }
  }

  lemma PathIsPath(at: string, hop: Hop, t: string)
    ensures IsPathTo(at, hop, t) <==> t == if hop.Key? then Path(at, hop.key) else ItemPath(at, hop.i)
  {
    if hop.Index? {
      DigitsAreDecimal(hop.i);
      if digits :| IsDecimal(digits) && DecimalValue(digits) == hop.i && t == at + "[" + digits + "]" {
        DecimalIsUnique(digits, Digits(hop.i));
      }
    }
  }

  // ----- The three loops -----

  lemma {:induction false} ItemFindings(c: seq<Value>, e: seq<Value>, at: string, i: nat, f: Finding)
    requires |c| == |e|
    ensures f in CheckItems(c, e, at, i) <==> exists k: nat :: k < |c| && f in Check(c[k], e[k], ItemPath(at, i + k))
    decreases |c|
  {
    if c != [] {
      ItemFindings(c[1..], e[1..], at, i + 1, f);
      if k: nat :| k < |c[1..]| && f in Check(c[1..][k], e[1..][k], ItemPath(at, i + 1 + k)) {
        assert c[k + 1] == c[1..][k] && e[k + 1] == e[1..][k] && i + 1 + k == i + (k + 1);
      }
      if k: nat :| k < |c| && f in Check(c[k], e[k], ItemPath(at, i + k)) {
        if k > 0 { assert c[k] == c[1..][k - 1] && e[k] == e[1..][k - 1] && i + 1 + (k - 1) == i + k; }
      }
    }
  }

  /** What the check finds for one committed field. */
  function FieldFindings(c: Field, e: Value, at: string): seq<Finding> {
    if !HasKey(e, c.key) then [Finding(Path(at, c.key), Missing)]
    else Check(c.value, Get(Own(e), c.key), Path(at, c.key))
  }

  lemma {:induction false} FieldsFindings(c: seq<Field>, e: Value, at: string, f: Finding)
    ensures f in CheckFields(c, e, at) <==> exists x :: x in c && f in FieldFindings(x, e, at)
    decreases |c|
  {
    if c != [] {
      FieldsFindings(c[1..], e, at, f);
      assert c == [c[0]] + c[1..];
      assert CheckFields(c, e, at) == FieldFindings(c[0], e, at) + CheckFields(c[1..], e, at);
    }
  }

  lemma {:induction false} ExtrasFindings(c: Value, e: seq<Field>, at: string, f: Finding)
    ensures f in ExtraFields(c, e, at) <==>
      exists x :: x in e && !MayBeExtra(x, at == "") && !HasKey(c, x.key) && f == Finding(Path(at, x.key), Extra)
    decreases |e|
  {
    if e != [] {
      ExtrasFindings(c, e[1..], at, f);
      assert e == [e[0]] + e[1..];
    }
  }

  // ----- Every fault, and nothing else -----

  lemma OwnIff(fields: seq<Field>, key: string)
    ensures HasOwn(fields, key) <==> exists x :: x in fields && x.key == key
  {
    if x :| x in fields && x.key == key {
      var i :| 0 <= i < |fields| && fields[i] == x;
    }
  }

  lemma FoundOneFurther(c: Value, e: Value, at: string, f: Finding, hop: Hop, c': Value, e': Value)
    requires StepsTo(c, e, hop, c', e') && f in Check(c', e', if hop.Key? then Path(at, hop.key) else ItemPath(at, hop.i))
    ensures f in Check(c, e, at)
  {
    match hop
    case Index(i) => ItemFindings(c.items, e.items, at, 0, f);
      assert f in Check(c.items[i], e.items[i], ItemPath(at, 0 + i));
    case Key(key) => FieldsFindings(c.fields, e, at, f);
      assert f in FieldFindings(Field(key, c'), e, at);
  }

  lemma ObjectFaultIsFound(c: Value, e: Value, at: string, f: Finding)
    requires IsFault(c, e, at, f) && IsObject(c) && IsObject(e)
    ensures f in Check(c, e, at)
  {
    ExtrasFindings(c, Own(e), at, f);
    if f.reason.Missing? {
      var key :| HasOwn(Own(c), key) && !HasKey(e, key) && IsPathTo(at, Key(key), f.at);
      PathIsPath(at, Key(key), f.at);
      FieldsFindings(c.fields, e, at, f);
      OwnIff(c.fields, key);
      var x :| x in c.fields && x.key == key;
      assert f in FieldFindings(x, e, at);
    } else {
      var x :| x in Own(e) && !MayBeExtra(x, at == "") && !HasKey(c, x.key) && IsPathTo(at, Key(x.key), f.at);
      PathIsPath(at, Key(x.key), f.at);
    }
  }

  lemma FaultIsFound(c: Value, e: Value, at: string, f: Finding)
    requires IsFault(c, e, at, f)
    ensures f in Check(c, e, at)
  {
    if c.Str? && IsTemplate(c.s) {
      TemplateIff(Literals(c.s), e);
    } else if IsObject(c) && IsObject(e) {
      ObjectFaultIsFound(c, e, at, f);
    }
  }

  lemma {:induction false} FaultsAreFound(c: Value, e: Value, at: string, f: Finding, depth: nat)
    requires HasFault(c, e, at, f, depth)
    ensures f in Check(c, e, at)
    decreases depth
  {
    if IsFault(c, e, at, f) {
      FaultIsFound(c, e, at, f);
    } else {
      var hop, c', e', t :| StepsTo(c, e, hop, c', e') && IsPathTo(at, hop, t) && HasFault(c', e', t, f, depth - 1);
      FaultsAreFound(c', e', t, f, depth - 1);
      PathIsPath(at, hop, t);
      FoundOneFurther(c, e, at, f, hop, c', e');
    }
  }

  lemma OneFurther(c: Value, e: Value, at: string, f: Finding, hop: Hop, c': Value, e': Value, depth: nat)
    requires StepsTo(c, e, hop, c', e')
    requires HasFault(c', e', if hop.Key? then Path(at, hop.key) else ItemPath(at, hop.i), f, depth)
    ensures HasFault(c, e, at, f, depth + 1)
  {
    PathIsPath(at, hop, if hop.Key? then Path(at, hop.key) else ItemPath(at, hop.i));
  }

  lemma {:induction false} FoundAreFaults(c: Value, e: Value, at: string, f: Finding) returns (depth: nat)
    requires f in Check(c, e, at)
    ensures HasFault(c, e, at, f, depth)
    decreases c
  {
    depth := 0;
    if c.Str? && IsTemplate(c.s) {
      TemplateIff(Literals(c.s), e);
    } else if c.List? && e.List? && |e.items| == |c.items| {
      ItemFindings(c.items, e.items, at, 0, f);
      var k: nat :| k < |c.items| && f in Check(c.items[k], e.items[k], ItemPath(at, 0 + k));
      depth := FoundAreFaults(c.items[k], e.items[k], ItemPath(at, k), f);
      OneFurther(c, e, at, f, Index(k), c.items[k], e.items[k], depth);
      depth := depth + 1;
    } else if IsObject(c) && IsObject(e) {
      depth := FoundInObject(c, e, at, f);
    }
  }

  lemma {:induction false} FoundInObject(c: Value, e: Value, at: string, f: Finding) returns (depth: nat)
    requires f in Check(c, e, at) && IsObject(c) && IsObject(e)
    ensures HasFault(c, e, at, f, depth)
    decreases c, 0
  {
    depth := 0;
    ExtrasFindings(c, Own(e), at, f);
    if f in ExtraFields(c, Own(e), at) {
      var x :| x in Own(e) && !MayBeExtra(x, at == "") && !HasKey(c, x.key) && f == Finding(Path(at, x.key), Extra);
      PathIsPath(at, Key(x.key), f.at);
    } else {
      FieldsFindings(c.fields, e, at, f);
      var x :| x in c.fields && f in FieldFindings(x, e, at);
      OwnIff(c.fields, x.key);
      if HasKey(e, x.key) {
        depth := FoundAreFaults(x.value, Get(Own(e), x.key), Path(at, x.key), f);
        OneFurther(c, e, at, f, Key(x.key), x.value, Get(Own(e), x.key), depth);
        depth := depth + 1;
      } else {
        PathIsPath(at, Key(x.key), f.at);
      }
    }
  }

  ghost predicate HasFaultSomewhere(c: Value, e: Value, at: string, f: Finding) {
    exists depth: nat :: HasFault(c, e, at, f, depth)
  }

  /** The check reports exactly the faults of the two definitions, each under the path of its place. */
  lemma FindingsIff(committed: Value, evaluated: Value, at: string, f: Finding)
    ensures f in Check(committed, evaluated, at) <==> HasFaultSomewhere(committed, evaluated, at, f)
  {
    if f in Check(committed, evaluated, at) {
      var depth := FoundAreFaults(committed, evaluated, at, f);
      assert HasFault(committed, evaluated, at, f, depth);
    }
    if HasFaultSomewhere(committed, evaluated, at, f) {
      var depth: nat :| HasFault(committed, evaluated, at, f, depth);
      FaultsAreFound(committed, evaluated, at, f, depth);
    }
  }
}
