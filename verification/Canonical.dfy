/**
 canonicalizeJson: the text under which event payloads enter the state hash.

 The main result is CanonicalIffEquivalent: two values have the same text exactly when they
 are equal up to the order of object keys, and up to the two identifications the code makes
 (undefined and non-finite numbers read as null, a bigint reads as the number it holds).
 */
module Canonical {
  import opened Utf16

  datatype Member = Member(key: Text, value: Json)

  /** The integers that JSON.stringify prints without an exponent. */
  type PlainInteger = n: int | -1_000_000_000_000_000_000_000 < n < 1_000_000_000_000_000_000_000

  /** A payload value. `NotFinite` stands for NaN and the infinities. */
  datatype Json =
    | Null
    | Undefined
    | NotFinite
    | Bool(flag: bool)
    | Number(number: PlainInteger)
    | BigInt(bigint: int)
    | String(text: Text)
    | Array(items: seq<Json>)
    | Object(members: seq<Member>)
  {
    function IntegerValue(): int
      requires Number? || BigInt?
    {
      if Number? then number else bigint
    }
  }

  const QUOTE: CodeUnit := 34
  const COMMA: CodeUnit := 44
  const BACKSLASH: CodeUnit := 92
  const LETTER_B: CodeUnit := 98
  const LETTER_F: CodeUnit := 102
  const LETTER_N: CodeUnit := 110
  const LETTER_R: CodeUnit := 114
  const LETTER_T: CodeUnit := 116
  const LETTER_U: CodeUnit := 117
  const OPEN_BRACKET: CodeUnit := 91
  const CLOSE_BRACKET: CodeUnit := 93
  const OPEN_BRACE: CodeUnit := 123
  const CLOSE_BRACE: CodeUnit := 125

  // ---------- JSON.stringify of a string ----------

  predicate IsHighSurrogate(c: CodeUnit) { 0xD800 <= c < 0xDC00 }

  predicate IsLowSurrogate(c: CodeUnit) { 0xDC00 <= c < 0xE000 }

  function HexDigit(d: nat): CodeUnit
    requires d < 16
  {
    if d < 10 then ZERO + d else LETTER_B - 1 + (d - 10)
  }

  /** The last `width` hexadecimal digits of `n`. */
  function Hex(n: nat, width: nat): (t: Text)
    ensures |t| == width
  {
    if width == 0 then [] else Hex(n / 16, width - 1) + [HexDigit(n % 16)]
  }

  /** The letter of a two-unit escape, or 0 when the unit has none. */
  function EscapeLetter(c: CodeUnit): CodeUnit {
    if c == 8 then LETTER_B
    else if c == 9 then LETTER_T
    else if c == 10 then LETTER_N
    else if c == 12 then LETTER_F
    else if c == 13 then LETTER_R
    else if c == QUOTE || c == BACKSLASH then c
    else 0
  }

  /** The escape of one unit that is not half of a surrogate pair. */
  function EscapeUnit(c: CodeUnit): Text {
    if EscapeLetter(c) != 0 then [BACKSLASH, EscapeLetter(c)]
    else if c < 32 || IsHighSurrogate(c) || IsLowSurrogate(c) then [BACKSLASH, LETTER_U] + Hex(c, 4)
    else [c]
  }

  predicate StartsWithPair(s: Text) {
    |s| >= 2 && IsHighSurrogate(s[0]) && IsLowSurrogate(s[1])
  }

  /** How many units of a non-empty string one step of the escaping consumes. */
  function StepLength(s: Text): nat {
    if StartsWithPair(s) then 2 else 1
  }

  /** What that step emits: a surrogate pair stands for itself. */
  function StepText(s: Text): Text
    requires s != []
  {
    if StartsWithPair(s) then s[..2] else EscapeUnit(s[0])
  }

  function Escape(s: Text): Text {
    if s == [] then [] else StepText(s) + Escape(s[StepLength(s)..])
  }

  function Quoted(s: Text): Text {
    [QUOTE] + Escape(s) + [QUOTE]
  }

  // ---------- canonicalizeJson ----------

  /** Array.prototype.sort on strings: by code units, a proper prefix first. */
  predicate KeyLess(a: Text, b: Text) {
    if b == [] then false
    else if a == [] then true
    else if a[0] != b[0] then a[0] < b[0]
    else KeyLess(a[1..], b[1..])
  }

  /** An object member whose value is already rendered. */
  datatype Field = Field(key: Text, text: Text)

  function InsertField(f: Field, sorted: seq<Field>): seq<Field> {
    if sorted == [] || KeyLess(f.key, sorted[0].key) then [f] + sorted
    else [sorted[0]] + InsertField(f, sorted[1..])
  }

  function SortFields(fields: seq<Field>): seq<Field> {
    if fields == [] then [] else InsertField(fields[0], SortFields(fields[1..]))
  }

  function FieldText(f: Field): Text {
    Quoted(f.key) + [COLON] + f.text
  }

  function Join(parts: seq<Text>): Text {
    if parts == [] then []
    else if |parts| == 1 then parts[0]
    else parts[0] + [COMMA] + Join(parts[1..])
  }

  function ListText(open: CodeUnit, parts: seq<Text>, close: CodeUnit): Text {
    [open] + Join(parts) + [close]
  }

  function Canonicalize(v: Json): Text {
    match v
    case Null => Ascii("null")
    case Undefined => Ascii("null")
    case NotFinite => Ascii("null")
    case Bool(flag) => Ascii(if flag then "true" else "false")
    case Number(n) => Decimal(n)
    case BigInt(n) => Decimal(n)
    case String(s) => Quoted(s)
    case Array(items) => ListText(OPEN_BRACKET, CanonicalItems(items), CLOSE_BRACKET)
    case Object(members) =>
      ListText(OPEN_BRACE, FieldTexts(SortFields(CanonicalFields(members))), CLOSE_BRACE)
  }

  function SortedFields(members: seq<Member>): seq<Field> {
    SortFields(CanonicalFields(members))
  }

  function CanonicalItems(items: seq<Json>): (texts: seq<Text>)
    ensures |texts| == |items|
    ensures forall i :: 0 <= i < |items| ==> texts[i] == Canonicalize(items[i])
  {
    if items == [] then [] else [Canonicalize(items[0])] + CanonicalItems(items[1..])
  }

  function CanonicalFields(members: seq<Member>): (fields: seq<Field>)
    ensures |fields| == |members|
    ensures forall i :: 0 <= i < |members| ==>
              fields[i] == Field(members[i].key, Canonicalize(members[i].value))
  {
    if members == [] then []
    else [Field(members[0].key, Canonicalize(members[0].value))] + CanonicalFields(members[1..])
  }

  function FieldTexts(fields: seq<Field>): (texts: seq<Text>)
    ensures |texts| == |fields|
    ensures forall i :: 0 <= i < |fields| ==> texts[i] == FieldText(fields[i])
  {
    seq(|fields|, i requires 0 <= i < |fields| => FieldText(fields[i]))
  }

  // ---------- what it should mean ----------

  ghost predicate DistinctKeys(members: seq<Member>) {
    forall i, j :: 0 <= i < j < |members| ==> members[i].key != members[j].key
  }

  /** Every JavaScript object has distinct keys; this says so of the model's objects. */
  ghost predicate WellFormed(v: Json) {
    match v
    case Array(items) => forall i :: 0 <= i < |items| ==> WellFormed(items[i])
    case Object(members) =>
      DistinctKeys(members) && forall i :: 0 <= i < |members| ==> WellFormed(members[i].value)
    case _ => true
  }

  predicate ReadsAsNull(v: Json) {
    v.Null? || v.Undefined? || v.NotFinite?
  }

  predicate ReadsAsInteger(v: Json, n: int) {
    (v.Number? && v.number == n) || v == BigInt(n)
  }

  /** Equal up to key order, with undefined ~ null and bigint ~ number. */
  ghost predicate Equivalent(a: Json, b: Json) {
    match a
    case Null => ReadsAsNull(b)
    case Undefined => ReadsAsNull(b)
    case NotFinite => ReadsAsNull(b)
    case Bool(flag) => b == a
    case Number(n) => ReadsAsInteger(b, n)
    case BigInt(n) => ReadsAsInteger(b, n)
    case String(s) => b == a
    case Array(items) =>
      b.Array? && |b.items| == |items| &&
      forall i :: 0 <= i < |items| ==> Equivalent(items[i], b.items[i])
    case Object(members) =>
      b.Object? && |b.members| == |members| && Keys(members) == Keys(b.members) &&
      forall i, j :: 0 <= i < |members| && 0 <= j < |b.members| && members[i].key == b.members[j].key ==>
        Equivalent(members[i].value, b.members[j].value)
  }

  ghost function Keys(members: seq<Member>): set<Text> {
    set m | m in members :: m.key
  }

  // ---------- strings ----------

  function Power16(k: nat): nat {
    if k == 0 then 1 else 16 * Power16(k - 1)
  }

  lemma {:induction false} HexInjective(m: nat, n: nat, width: nat)
    requires Hex(m, width) == Hex(n, width)
    requires m < Power16(width) && n < Power16(width)
    ensures m == n
  {
    if width > 0 {
      var s, t := Hex(m, width), Hex(n, width);
      assert s[width - 1] == t[width - 1];
      assert Hex(m / 16, width - 1) == s[..width - 1] == t[..width - 1] == Hex(n / 16, width - 1);
      HexInjective(m / 16, n / 16, width - 1);
    }
  }

  lemma {:induction false} EscapeUnitSplit(c: CodeUnit, d: CodeUnit, r: Text, q: Text)
    requires EscapeUnit(c) + r == EscapeUnit(d) + q
    ensures c == d && r == q
  {
    var whole := EscapeUnit(c) + r;
    var e, f := EscapeUnit(c), EscapeUnit(d);
    assert whole == f + q;
    assert e[0] == whole[0] == f[0];
    if e[0] == BACKSLASH {
      assert e[1] == whole[1] == f[1];
      if e[1] == LETTER_U {
        assert Hex(c, 4) == e[2..] == whole[2..6] == f[2..] == Hex(d, 4);
        assert Power16(3) == 16 * Power16(2);
        HexInjective(c, d, 4);
      }
    }
    assert r == whole[|e|..] && q == whole[|f|..];
  }

  /** What one step emitted tells which units it consumed. */
  lemma {:induction false} StepSplit(s: Text, t: Text, r: Text, q: Text)
    requires s != [] && t != []
    requires StepText(s) + r == StepText(t) + q
    ensures StepLength(s) == StepLength(t) && s[..StepLength(s)] == t[..StepLength(s)] && r == q
  {
    var whole := StepText(s) + r;
    assert whole[0] == StepText(s)[0] == StepText(t)[0];
    if StartsWithPair(s) {
      assert StartsWithPair(t);
      assert whole[1] == StepText(s)[1] == StepText(t)[1];
      assert r == whole[2..] && q == whole[2..];
    } else {
      assert !StartsWithPair(t);
      EscapeUnitSplit(s[0], t[0], r, q);
    }
  }

  lemma {:induction false} EscapeHead(s: Text, r: Text)
    requires s != []
    ensures (Escape(s) + ([QUOTE] + r))[0] != QUOTE
    ensures Escape(s) + ([QUOTE] + r) ==
            StepText(s) + (Escape(s[StepLength(s)..]) + ([QUOTE] + r))
  {
    var step, rest := StepText(s), Escape(s[StepLength(s)..]);
    assert Escape(s) == step + rest;
    Associative(step, rest, [QUOTE] + r);
    assert step[0] != QUOTE;
  }

  /** The closing quote of a string can be found without knowing the string. */
  lemma {:induction false} EscapeSplit(s: Text, t: Text, r: Text, q: Text)
    requires Escape(s) + ([QUOTE] + r) == Escape(t) + ([QUOTE] + q)
    ensures s == t && r == q
    decreases |s|
  {
    if s != [] { EscapeHead(s, r); }
    if t != [] { EscapeHead(t, q); }
    if s == [] {
      assert r == (Escape(s) + ([QUOTE] + r))[1..];
      assert q == (Escape(t) + ([QUOTE] + q))[1..];
    } else {
      var k, l := StepLength(s), StepLength(t);
      StepSplit(s, t, Escape(s[k..]) + ([QUOTE] + r), Escape(t[l..]) + ([QUOTE] + q));
      EscapeSplit(s[k..], t[l..], r, q);
      assert s == s[..k] + s[k..] && t == t[..l] + t[l..];
    }
  }

  lemma {:induction false} QuotedTail(s: Text, r: Text)
    ensures (Quoted(s) + r)[1..] == Escape(s) + ([QUOTE] + r)
  {
  }

  lemma {:induction false} QuotedSplit(s: Text, t: Text, r: Text, q: Text)
    requires Quoted(s) + r == Quoted(t) + q
    ensures s == t && r == q
  {
    QuotedTail(s, r);
    QuotedTail(t, q);
    EscapeSplit(s, t, r, q);
  }

  // ---------- sorting ----------

  lemma {:induction false} KeyLessTotal(a: Text, b: Text)
    ensures a == b || KeyLess(a, b) || KeyLess(b, a)
    ensures !(KeyLess(a, b) && KeyLess(b, a))
  {
    if a != [] && b != [] && a[0] == b[0] {
      KeyLessTotal(a[1..], b[1..]);
      assert a == [a[0]] + a[1..] && b == [b[0]] + b[1..];
    }
  }

  lemma {:induction false} KeyLessTransitive(a: Text, b: Text, c: Text)
    requires KeyLess(a, b) && KeyLess(b, c)
    ensures KeyLess(a, c)
  {
    if a != [] && a[0] == b[0] && b[0] == c[0] {
      KeyLessTransitive(a[1..], b[1..], c[1..]);
    }
  }

  ghost predicate Sorted(fields: seq<Field>) {
    forall i, j :: 0 <= i < j < |fields| ==> KeyLess(fields[i].key, fields[j].key)
  }

  ghost predicate DistinctFieldKeys(fields: seq<Field>) {
    forall i, j :: 0 <= i < j < |fields| ==> fields[i].key != fields[j].key
  }

  lemma {:induction false} InsertFieldSorted(f: Field, sorted: seq<Field>)
    requires Sorted(sorted)
    requires forall g :: g in sorted ==> g.key != f.key
    ensures Sorted(InsertField(f, sorted))
    ensures forall g :: g in InsertField(f, sorted) <==> g == f || g in sorted
    ensures |InsertField(f, sorted)| == |sorted| + 1
  {
    if sorted == [] {
    } else if KeyLess(f.key, sorted[0].key) {
      forall j | 0 < j < |sorted| ensures KeyLess(f.key, sorted[j].key) {
        KeyLessTransitive(f.key, sorted[0].key, sorted[j].key);
      }
    } else {
      var rest := InsertField(f, sorted[1..]);
      InsertFieldSorted(f, sorted[1..]);
      KeyLessTotal(f.key, sorted[0].key);
      assert sorted[0] in sorted;
      forall j | 0 <= j < |rest| ensures KeyLess(sorted[0].key, rest[j].key) {
        assert rest[j] in rest;
        if rest[j] != f {
          var k :| 0 <= k < |sorted[1..]| && sorted[1..][k] == rest[j];
          assert sorted[k + 1] == rest[j];
        }
      }
      assert sorted == [sorted[0]] + sorted[1..];
    }
  }

  /** Sorting keeps the fields and puts their keys in strictly increasing order. */
  lemma {:induction false} SortFieldsSorts(fields: seq<Field>)
    requires DistinctFieldKeys(fields)
    ensures Sorted(SortFields(fields))
    ensures forall g :: g in SortFields(fields) <==> g in fields
    ensures |SortFields(fields)| == |fields|
  {
    if fields != [] {
      SortFieldsSorts(fields[1..]);
      forall g | g in SortFields(fields[1..]) ensures g.key != fields[0].key {
        var k :| 0 <= k < |fields[1..]| && fields[1..][k] == g;
        assert fields[k + 1] == g;
      }
      InsertFieldSorted(fields[0], SortFields(fields[1..]));
      assert fields == [fields[0]] + fields[1..];
    }
  }

  /** A strictly sorted sequence is determined by its elements. */
  lemma {:induction false} SortedUnique(a: seq<Field>, b: seq<Field>)
    requires Sorted(a) && Sorted(b)
    requires forall g :: g in a <==> g in b
    ensures a == b
  {
    assert (b == [] || b[0] in b) && (a == [] || a[0] in a);
    if a != [] {
      assert a[0] in b;
      assert b != [];
      assert b[0] in a;
      SortedHead(a, b[0]);
      SortedHead(b, a[0]);
      KeyLessTotal(a[0].key, b[0].key);
      assert a[0] == b[0];
      forall g | g in a[1..] ensures g in b[1..] { SortedTail(a, b, g); }
      forall g | g in b[1..] ensures g in a[1..] { SortedTail(b, a, g); }
      SortedUnique(a[1..], b[1..]);
      assert a == [a[0]] + a[1..] && b == [b[0]] + b[1..];
    }
  }

  lemma {:induction false} SortedHead(a: seq<Field>, g: Field)
    requires Sorted(a) && g in a
    ensures g == a[0] || KeyLess(a[0].key, g.key)
  {
    var k :| 0 <= k < |a| && a[k] == g;
  }

  lemma {:induction false} SortedTail(a: seq<Field>, b: seq<Field>, g: Field)
    requires Sorted(a) && a != [] && b != [] && a[0] == b[0]
    requires forall h :: h in a <==> h in b
    requires g in a[1..]
    ensures g in b[1..]
  {
    var k :| 0 <= k < |a[1..]| && a[1..][k] == g;
    assert a[k + 1] == g && KeyLess(a[0].key, g.key);
    KeyLessTotal(g.key, g.key);
    assert g in a && g in b;
    var m :| 0 <= m < |b| && b[m] == g;
    assert b[1..][m - 1] == g;
  }

  // ---------- cutting a value off a longer text ----------

  /** What may follow a value inside a canonical text. */
  predicate EndsValue(r: Text) {
    r == [] || r[0] == COMMA || r[0] == CLOSE_BRACKET || r[0] == CLOSE_BRACE
  }

  /** The first unit of a value's text tells what kind of value it is. */
  lemma {:induction false} FirstUnit(v: Json)
    ensures var t := Canonicalize(v);
            && |t| > 0
            && (t[0] == LETTER_N <==> ReadsAsNull(v))
            && (t[0] == LETTER_T <==> v == Bool(true))
            && (t[0] == LETTER_F <==> v == Bool(false))
            && (t[0] == QUOTE <==> v.String?)
            && (t[0] == OPEN_BRACKET <==> v.Array?)
            && (t[0] == OPEN_BRACE <==> v.Object?)
            && ((IsDigit(t[0]) || t[0] == MINUS) <==> (v.Number? || v.BigInt?))
            && t[0] != CLOSE_BRACKET && t[0] != CLOSE_BRACE && t[0] != COMMA
  {
    match v
    case Number(n) => DecimalUnits(n);
    case BigInt(n) => DecimalUnits(n);
    case _ =>
  }

  /** The rest of a list of rendered values, after its first one: closed, or going on. */
  function ListRest(tail: seq<Text>, close: CodeUnit, r: Text): Text {
    if tail == [] then [close] + r else [COMMA] + (Join(tail) + ([close] + r))
  }

  lemma {:induction false} JoinHead(parts: seq<Text>, close: CodeUnit, r: Text)
    requires parts != []
    ensures Join(parts) + ([close] + r) == parts[0] + ListRest(parts[1..], close, r)
  {
    if |parts| > 1 {
      var tail := Join(parts[1..]);
      Associative(parts[0], [COMMA], tail);
      Associative(parts[0], [COMMA] + tail, [close] + r);
      Associative([COMMA], tail, [close] + r);
    }
  }

  /** The first value of two equal lists ends at the same place. */
  lemma {:induction false} ListRestSplit(a: seq<Text>, b: seq<Text>, close: CodeUnit, r: Text, q: Text)
    requires close == CLOSE_BRACKET || close == CLOSE_BRACE
    requires ListRest(a, close, r) == ListRest(b, close, q)
    ensures a == [] <==> b == []
    ensures a == [] ==> r == q
    ensures a != [] ==> Join(a) + ([close] + r) == Join(b) + ([close] + q)
  {
    var whole := ListRest(a, close, r);
    assert a == [] <==> whole[0] == close;
    assert b == [] <==> whole[0] == close;
    assert whole[1..] == if a == [] then r else Join(a) + ([close] + r);
    assert whole[1..] == if b == [] then q else Join(b) + ([close] + q);
  }

  lemma {:induction false} ListTextSplit(open: CodeUnit, s: seq<Text>, t: seq<Text>, close: CodeUnit, r: Text, q: Text)
    requires ListText(open, s, close) + r == ListText(open, t, close) + q
    ensures Join(s) + ([close] + r) == Join(t) + ([close] + q)
  {
    assert ListText(open, s, close) + r == [open] + (Join(s) + ([close] + r));
    assert ListText(open, t, close) + q == [open] + (Join(t) + ([close] + q));
    TailsEqual([open], Join(s) + ([close] + r), Join(t) + ([close] + q));
  }

  /** A value's text can be cut off a longer text in one way only. */
  lemma {:induction false} CanonicalSplit(a: Json, b: Json, r: Text, q: Text)
    requires WellFormed(a) && WellFormed(b) && EndsValue(r) && EndsValue(q)
    requires Canonicalize(a) + r == Canonicalize(b) + q
    ensures Canonicalize(a) == Canonicalize(b) && r == q
    decreases a, 0
  {
    FirstUnit(a);
    FirstUnit(b);
    assert (Canonicalize(a) + r)[0] == Canonicalize(a)[0];
    assert (Canonicalize(b) + q)[0] == Canonicalize(b)[0];
    if a.Array? {
      ListTextSplit(OPEN_BRACKET, CanonicalItems(a.items), CanonicalItems(b.items), CLOSE_BRACKET, r, q);
      ItemsSplit(a.items, b.items, r, q);
    } else if a.Object? {
      SortedFieldsRender(a.members);
      SortedFieldsRender(b.members);
      ListTextSplit(OPEN_BRACE, FieldTexts(SortedFields(a.members)), FieldTexts(SortedFields(b.members)),
                    CLOSE_BRACE, r, q);
      FieldsSplit(a.members, b.members, SortedFields(a.members), SortedFields(b.members), r, q);
    } else {
      ScalarSplit(a, b, r, q);
    }
  }

  lemma {:induction false} ScalarSplit(a: Json, b: Json, r: Text, q: Text)
    requires !a.Array? && !a.Object? && !b.Array? && !b.Object?
    requires EndsValue(r) && EndsValue(q)
    requires Canonicalize(a) + r == Canonicalize(b) + q
    ensures Canonicalize(a) == Canonicalize(b) && r == q
    ensures Equivalent(a, b)
  {
    var x, y := Canonicalize(a), Canonicalize(b);
    FirstUnit(a);
    FirstUnit(b);
    assert (x + r)[0] == x[0] && (y + q)[0] == y[0];
    if a.Number? || a.BigInt? {
      DecimalSplit(a.IntegerValue(), b.IntegerValue(), r, q);
    } else if a.String? {
      QuotedSplit(a.text, b.text, r, q);
    } else {
      assert x == y;
      TailsEqual(x, r, q);
    }
  }

  lemma {:induction false} SortedFieldsRender(members: seq<Member>)
    requires DistinctKeys(members)
    ensures forall f :: f in SortedFields(members) <==> f in CanonicalFields(members)
    ensures |SortedFields(members)| == |members|
    ensures Sorted(SortedFields(members))
  {
    SortFieldsSorts(CanonicalFields(members));
  }

  lemma {:induction false} TailsEqual(head: Text, r: Text, q: Text)
    requires head + r == head + q
    ensures r == q
  {
    assert r == (head + r)[|head|..] && q == (head + q)[|head|..];
  }

  lemma {:induction false} ItemsSplit(a: seq<Json>, b: seq<Json>, r: Text, q: Text)
    requires forall i :: 0 <= i < |a| ==> WellFormed(a[i])
    requires forall i :: 0 <= i < |b| ==> WellFormed(b[i])
    requires Join(CanonicalItems(a)) + ([CLOSE_BRACKET] + r) ==
             Join(CanonicalItems(b)) + ([CLOSE_BRACKET] + q)
    ensures CanonicalItems(a) == CanonicalItems(b) && r == q
    decreases a, 1
  {
    var s, t := CanonicalItems(a), CanonicalItems(b);
    var whole := Join(s) + ([CLOSE_BRACKET] + r);
    if a != [] { JoinHead(s, CLOSE_BRACKET, r); FirstUnit(a[0]); }
    if b != [] { JoinHead(t, CLOSE_BRACKET, q); FirstUnit(b[0]); }
    assert a == [] <==> whole[0] == CLOSE_BRACKET;
    assert b == [] <==> whole[0] == CLOSE_BRACKET;
    if a == [] {
      assert r == whole[1..] && q == whole[1..];
    } else {
      assert s[1..] == CanonicalItems(a[1..]) && t[1..] == CanonicalItems(b[1..]);
      var x, y := ListRest(s[1..], CLOSE_BRACKET, r), ListRest(t[1..], CLOSE_BRACKET, q);
      CanonicalSplit(a[0], b[0], x, y);
      ListRestSplit(s[1..], t[1..], CLOSE_BRACKET, r, q);
      if |a| > 1 {
        ItemsSplit(a[1..], b[1..], r, q);
      }
      assert s == [s[0]] + s[1..] && t == [t[0]] + t[1..];
    }
  }

  /** Every field is the rendering of one of the members. */
  ghost predicate RendersMembers(fields: seq<Field>, members: seq<Member>) {
    forall f :: f in fields ==> f in CanonicalFields(members)
  }

  lemma {:induction false} FieldsHead(s: seq<Field>, r: Text)
    requires s != []
    ensures Join(FieldTexts(s)) + ([CLOSE_BRACE] + r) ==
            FieldText(s[0]) + ListRest(FieldTexts(s[1..]), CLOSE_BRACE, r)
  {
    JoinHead(FieldTexts(s), CLOSE_BRACE, r);
    assert FieldTexts(s)[1..] == FieldTexts(s[1..]);
  }

  lemma {:induction false} FieldsEmpty(s: seq<Field>, r: Text)
    ensures s == [] <==> (Join(FieldTexts(s)) + ([CLOSE_BRACE] + r))[0] == CLOSE_BRACE
    ensures s == [] ==> Join(FieldTexts(s)) + ([CLOSE_BRACE] + r) == [CLOSE_BRACE] + r
  {
    if s != [] { FieldsHead(s, r); }
  }

  lemma {:induction false} FieldsSplit(
    a: seq<Member>, b: seq<Member>, s: seq<Field>, t: seq<Field>, r: Text, q: Text)
    requires forall i :: 0 <= i < |a| ==> WellFormed(a[i].value)
    requires forall i :: 0 <= i < |b| ==> WellFormed(b[i].value)
    requires RendersMembers(s, a) && RendersMembers(t, b)
    requires Join(FieldTexts(s)) + ([CLOSE_BRACE] + r) == Join(FieldTexts(t)) + ([CLOSE_BRACE] + q)
    ensures s == t && r == q
    decreases a, |s| + 1
  {
    FieldsEmpty(s, r);
    FieldsEmpty(t, q);
    if s == [] {
      TailsEqual([CLOSE_BRACE], r, q);
    } else {
      FieldsHead(s, r);
      FieldsHead(t, q);
      var x, y := ListRest(FieldTexts(s[1..]), CLOSE_BRACE, r), ListRest(FieldTexts(t[1..]), CLOSE_BRACE, q);
      FieldHeadSplit(s[0], t[0], x, y);
      FieldTextSplit(a, b, s[0], t[0], x, y);
      ListRestSplit(FieldTexts(s[1..]), FieldTexts(t[1..]), CLOSE_BRACE, r, q);
      if |s| > 1 {
        FieldsSplit(a, b, s[1..], t[1..], r, q);
      }
      SameByParts(s, t);
    }
  }

  lemma {:induction false} SameByParts(s: seq<Field>, t: seq<Field>)
    requires s != [] && t != [] && s[0] == t[0] && s[1..] == t[1..]
    ensures s == t
  {
    assert s == [s[0]] + s[1..] && t == [t[0]] + t[1..];
  }

  lemma {:induction false} FieldTextSplit(
    a: seq<Member>, b: seq<Member>, f: Field, g: Field, r: Text, q: Text)
    requires forall i :: 0 <= i < |a| ==> WellFormed(a[i].value)
    requires forall i :: 0 <= i < |b| ==> WellFormed(b[i].value)
    requires f in CanonicalFields(a) && g in CanonicalFields(b)
    requires EndsValue(r) && EndsValue(q)
    requires f.text + r == g.text + q
    ensures f.text == g.text && r == q
    decreases a, 0
  {
    var i :| 0 <= i < |a| && CanonicalFields(a)[i] == f;
    var j :| 0 <= j < |b| && CanonicalFields(b)[j] == g;
    CanonicalSplit(a[i].value, b[j].value, r, q);
  }

  lemma {:induction false} Regrouped(x: Text, y: Text, z: Text, r: Text)
    ensures x + y + z + r == x + (y + (z + r))
  {
  }

  lemma {:induction false} FieldHeadSplit(f: Field, g: Field, r: Text, q: Text)
    requires FieldText(f) + r == FieldText(g) + q
    ensures f.key == g.key && f.text + r == g.text + q
  {
    Regrouped(Quoted(f.key), [COLON], f.text, r);
    Regrouped(Quoted(g.key), [COLON], g.text, q);
    QuotedSplit(f.key, g.key, [COLON] + (f.text + r), [COLON] + (g.text + q));
    TailsEqual([COLON], f.text + r, g.text + q);
  }

  // ---------- the main result ----------

  /** Two values have the same canonical text exactly when they are equivalent. */
  lemma {:induction false} CanonicalIffEquivalent(a: Json, b: Json)
    requires WellFormed(a) && WellFormed(b)
    ensures Canonicalize(a) == Canonicalize(b) <==> Equivalent(a, b)
  {
    if Canonicalize(a) == Canonicalize(b) { SameTextEquivalent(a, b); }
    if Equivalent(a, b) { EquivalentSameText(a, b); }
  }

  lemma {:induction false} SameTextEquivalent(a: Json, b: Json)
    requires WellFormed(a) && WellFormed(b)
    requires Canonicalize(a) == Canonicalize(b)
    ensures Equivalent(a, b)
    decreases a, 0
  {
    FirstUnit(a);
    FirstUnit(b);
    if a.Array? {
      var s, t := CanonicalItems(a.items), CanonicalItems(b.items);
      ListTextSplit(OPEN_BRACKET, s, t, CLOSE_BRACKET, [], []);
      ItemsSplit(a.items, b.items, [], []);
      SameItemsEquivalent(a.items, b.items);
    } else if a.Object? {
      var s, t := SortedFields(a.members), SortedFields(b.members);
      SortedFieldsRender(a.members);
      SortedFieldsRender(b.members);
      ListTextSplit(OPEN_BRACE, FieldTexts(s), FieldTexts(t), CLOSE_BRACE, [], []);
      FieldsSplit(a.members, b.members, s, t, [], []);
      forall f | f in CanonicalFields(a.members) ensures f in CanonicalFields(b.members) {}
      SameFieldsEquivalent(a.members, b.members);
    } else {
      ScalarSplit(a, b, [], []);
    }
  }

  lemma {:induction false} SameItemsEquivalent(a: seq<Json>, b: seq<Json>)
    requires forall i :: 0 <= i < |a| ==> WellFormed(a[i])
    requires forall i :: 0 <= i < |b| ==> WellFormed(b[i])
    requires CanonicalItems(a) == CanonicalItems(b)
    ensures |a| == |b| && forall i :: 0 <= i < |a| ==> Equivalent(a[i], b[i])
    decreases a, 1
  {
    forall i | 0 <= i < |a| ensures Equivalent(a[i], b[i]) {
      assert CanonicalItems(a)[i] == CanonicalItems(b)[i];
      SameTextEquivalent(a[i], b[i]);
    }
  }

  lemma {:induction false} SameFieldsEquivalent(a: seq<Member>, b: seq<Member>)
    requires WellFormed(Object(a)) && WellFormed(Object(b))
    requires forall f :: f in CanonicalFields(a) <==> f in CanonicalFields(b)
    ensures Keys(a) == Keys(b)
    ensures forall i, j :: 0 <= i < |a| && 0 <= j < |b| && a[i].key == b[j].key ==>
              Equivalent(a[i].value, b[j].value)
    decreases a, 1
  {
    SameFieldsSameKeys(a, b);
    forall i, j | 0 <= i < |a| && 0 <= j < |b| && a[i].key == b[j].key
      ensures Equivalent(a[i].value, b[j].value)
    {
      SameFieldsSameText(a, b, i, j);
      SameTextEquivalent(a[i].value, b[j].value);
    }
  }

  lemma {:induction false} SameFieldsSameKeys(a: seq<Member>, b: seq<Member>)
    requires forall f :: f in CanonicalFields(a) <==> f in CanonicalFields(b)
    ensures Keys(a) == Keys(b)
  {
    var f, g := CanonicalFields(a), CanonicalFields(b);
    forall i | 0 <= i < |a| ensures a[i].key in Keys(b) {
      assert f[i] in g;
      var j :| 0 <= j < |g| && g[j] == f[i];
      assert b[j] in b;
    }
    forall j | 0 <= j < |b| ensures b[j].key in Keys(a) {
      assert g[j] in f;
      var i :| 0 <= i < |f| && f[i] == g[j];
      assert a[i] in a;
    }
  }

  lemma {:induction false} SameFieldsSameText(a: seq<Member>, b: seq<Member>, i: nat, j: nat)
    requires DistinctKeys(b)
    requires forall f :: f in CanonicalFields(a) ==> f in CanonicalFields(b)
    requires i < |a| && j < |b| && a[i].key == b[j].key
    ensures Canonicalize(a[i].value) == Canonicalize(b[j].value)
  {
    var g := CanonicalFields(b);
    var f := CanonicalFields(a)[i];
    assert f in g;
    var k :| 0 <= k < |g| && g[k] == f;
    assert k == j by { assert b[k].key == b[j].key; }
  }

  lemma {:induction false} EquivalentSameText(a: Json, b: Json)
    requires WellFormed(a) && WellFormed(b) && Equivalent(a, b)
    ensures Canonicalize(a) == Canonicalize(b)
    decreases a, 0
  {
    if a.Array? {
      EquivalentSameItems(a.items, b.items);
    } else if a.Object? {
      EquivalentSameFields(a.members, b.members);
      SortedFieldsRender(a.members);
      SortedFieldsRender(b.members);
      SortedUnique(SortedFields(a.members), SortedFields(b.members));
    }
  }

  lemma {:induction false} EquivalentSameItems(a: seq<Json>, b: seq<Json>)
    requires forall i :: 0 <= i < |a| ==> WellFormed(a[i])
    requires forall i :: 0 <= i < |b| ==> WellFormed(b[i])
    requires |a| == |b| && forall i :: 0 <= i < |a| ==> Equivalent(a[i], b[i])
    ensures CanonicalItems(a) == CanonicalItems(b)
    decreases a, 1
  {
    forall i | 0 <= i < |a| ensures CanonicalItems(a)[i] == CanonicalItems(b)[i] {
      EquivalentSameText(a[i], b[i]);
    }
  }

  lemma {:induction false} EquivalentSameFields(a: seq<Member>, b: seq<Member>)
    requires WellFormed(Object(a)) && WellFormed(Object(b)) && Equivalent(Object(a), Object(b))
    ensures forall f :: f in CanonicalFields(a) <==> f in CanonicalFields(b)
    decreases a, 1
  {
    var f, g := CanonicalFields(a), CanonicalFields(b);
    forall i, j | 0 <= i < |a| && 0 <= j < |b| && a[i].key == b[j].key ensures f[i] == g[j] {
      EquivalentSameText(a[i].value, b[j].value);
    }
    forall h | h in f ensures h in g {
      var i :| 0 <= i < |f| && f[i] == h;
      assert a[i] in a && a[i].key in Keys(b);
      var j :| 0 <= j < |b| && b[j].key == a[i].key;
      assert g[j] == h;
    }
    forall h | h in g ensures h in f {
      var j :| 0 <= j < |g| && g[j] == h;
      assert b[j] in b && b[j].key in Keys(a);
      var i :| 0 <= i < |a| && a[i].key == b[j].key;
      assert f[i] == h;
    }
  }
}
