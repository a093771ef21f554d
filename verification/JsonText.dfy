/**
 Canonical text read as JSON. What a text denotes is defined here from the grammar of RFC 8259,
 without reference to the rendering; the result is that every rendering denotes its value, with
 the keys of every object in strictly increasing order of UTF-16 code units.
 */
module JsonText {
  import opened Common
  import opened Utf16
  import opened Canonical

  // ---------- strings, section 7 of RFC 8259 ----------

  /** The value of a hexadecimal digit, 16 for anything else. */
  function HexValue(c: CodeUnit): nat {
    if 48 <= c <= 57 then c - 48
    else if 65 <= c <= 70 then c - 55
    else if 97 <= c <= 102 then c - 87
    else 16
  }

  /** The code unit after a reverse solidus and this letter, if the pair is an escape. */
  function TwoUnitEscape(letter: CodeUnit): Option<CodeUnit> {
    if letter == 34 || letter == 47 || letter == 92 then Some(letter)
    else if letter == 98 then Some(8)
    else if letter == 102 then Some(12)
    else if letter == 110 then Some(10)
    else if letter == 114 then Some(13)
    else if letter == 116 then Some(9)
    else None
  }

  function Before(c: CodeUnit, rest: Option<Text>): Option<Text> {
    if rest.Some? then Some([c] + rest.value) else None
  }

  function FourHex(t: Text): Option<CodeUnit>
    requires |t| == 4
  {
    if forall i :: 0 <= i < 4 ==> HexValue(t[i]) < 16
    then Some(4096 * HexValue(t[0]) + 256 * HexValue(t[1]) + 16 * HexValue(t[2]) + HexValue(t[3]))
    else None
  }

  /** What the text between two quotation marks stands for, if it may stand there. */
  function Unescaped(t: Text): Option<Text> {
    if t == [] then Some([])
    else if t[0] == 34 || t[0] < 32 then None
    else if t[0] != 92 then Before(t[0], Unescaped(t[1..]))
    else if |t| >= 2 && TwoUnitEscape(t[1]).Some? then Before(TwoUnitEscape(t[1]).value, Unescaped(t[2..]))
    else if |t| >= 6 && t[1] == 117 && FourHex(t[2..6]).Some? then Before(FourHex(t[2..6]).value, Unescaped(t[6..]))
    else None
  }

  lemma {:induction false} HexDigitValue(d: nat)
    requires d < 16
    ensures HexValue(HexDigit(d)) == d && (48 <= HexDigit(d) <= 57 || 97 <= HexDigit(d) <= 102)
  {
  }

  lemma {:induction false} HexFour(n: nat)
    ensures Hex(n, 4) == [HexDigit(n / 4096 % 16), HexDigit(n / 256 % 16), HexDigit(n / 16 % 16), HexDigit(n % 16)]
  {
    assert Hex(n / 4096, 1) == [HexDigit(n / 4096 % 16)];
    assert n / 16 / 16 == n / 256 && n / 256 / 16 == n / 4096;
    assert Hex(n / 256, 2) == Hex(n / 256 / 16, 1) + [HexDigit(n / 256 % 16)];
    assert Hex(n / 16, 3) == Hex(n / 16 / 16, 2) + [HexDigit(n / 16 % 16)];
  }

  lemma {:induction false} FourDigits(c: CodeUnit)
    ensures 4096 * (c / 4096 % 16) + 256 * (c / 256 % 16) + 16 * (c / 16 % 16) + c % 16 == c
  {
    var x, y, z := c / 16, c / 256, c / 4096;
    assert c == 16 * x + c % 16 && x == 16 * y + x % 16 && y == 16 * z + y % 16;
    assert 0 <= z < 16;
  }

  lemma {:induction false} FourHexReads(c: CodeUnit)
    ensures FourHex(Hex(c, 4)) == Some(c)
  {
    FourDigits(c);
    HexFour(c);
    HexDigitValue(c / 4096 % 16);
    HexDigitValue(c / 256 % 16);
    HexDigitValue(c / 16 % 16);
    HexDigitValue(c % 16);
  }

  /**
   Which escape is chosen: two units for the quotation mark, the reverse solidus and five control
   characters, six with lower-case digits for the other control characters and for a lone half of
   a surrogate pair, none for anything else.
  */
  lemma {:induction false} EscapeUnitMeans(c: CodeUnit)
    ensures var t := EscapeUnit(c);
            if c in {8, 9, 10, 12, 13, 34, 92} then |t| == 2 && t[0] == 92
            else if c < 32 || 0xD800 <= c < 0xE000 then
              |t| == 6 && t[0] == 92 && t[1] == 117
              && forall i :: 2 <= i < 6 ==> 48 <= t[i] <= 57 || 97 <= t[i] <= 102
            else t == [c]
    ensures forall r :: Unescaped(EscapeUnit(c) + r) == Before(c, Unescaped(r))
  {
    var t := EscapeUnit(c);
    if c !in {8, 9, 10, 12, 13, 34, 92} && (c < 32 || 0xD800 <= c < 0xE000) {
      HexFour(c);
      HexDigitValue(c / 4096 % 16);
      HexDigitValue(c / 256 % 16);
      HexDigitValue(c / 16 % 16);
      HexDigitValue(c % 16);
      FourHexReads(c);
      forall r ensures Unescaped(t + r) == Before(c, Unescaped(r)) {
        assert (t + r)[2..6] == Hex(c, 4) && (t + r)[6..] == r;
      }
    } else {
      forall r ensures Unescaped(t + r) == Before(c, Unescaped(r)) {
        assert (t + r)[|t|..] == r;
      }
    }
  }

  lemma {:induction false} StandsForItself(c: CodeUnit, r: Text)
    requires c >= 32 && c != 34 && c != 92
    ensures Unescaped([c] + r) == Before(c, Unescaped(r))
  {
    assert ([c] + r)[1..] == r;
  }

  /** JSON.stringify of a string can be read back. */
  lemma {:induction false} UnescapedEscape(s: Text)
    ensures Unescaped(Escape(s)) == Some(s)
  {
    if s != [] {
      var rest := Escape(s[StepLength(s)..]);
      UnescapedEscape(s[StepLength(s)..]);
      if StartsWithPair(s) {
        StandsForItself(s[1], rest);
        StandsForItself(s[0], [s[1]] + rest);
        assert s[..2] + rest == [s[0]] + ([s[1]] + rest);
        assert s == [s[0]] + ([s[1]] + s[2..]);
      } else {
        EscapeUnitMeans(s[0]);
        assert s == [s[0]] + s[1..];
      }
    }
  }

  ghost predicate DenotesString(t: Text, s: Text) {
    |t| >= 2 && t[0] == 34 && t[|t| - 1] == 34 && Unescaped(t[1..|t| - 1]) == Some(s)
  }

  lemma {:induction false} QuotedDenotes(s: Text)
    ensures DenotesString(Quoted(s), s)
  {
    UnescapedEscape(s);
    assert Quoted(s)[1..|Quoted(s)| - 1] == Escape(s);
  }

  // ---------- numbers, section 6 ----------

  /** The value of a sequence of decimal digits. */
  function DigitsValue(t: Text): int {
    if t == [] then 0 else 10 * DigitsValue(t[..|t| - 1]) + t[|t| - 1] - 48
  }

  /** An integer without fraction or exponent: no digit but 0 to 9, and no leading zero. */
  predicate DenotesNatural(t: Text, n: nat) {
    && t != [] && (forall i :: 0 <= i < |t| ==> 48 <= t[i] <= 57)
    && (|t| > 1 ==> t[0] != 48) && DigitsValue(t) == n
  }

  predicate DenotesInteger(t: Text, n: int) {
    if n < 0 then t != [] && t[0] == 45 && DenotesNatural(t[1..], -n) else DenotesNatural(t, n)
  }

  lemma {:induction false} DigitsDenote(n: nat)
    ensures DenotesNatural(Digits(n), n) && (n > 0 ==> Digits(n)[0] != 48)
  {
    if n >= 10 {
      DigitsDenote(n / 10);
      assert Digits(n)[..|Digits(n)| - 1] == Digits(n / 10);
    } else {
      assert Digits(n) == [48 + n] && [48 + n][..0] == [];
    }
  }

  /** Decimal numbers read back as the number they print. */
  lemma {:induction false} DecimalDenotes(n: int)
    ensures DenotesInteger(Decimal(n), n)
  {
    if n < 0 {
      DigitsDenote(-n);
      assert Decimal(n) == [45] + Digits(-n) && ([45] + Digits(-n))[1..] == Digits(-n);
    } else {
      DigitsDenote(n);
    }
  }

  // ---------- values, sections 3 to 5 ----------

  /** Texts with a comma between each and the next. */
  function Commas(parts: seq<Text>): Text {
    if parts == [] then []
    else if |parts| == 1 then parts[0]
    else parts[0] + [44] + Commas(parts[1..])
  }

  /** `t` is the text of the value `v`, with no space between its tokens. */
  ghost predicate Denotes(t: Text, v: Json)
    decreases v
  {
    match v
    case Null => t == [110, 117, 108, 108]
    case Bool(flag) => t == if flag then [116, 114, 117, 101] else [102, 97, 108, 115, 101]
    case Number(n) => DenotesInteger(t, n)
    case BigInt(n) => DenotesInteger(t, n)
    case String(s) => DenotesString(t, s)
    case Array(items) =>
      exists parts: seq<Text> ::
        && |parts| == |items| && t == [91] + Commas(parts) + [93]
        && forall i :: 0 <= i < |items| ==> Denotes(parts[i], items[i])
    case Object(members) =>
      exists parts: seq<Text> ::
        && |parts| == |members| && t == [123] + Commas(parts) + [125]
        && forall i :: 0 <= i < |members| ==> DenotesMember(parts[i], members[i])
    case _ => false
  }

  ghost predicate DenotesMember(t: Text, m: Member)
    decreases m
  {
    exists key: Text, value: Text ::
      t == key + ([58] + value) && DenotesString(key, m.key) && Denotes(value, m.value)
  }

  /** At the first unit in which two keys differ the first is less, or it ends there and the other does not. */
  ghost predicate Precedes(a: Text, b: Text) {
    exists k: nat :: k <= |a| && k <= |b| && a[..k] == b[..k] &&
      ((k == |a| && k < |b|) || (k < |a| && k < |b| && a[k] < b[k]))
  }

  lemma {:induction false} KeyLessMeans(a: Text, b: Text)
    ensures KeyLess(a, b) <==> Precedes(a, b)
  {
    if KeyLess(a, b) { var _ := KeyLessSplits(a, b); }
    if k: nat :| k <= |a| && k <= |b| && a[..k] == b[..k] &&
                 ((k == |a| && k < |b|) || (k < |a| && k < |b| && a[k] < b[k])) {
      SplitsKeyLess(a, b, k);
    }
  }

  lemma {:induction false} KeyLessSplits(a: Text, b: Text) returns (k: nat)
    requires KeyLess(a, b)
    ensures k <= |a| && k <= |b| && a[..k] == b[..k]
    ensures (k == |a| && k < |b|) || (k < |a| && k < |b| && a[k] < b[k])
  {
    k := 0;
    if a != [] && a[0] == b[0] {
      var j := KeyLessSplits(a[1..], b[1..]);
      k := j + 1;
      assert a[..k] == [a[0]] + a[1..][..j] && b[..k] == [b[0]] + b[1..][..j];
    }
  }

  lemma {:induction false} SplitsKeyLess(a: Text, b: Text, k: nat)
    requires k <= |a| && k <= |b| && a[..k] == b[..k]
    requires (k == |a| && k < |b|) || (k < |a| && k < |b| && a[k] < b[k])
    ensures KeyLess(a, b)
  {
    if k > 0 {
      assert a[0] == a[..k][0] == b[..k][0] == b[0];
      assert a[1..][..k - 1] == a[..k][1..] && b[1..][..k - 1] == b[..k][1..];
      SplitsKeyLess(a[1..], b[1..], k - 1);
    }
  }

  /** The keys of an object strictly increase, unit by unit, and so do those of the objects in it. */
  ghost predicate KeysInOrder(v: Json) {
    match v
    case Array(items) => forall i :: 0 <= i < |items| ==> KeysInOrder(items[i])
    case Object(members) =>
      && (forall i, j :: 0 <= i < j < |members| ==> Precedes(members[i].key, members[j].key))
      && forall i :: 0 <= i < |members| ==> KeysInOrder(members[i].value)
    case _ => true
  }

  // ---------- every rendering is the JSON text of its value ----------

  lemma {:induction false} JoinIsCommas(parts: seq<Text>)
    ensures Join(parts) == Commas(parts)
  {
    if |parts| > 1 { JoinIsCommas(parts[1..]); }
  }

  /** `w` is what the rendering of `v` denotes. */
  ghost predicate Reads(v: Json, w: Json) {
    Denotes(Canonicalize(v), w) && Equivalent(v, w) && KeysInOrder(w)
  }

  /**
   The canonical text is JSON, and read as JSON it is an equivalent value: the same up to the
   order of keys, with null for undefined and for numbers that are not finite. The keys of its
   objects come in strictly increasing order.
  */
  lemma {:induction false} CanonicalDenotes(v: Json) returns (w: Json)
    requires WellFormed(v)
    ensures Denotes(Canonicalize(v), w) && Equivalent(v, w) && KeysInOrder(w)
    decreases v, 0
  {
    match v
    case Number(n) => w := v; DecimalDenotes(n);
    case BigInt(n) => w := v; DecimalDenotes(n);
    case String(s) => w := v; QuotedDenotes(s);
    case Array(items) =>
      var ws := ItemsDenote(items);
      w := Array(ws);
      ArrayDenotes(items, ws);
    case Object(members) =>
      var fields := SortedFields(members);
      SortedFieldsRender(members);
      var ws := MembersDenote(members, fields);
      w := Object(ws);
      ObjectDenotes(members, fields, ws);
    case Bool(flag) => w := v;
    case _ => w := Null;
  }

  lemma {:induction false} ItemsDenote(items: seq<Json>) returns (ws: seq<Json>)
    requires forall i :: 0 <= i < |items| ==> WellFormed(items[i])
    ensures |ws| == |items| && forall i :: 0 <= i < |items| ==> Reads(items[i], ws[i])
    decreases items, 1
  {
    forall i | 0 <= i < |items| ensures exists w :: Reads(items[i], w) {
      var w := CanonicalDenotes(items[i]);
      assert Reads(items[i], w);
    }
    ws := seq(|items|, i requires 0 <= i < |items| => Reading(items[i]));
  }

  ghost function Reading(v: Json): (w: Json)
    requires exists w :: Reads(v, w)
    ensures Reads(v, w)
  {
    var w :| Reads(v, w);
    w
  }

  lemma {:induction false} ArrayDenotes(items: seq<Json>, ws: seq<Json>)
    requires |ws| == |items| && forall i :: 0 <= i < |items| ==> Reads(items[i], ws[i])
    ensures Reads(Array(items), Array(ws))
  {
    var parts := CanonicalItems(items);
    JoinIsCommas(parts);
    assert Canonicalize(Array(items)) == [91] + Commas(parts) + [93];
  }

  /** The member that a rendered field comes from, with the value that its text denotes. */
  ghost predicate FieldReads(members: seq<Member>, f: Field, w: Member) {
    && w.key == f.key && Denotes(f.text, w.value) && KeysInOrder(w.value)
    && exists j :: 0 <= j < |members| && members[j].key == w.key && Equivalent(members[j].value, w.value)
  }

  ghost function Witness(members: seq<Member>, f: Field): (w: Member)
    requires exists w :: FieldReads(members, f, w)
    ensures FieldReads(members, f, w)
  {
    var w :| FieldReads(members, f, w);
    w
  }

  lemma {:induction false} MembersDenote(members: seq<Member>, fields: seq<Field>) returns (ws: seq<Member>)
    requires forall j :: 0 <= j < |members| ==> WellFormed(members[j].value)
    requires forall i :: 0 <= i < |fields| ==> fields[i] in CanonicalFields(members)
    ensures |ws| == |fields| && forall i :: 0 <= i < |fields| ==> FieldReads(members, fields[i], ws[i])
    decreases members, 2
  {
    forall i | 0 <= i < |fields| ensures exists w :: FieldReads(members, fields[i], w) {
      var w := MemberDenotes(members, fields[i]);
    }
    ws := seq(|fields|, i requires 0 <= i < |fields| => Witness(members, fields[i]));
  }

  lemma {:induction false} MemberDenotes(members: seq<Member>, f: Field) returns (w: Member)
    requires forall j :: 0 <= j < |members| ==> WellFormed(members[j].value)
    requires f in CanonicalFields(members)
    ensures FieldReads(members, f, w)
    decreases members, 1
  {
    var j :| 0 <= j < |members| && CanonicalFields(members)[j] == f;
    var read := CanonicalDenotes(members[j].value);
    MemberReads(members, f, j, read);
    w := Member(members[j].key, read);
  }

  lemma {:induction false} MemberReads(members: seq<Member>, f: Field, j: nat, w: Json)
    requires j < |members| && CanonicalFields(members)[j] == f && Reads(members[j].value, w)
    ensures FieldReads(members, f, Member(members[j].key, w))
  {
  }

  lemma {:induction false} ObjectDenotes(members: seq<Member>, fields: seq<Field>, ws: seq<Member>)
    requires DistinctKeys(members) && fields == SortedFields(members)
    requires |ws| == |fields| && forall i :: 0 <= i < |fields| ==> FieldReads(members, fields[i], ws[i])
    ensures Reads(Object(members), Object(ws))
  {
    ObjectText(members, fields, ws);
    ObjectEquivalent(members, fields, ws);
    SortedFieldsRender(members);
    forall i, j | 0 <= i < j < |ws| ensures Precedes(ws[i].key, ws[j].key) {
      assert FieldReads(members, fields[i], ws[i]) && FieldReads(members, fields[j], ws[j]);
      KeyLessMeans(fields[i].key, fields[j].key);
    }
    forall i | 0 <= i < |ws| ensures KeysInOrder(ws[i].value) { assert FieldReads(members, fields[i], ws[i]); }
  }

  lemma {:induction false} ObjectText(members: seq<Member>, fields: seq<Field>, ws: seq<Member>)
    requires fields == SortedFields(members)
    requires |ws| == |fields| && forall i :: 0 <= i < |fields| ==> FieldReads(members, fields[i], ws[i])
    ensures Denotes(Canonicalize(Object(members)), Object(ws))
  {
    var parts := FieldTexts(fields);
    JoinIsCommas(parts);
    assert Canonicalize(Object(members)) == [123] + Commas(parts) + [125];
    forall i | 0 <= i < |ws| ensures DenotesMember(parts[i], ws[i]) {
      assert FieldReads(members, fields[i], ws[i]);
      FieldDenotes(fields[i], ws[i]);
    }
  }

  lemma {:induction false} FieldDenotes(f: Field, w: Member)
    requires w.key == f.key && Denotes(f.text, w.value)
    ensures DenotesMember(FieldText(f), w)
  {
    QuotedDenotes(f.key);
    assert FieldText(f) == Quoted(f.key) + ([58] + f.text);
  }

  lemma {:induction false} ObjectEquivalent(members: seq<Member>, fields: seq<Field>, ws: seq<Member>)
    requires DistinctKeys(members) && fields == SortedFields(members)
    requires |ws| == |fields| && forall i :: 0 <= i < |fields| ==> FieldReads(members, fields[i], ws[i])
    ensures Equivalent(Object(members), Object(ws))
  {
    SortedFieldsRender(members);
    forall i, j | 0 <= i < |members| && 0 <= j < |ws| && members[i].key == ws[j].key
      ensures Equivalent(members[i].value, ws[j].value)
    {
      assert FieldReads(members, fields[j], ws[j]);
      var m :| 0 <= m < |members| && members[m].key == ws[j].key && Equivalent(members[m].value, ws[j].value);
      assert m == i;
    }
    SameKeys(members, fields, ws);
  }

  lemma {:induction false} SameKeys(members: seq<Member>, fields: seq<Field>, ws: seq<Member>)
    requires |ws| == |fields| && forall i :: 0 <= i < |fields| ==> FieldReads(members, fields[i], ws[i])
    requires forall f :: f in fields <==> f in CanonicalFields(members)
    ensures Keys(members) == Keys(ws)
  {
    forall k | k in Keys(members) ensures k in Keys(ws) {
      var i :| 0 <= i < |members| && members[i].key == k;
      assert CanonicalFields(members)[i] in fields;
      var j :| 0 <= j < |fields| && fields[j] == CanonicalFields(members)[i];
      assert FieldReads(members, fields[j], ws[j]);
      assert ws[j] in ws;
    }
    forall k | k in Keys(ws) ensures k in Keys(members) {
      var j :| 0 <= j < |ws| && ws[j].key == k;
      assert FieldReads(members, fields[j], ws[j]);
      var m :| 0 <= m < |members| && members[m].key == ws[j].key;
      assert members[m] in members;
    }
  }

  /**
   In the rendering of an object an earlier key is less than a later one: at the first unit in
   which they differ, or because it ends there.
  */
  lemma {:induction false} KeysPrecede(members: seq<Member>, i: nat, j: nat) returns (k: nat)
    requires DistinctKeys(members) && i < j < |SortedFields(members)|
    ensures var (a, b) := (SortedFields(members)[i].key, SortedFields(members)[j].key);
            && k <= |a| && k <= |b| && a[..k] == b[..k]
            && ((k == |a| && k < |b|) || (k < |a| && k < |b| && a[k] < b[k]))
  {
    SortedFieldsRender(members);
    k := KeyLessSplits(SortedFields(members)[i].key, SortedFields(members)[j].key);
  }

  /** Its fields are those of the members, each with its key and its rendered value. */
  lemma {:induction false} FieldOrigin(members: seq<Member>, f: Field) returns (i: nat)
    requires DistinctKeys(members) && f in SortedFields(members)
    ensures i < |members| && f.key == members[i].key && f.text == Canonicalize(members[i].value)
  {
    SortedFieldsRender(members);
    i :| 0 <= i < |members| && CanonicalFields(members)[i] == f;
  }

  lemma {:induction false} EveryMemberStands(members: seq<Member>, i: nat)
    requires DistinctKeys(members) && i < |members|
    ensures Field(members[i].key, Canonicalize(members[i].value)) in SortedFields(members)
    ensures |SortedFields(members)| == |members|
  {
    SortedFieldsRender(members);
    assert CanonicalFields(members)[i] in CanonicalFields(members);
  }

  /** They are written between braces, with commas, each as its quoted key, a colon and its text. */
  lemma {:induction false} ObjectParts(members: seq<Member>)
    ensures exists parts: seq<Text> ::
              && Canonicalize(Object(members)) == [123] + Commas(parts) + [125]
              && |parts| == |SortedFields(members)|
              && forall i :: 0 <= i < |parts| ==>
                   parts[i] == Quoted(SortedFields(members)[i].key) + ([58] + SortedFields(members)[i].text)
  {
    var fields := SortedFields(members);
    var parts := FieldTexts(fields);
    JoinIsCommas(parts);
    forall i | 0 <= i < |fields| ensures parts[i] == Quoted(fields[i].key) + ([58] + fields[i].text) {
      assert parts[i] == FieldText(fields[i]);
    }
    assert Canonicalize(Object(members)) == [123] + Commas(parts) + [125];
  }
}
