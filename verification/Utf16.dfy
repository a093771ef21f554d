/**
 JavaScript strings as sequences of UTF-16 code units, and the decimal form that string
 interpolation and JSON.stringify give to integers.
 */
module Utf16 {

  type CodeUnit = c: int | 0 <= c < 0x10000

  type Text = seq<CodeUnit>

  const MINUS: CodeUnit := 45
  const ZERO: CodeUnit := 48
  const COLON: CodeUnit := 58
  const UNDERSCORE: CodeUnit := 95

  /** The code units of an ASCII literal. */
  function Ascii(s: string): Text {
    seq(|s|, i requires 0 <= i < |s| => if s[i] as int < 128 then s[i] as int else 63)
  }

  predicate IsDigit(c: CodeUnit) {
    ZERO <= c < ZERO + 10
  }

  function Digits(n: nat): (t: Text)
    ensures |t| > 0 && forall i :: 0 <= i < |t| ==> IsDigit(t[i])
  {
    if n < 10 then [ZERO + n] else Digits(n / 10) + [ZERO + n % 10]
  }

  function Decimal(n: int): Text {
    if n < 0 then [MINUS] + Digits(-n) else Digits(n)
  }

  /** Nothing at the front of `r` can be read as one more digit of a number printed before it. */
  predicate EndsNumber(r: Text) {
    r == [] || !IsDigit(r[0])
  }

  lemma {:induction false} DigitsInjective(m: nat, n: nat)
    requires Digits(m) == Digits(n)
    ensures m == n
  {
    var s, t := Digits(m), Digits(n);
    if m >= 10 && n >= 10 {
      assert Digits(m / 10) == s[..|s| - 1] == t[..|t| - 1] == Digits(n / 10);
      DigitsInjective(m / 10, n / 10);
      assert s[|s| - 1] == t[|t| - 1];
    } else {
      assert s[|s| - 1] == t[|t| - 1];
    }
  }

  /** A printed number can be cut off a longer text in one way only. */
  lemma {:induction false} DecimalSplit(m: int, n: int, r: Text, q: Text)
    requires Decimal(m) + r == Decimal(n) + q
    requires EndsNumber(r) && EndsNumber(q)
    ensures m == n && r == q
  {
    var a, b := Decimal(m), Decimal(n);
    assert (a + r)[0] == (b + q)[0];
    if m < 0 && n < 0 {
      DigitsSplit(-m, -n, r, q) by {
        assert Digits(-m) + r == (a + r)[1..];
        assert Digits(-n) + q == (b + q)[1..];
      }
    } else {
      assert m >= 0 && n >= 0;
      DigitsSplit(m, n, r, q);
    }
  }

  lemma DigitsSplit(m: nat, n: nat, r: Text, q: Text)
    requires Digits(m) + r == Digits(n) + q
    requires EndsNumber(r) && EndsNumber(q)
    ensures m == n && r == q
  {
    var a, b := Digits(m), Digits(n);
    var whole := a + r;
    assert forall i :: 0 <= i < |whole| ==> whole[i] == if i < |a| then a[i] else r[i - |a|];
    assert forall i :: 0 <= i < |whole| ==> whole[i] == if i < |b| then b[i] else q[i - |b|];
    assert a == whole[..|a|] && b == whole[..|b|];
    assert r == whole[|a|..] && q == whole[|b|..];
    DigitsInjective(m, n);
  }

  /** Digits and a leading minus sign are all that a printed integer contains. */
  lemma DecimalUnits(n: int)
    ensures |Decimal(n)| > 0
    ensures forall i :: 0 <= i < |Decimal(n)| ==> IsDigit(Decimal(n)[i]) || Decimal(n)[i] == MINUS
  {
  }

  lemma Associative(a: Text, b: Text, c: Text)
    ensures (a + b) + c == a + (b + c)
  {
  }

  /** `mark` does not occur in the text. */
  predicate Free(t: Text, mark: CodeUnit) {
    forall i :: 0 <= i < |t| ==> t[i] != mark
  }

  /** Two texts that avoid a mark and are followed by it can be told apart from what follows. */
  lemma SplitAtMark(a: Text, b: Text, mark: CodeUnit, r: Text, q: Text)
    requires Free(a, mark) && Free(b, mark)
    requires a + [mark] + r == b + [mark] + q
    ensures a == b && r == q
  {
    var whole := a + [mark] + r;
    assert whole[|a|] == mark && whole[|b|] == mark;
    assert whole == a + ([mark] + r) == b + ([mark] + q);
    assert forall i :: 0 <= i < |whole| && i < |a| ==> whole[i] == a[i];
    assert forall i :: 0 <= i < |whole| && i < |b| ==> whole[i] == b[i];
    assert |a| == |b|;
    assert a == whole[..|a|] && b == whole[..|b|];
    assert r == whole[|a| + 1..] && q == whole[|b| + 1..];
  }
}
