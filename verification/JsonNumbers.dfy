/**
 The text of a finite number, as Number::toString of ECMA-262 prints it (radix 10), and a
 reader that inverts it. A nonzero number is its shortest decimal: digits without outer
 zeros, times ten to the power `point - |digits|`.
 */
module JsonNumbers {
  import opened Sequences
  import opened Text

  datatype Number = Zero | Finite(negative: bool, digits: Text, point: int)

  const EXPONENT: Unit := 101

  predicate ValidDigits(d: Text) {
    d != [] && AllDigits(d) && d[0] != ZERO && d[|d| - 1] != ZERO
  }

  predicate ValidNumber(n: Number) {
    n.Finite? ==> ValidDigits(n.digits)
  }

  predicate NumberUnit(u: Unit) {
    IsDigit(u) || u == PLUS || u == MINUS || u == DOT || u == EXPONENT
  }

  predicate NumberUnits(t: Text) { forall i | 0 <= i < |t| :: NumberUnit(t[i]) }

  function Zeros(n: nat): (t: Text)
    ensures |t| == n && AllDigits(t) && forall i | 0 <= i < n :: t[i] == ZERO
  {
    seq(n, _ => ZERO)
  }

  function Mantissa(digits: Text): (m: Text)
    requires digits != []
  {
    if |digits| == 1 then digits else digits[..1] + [DOT] + digits[1..]
  }

  function ExponentText(e: int): (t: Text) {
    if e > 0 then [PLUS] + NatText(e) else [MINUS] + NatText(-e)
  }

  function UnsignedText(digits: Text, point: int): Text
    requires ValidDigits(digits)
  {
    var k := |digits|;
    if k <= point <= 21 then digits + Zeros(point - k)
    else if 0 < point <= 21 then digits[..point] + [DOT] + digits[point..]
    else if -6 < point <= 0 then [ZERO, DOT] + Zeros(-point) + digits
    else Mantissa(digits) + [EXPONENT] + ExponentText(point - 1)
  }

  function NumberText(n: Number): (t: Text)
    requires ValidNumber(n)
  {
    match n
    case Zero => [ZERO]
    case Finite(negative, digits, point) =>
      (if negative then [MINUS] else []) + UnsignedText(digits, point)
  }

  // ----- reading a number back -----

  function StripTrailing(t: Text): Text {
    if t == [] || t[|t| - 1] != ZERO then t else StripTrailing(t[..|t| - 1])
  }

  function LeadingZeros(t: Text): (n: nat)
    ensures n <= |t|
  {
    if t == [] || t[0] != ZERO then 0 else 1 + LeadingZeros(t[1..])
  }

  function ReadExponent(t: Text): int {
    if t == [] || !AllDigits(t[1..]) then 0
    else if t[0] == PLUS then ReadNat(t[1..]) else 0 - ReadNat(t[1..])
  }

  function ReadUnsigned(negative: bool, t: Text): Number {
    var e, dot := IndexOf(t, EXPONENT), IndexOf(t, DOT);
    if e < |t| then
      Finite(negative, if e < 2 then t[..e] else t[..1] + t[2..e], ReadExponent(t[e + 1..]) + 1)
    else if dot == |t| then
      Finite(negative, StripTrailing(t), |t|)
    else if t[0] == ZERO then
      var zeros := LeadingZeros(t[dot + 1..]);
      Finite(negative, t[dot + 1..][zeros..], 0 - zeros)
    else
      Finite(negative, t[..dot] + t[dot + 1..], dot)
  }

  function ReadNumber(t: Text): Number {
    if t == [ZERO] then Zero
    else if t != [] && t[0] == MINUS then ReadUnsigned(true, t[1..])
    else ReadUnsigned(false, t)
  }

  lemma {:induction false} StripZeros(d: Text, n: nat)
    requires d == [] || d[|d| - 1] != ZERO
    ensures StripTrailing(d + Zeros(n)) == d
  {
    var t := d + Zeros(n);
    if n == 0 {
      assert t == d;
    } else {
      assert t[..|t| - 1] == d + Zeros(n - 1);
      StripZeros(d, n - 1);
    }
  }

  lemma {:induction false} CountZeros(n: nat, d: Text)
    requires d == [] || d[0] != ZERO
    ensures LeadingZeros(Zeros(n) + d) == n
  {
    var t := Zeros(n) + d;
    if n == 0 {
      assert t == d;
    } else {
      assert t[1..] == Zeros(n - 1) + d;
      CountZeros(n - 1, d);
    }
  }

  lemma ReadInteger(negative: bool, d: Text, point: int)
    requires ValidDigits(d) && |d| <= point <= 21
    ensures ReadUnsigned(negative, UnsignedText(d, point)) == Finite(negative, d, point)
  {
    var t := d + Zeros(point - |d|);
    assert AllDigits(t);
    IndexOfAbsent(t, EXPONENT);
    IndexOfAbsent(t, DOT);
    StripZeros(d, point - |d|);
  }

  lemma ReadPlain(negative: bool, d: Text, point: int)
    requires ValidDigits(d) && 0 < point < |d| && point <= 21
    ensures ReadUnsigned(negative, UnsignedText(d, point)) == Finite(negative, d, point)
  {
    var t := d[..point] + [DOT] + d[point..];
    assert UnsignedText(d, point) == t;
    IndexOfAbsent(t, EXPONENT);
    assert DOT !in d[..point];
    IndexOfAppend(d[..point], DOT, d[point..]);
    assert t[0] == d[0];
    assert t[..point] == d[..point] && t[point + 1..] == d[point..];
    assert d[..point] + d[point..] == d;
  }

  lemma ReadZeroPoint(negative: bool, f: Text)
    requires AllDigits(f)
    ensures ReadUnsigned(negative, [ZERO, DOT] + f)
            == Finite(negative, f[LeadingZeros(f)..], 0 - LeadingZeros(f))
  {
    var t := [ZERO, DOT] + f;
    IndexOfAbsent(t, EXPONENT);
    assert t == [ZERO] + [DOT] + f;
    IndexOfAppend([ZERO], DOT, f);
    assert t[2..] == f;
  }

  lemma ReadFraction(negative: bool, d: Text, point: int)
    requires ValidDigits(d) && -6 < point <= 0
    ensures ReadUnsigned(negative, UnsignedText(d, point)) == Finite(negative, d, point)
  {
    var f := Zeros(-point) + d;
    assert UnsignedText(d, point) == [ZERO, DOT] + f;
    ReadZeroPoint(negative, f);
    CountZeros(-point, d);
    assert f[-point..] == d;
  }

  lemma ReadExponentText(e: int)
    requires e != 0
    ensures ReadExponent(ExponentText(e)) == e
  {
    var n: nat := if e > 0 then e else -e;
    ReadNatText(n);
    assert ExponentText(e)[1..] == NatText(n);
  }

  lemma ReadScientific(negative: bool, d: Text, point: int)
    requires ValidDigits(d) && (point <= -6 || point > 21)
    ensures ReadUnsigned(negative, UnsignedText(d, point)) == Finite(negative, d, point)
  {
    var m, x := Mantissa(d), ExponentText(point - 1);
    var t := m + [EXPONENT] + x;
    assert UnsignedText(d, point) == t;
    assert EXPONENT !in m;
    IndexOfAppend(m, EXPONENT, x);
    assert t[|m| + 1..] == x && t[..|m|] == m;
    ReadExponentText(point - 1);
    if |d| > 1 {
      assert t[2..|m|] == m[2..] == d[1..];
      assert t[..1] + t[2..|m|] == d;
    }
  }

  lemma ReadUnsignedText(negative: bool, d: Text, point: int)
    requires ValidDigits(d)
    ensures ReadUnsigned(negative, UnsignedText(d, point)) == Finite(negative, d, point)
  {
    if |d| <= point <= 21 {
      ReadInteger(negative, d, point);
    } else if 0 < point <= 21 {
      ReadPlain(negative, d, point);
    } else if -6 < point <= 0 {
      ReadFraction(negative, d, point);
    } else {
      ReadScientific(negative, d, point);
    }
  }

  lemma UnsignedShape(d: Text, point: int)
    requires ValidDigits(d)
    ensures var t := UnsignedText(d, point);
            t != [] && NumberUnits(t) && IsDigit(t[0]) && t != [ZERO]
  {
    var t := UnsignedText(d, point);
    assert NumberUnits(d) && NumberUnits(Mantissa(d)) && NumberUnits(ExponentText(point - 1));
    assert t[0] == d[0] || (t[0] == ZERO && |t| > 1);
  }

  /** What surrounds a number cannot be taken for part of it, and it starts like a number. */
  lemma NumberTextShape(n: Number)
    requires ValidNumber(n)
    ensures NumberText(n) != [] && NumberUnits(NumberText(n))
    ensures var u := NumberText(n)[0]; IsDigit(u) || u == MINUS
    ensures n.Finite? ==> NumberText(n) != [ZERO]
  {
    if n.Finite? {
      UnsignedShape(n.digits, n.point);
    }
  }

  /** Distinct finite numbers have distinct texts: the reader recovers the number. */
  lemma ReadNumberText(n: Number)
    requires ValidNumber(n)
    ensures ReadNumber(NumberText(n)) == n
  {
    NumberTextShape(n);
    if n.Finite? {
      ReadUnsignedText(n.negative, n.digits, n.point);
      UnsignedShape(n.digits, n.point);
      if n.negative {
        assert NumberText(n)[1..] == UnsignedText(n.digits, n.point);
      } else {
        assert NumberText(n) == UnsignedText(n.digits, n.point);
      }
    }
  }

  // ----- the grammar of section 6 of RFC 8259 -----

  predicate IntegerPart(t: Text) {
    t == [ZERO] || (t != [] && AllDigits(t) && t[0] != ZERO)
  }

  predicate FractionPart(t: Text) {
    t == [] || (|t| >= 2 && t[0] == DOT && AllDigits(t[1..]))
  }

  predicate ExponentPart(t: Text) {
    t == [] || (|t| >= 3 && t[0] == EXPONENT && (t[1] == PLUS || t[1] == MINUS) && AllDigits(t[2..]))
  }

  /** Digits written out, with or without a fraction. */
  lemma PlainGrammar(d: Text, point: int) returns (whole: Text, frac: Text)
    requires ValidDigits(d) && 0 < point <= 21
    ensures UnsignedText(d, point) == whole + frac && IntegerPart(whole) && FractionPart(frac)
  {
    if |d| <= point {
      whole, frac := d + Zeros(point - |d|), [];
      assert whole[0] == d[0] && whole + frac == whole;
    } else {
      whole, frac := d[..point], [DOT] + d[point..];
      assert whole[0] == d[0] && frac[1..] == d[point..];
      Assoc(d[..point], [DOT], d[point..]);
    }
  }

  lemma SmallGrammar(d: Text, point: int)
    requires ValidDigits(d) && -6 < point <= 0
    ensures var frac := [DOT] + (Zeros(-point) + d);
            UnsignedText(d, point) == [ZERO] + frac && FractionPart(frac)
  {
    var frac := [DOT] + (Zeros(-point) + d);
    assert frac[1..] == Zeros(-point) + d;
    assert [ZERO, DOT] == [ZERO] + [DOT];
    Assoc([ZERO, DOT], Zeros(-point), d);
    Assoc([ZERO], [DOT], Zeros(-point) + d);
  }

  lemma ScientificGrammar(d: Text, point: int) returns (frac: Text, exp: Text)
    requires ValidDigits(d) && !(-6 < point <= 21)
    ensures UnsignedText(d, point) == d[..1] + frac + exp
    ensures IntegerPart(d[..1]) && FractionPart(frac) && ExponentPart(exp) && exp != []
  {
    frac, exp := if |d| == 1 then [] else [DOT] + d[1..], [EXPONENT] + ExponentText(point - 1);
    assert Mantissa(d) == d[..1] + frac;
    assert |d| > 1 ==> frac[1..] == d[1..];
    assert exp[1..] == ExponentText(point - 1) && exp[2..] == ExponentText(point - 1)[1..];
    Assoc(Mantissa(d), [EXPONENT], ExponentText(point - 1));
  }

  /** The text of a number is a number of the grammar: no leading zero, no empty fraction, an exponent
      only for numbers too large or too small to be written out. */
  lemma NumberGrammar(n: Number) returns (sign: Text, whole: Text, frac: Text, exp: Text)
    requires ValidNumber(n)
    ensures NumberText(n) == sign + (whole + frac + exp)
    ensures sign == (if n.Finite? && n.negative then [MINUS] else [])
    ensures IntegerPart(whole) && FractionPart(frac) && ExponentPart(exp)
    ensures exp == [] <==> n.Zero? || -6 < n.point <= 21
  {
    if n.Zero? {
      sign, whole, frac, exp := [], [ZERO], [], [];
    } else {
      sign := if n.negative then [MINUS] else [];
      if !(-6 < n.point <= 21) {
        whole := n.digits[..1];
        frac, exp := ScientificGrammar(n.digits, n.point);
      } else if n.point > 0 {
        exp := [];
        whole, frac := PlainGrammar(n.digits, n.point);
      } else {
        whole, frac, exp := [ZERO], [DOT] + (Zeros(-n.point) + n.digits), [];
        SmallGrammar(n.digits, n.point);
      }
      assert exp == [] ==> whole + frac + exp == whole + frac;
    }
  }
}
