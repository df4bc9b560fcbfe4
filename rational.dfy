/** Exact rational numbers over unbounded integers.

    A rational is a numerator and a denominator stored as given: nothing
    reduces the fraction, and only multiplication (and so negation)
    normalises the sign of the denominator. `Value` is the number a
    rational with a nonzero denominator stands for. */
module Rationals {
  import opened Options

  newtype i32 = x: int | -0x8000_0000 <= x < 0x8000_0000
  newtype u32 = x: int | 0 <= x < 0x1_0000_0000

  datatype Ordering = Less | Equal | Greater

  datatype Rational = Rational(numerator: int, denominator: int) {

    function Value(): real
      requires denominator != 0
    {
      numerator as real / denominator as real
    }
  }

  // -----------------------------------------------------------------------
  // Construction

  /** `From<(BigInt, BigInt)>`: both parts stored exactly as given. */
  function FromBigPair(value: (int, int)): (r: Rational)
    ensures r.numerator == value.0 && r.denominator == value.1
  {
    Rational(value.0, value.1)
  }

  /** `From<BigInt>`: the integer over 1. */
  function FromBigInt(value: int): (r: Rational)
    ensures r.denominator == 1 && r.Value() == value as real
  {
    FromBigPair((value, 1))
  }

  /** `From<(i32, i32)>`: the pair widened to big integers, unnormalised. */
  function FromPair(value: (i32, i32)): (r: Rational)
    ensures r.numerator == value.0 as int && r.denominator == value.1 as int
  {
    FromBigPair((value.0 as int, value.1 as int))
  }

  /** `From<i32>`: the integer over 1. */
  function FromInt(value: i32): (r: Rational)
    ensures r.denominator == 1 && r.Value() == value as real
  {
    FromPair((value, 1))
  }

  /** `Rational::zero`. */
  function Zero(): (r: Rational)
    ensures r.denominator == 1 && r.Value() == 0.0
  {
    FromInt(0)
  }

  // -----------------------------------------------------------------------
  // Arithmetic

  /** `&a + &b`: with equal denominators the numerators are added over
      that denominator; otherwise the fractions are cross-multiplied. */
  function Add(a: Rational, b: Rational): Rational
  {
    if a.denominator == b.denominator then
      Rational(a.numerator + b.numerator, a.denominator)
    else
      Rational(a.numerator * b.denominator + b.numerator * a.denominator, a.denominator * b.denominator)
  }

  /** `&a * &b`: the products of the parts, both negated when the product
      of the denominators is negative. */
  function Mul(a: Rational, b: Rational): (r: Rational)
    ensures r.denominator >= 0
    ensures var n, d := a.numerator * b.numerator, a.denominator * b.denominator;
      (r.numerator, r.denominator) == (n, d) || (r.numerator, r.denominator) == (-n, -d)
  {
    var numerator := a.numerator * b.numerator;
    var denominator := a.denominator * b.denominator;
    if denominator >= 0 then
      Rational(numerator, denominator)
    else
      Rational(-numerator, -denominator)
  }

  /** `-a`: multiplication by -1/1. */
  function Neg(a: Rational): Rational
  {
    Mul(FromInt(-1), a)
  }

  /** `&a - &b`: addition of the negation. */
  function Sub(a: Rational, b: Rational): Rational
  {
    Add(a, Neg(b))
  }

  /** Equal denominators are kept and the numerators added; either way the
      sum of two proper rationals has a nonzero denominator and stands for
      the sum of their values. */
  lemma AddIsSum(a: Rational, b: Rational)
    requires a.denominator != 0 && b.denominator != 0
    ensures a.denominator == b.denominator ==>
      Add(a, b).denominator == a.denominator && Add(a, b).numerator == a.numerator + b.numerator
    ensures Add(a, b).denominator != 0
    ensures Add(a, b).Value() == a.Value() + b.Value()
  {
    var x, y := a.numerator as real, b.numerator as real;
    var p, q := a.denominator as real, b.denominator as real;
    if a.denominator == b.denominator {
      assert (a.numerator + b.numerator) as real == x + y;
      SumOverCommon(x, y, p);
    } else {
      assert (a.numerator * b.denominator + b.numerator * a.denominator) as real == x * q + y * p;
      assert (a.denominator * b.denominator) as real == p * q;
      SumCrossMultiplied(x, y, p, q);
    }
  }

  lemma SumOverCommon(x: real, y: real, p: real)
    requires p != 0.0
    ensures (x + y) / p == x / p + y / p
  {
  }

  lemma SumCrossMultiplied(x: real, y: real, p: real, q: real)
    requires p != 0.0 && q != 0.0
    ensures p * q != 0.0
    ensures (x * q + y * p) / (p * q) == x / p + y / q
  {
    assert (x * q) / (p * q) == x / p;
    assert (y * p) / (p * q) == y / q;
  }

  /** A fraction and its negated parts stand for the same number. */
  lemma NegatedParts(n: int, d: int)
    requires d != 0
    ensures Rational(-n, -d).Value() == Rational(n, d).Value()
  {
    assert (-n) as real / (-d) as real == (-(n as real)) / (-(d as real));
  }

  /** The product of two proper rationals has a positive denominator and
      stands for the product of their values. */
  lemma MulIsProduct(a: Rational, b: Rational)
    requires a.denominator != 0 && b.denominator != 0
    ensures Mul(a, b).denominator > 0
    ensures Mul(a, b).Value() == a.Value() * b.Value()
  {
    var n, d := a.numerator * b.numerator, a.denominator * b.denominator;
    assert d != 0;
    var x, y := a.numerator as real, b.numerator as real;
    var p, q := a.denominator as real, b.denominator as real;
    assert Rational(n, d).Value() == (x * y) / (p * q);
    assert (x * y) / (p * q) == (x / p) * (y / q);
    if d < 0 {
      NegatedParts(n, d);
    }
  }

  /** Negation keeps the numerator's magnitude, leaves a nonnegative
      denominator, and stands for the opposite value. */
  lemma NegIsOpposite(a: Rational)
    requires a.denominator != 0
    ensures Neg(a).denominator == if a.denominator >= 0 then a.denominator else -a.denominator
    ensures Neg(a).numerator == if a.denominator >= 0 then -a.numerator else a.numerator
    ensures Neg(a).Value() == -a.Value()
  {
    MulIsProduct(FromInt(-1), a);
  }

  /** Subtraction stands for the difference of the values. */
  lemma SubIsDifference(a: Rational, b: Rational)
    requires a.denominator != 0 && b.denominator != 0
    ensures Sub(a, b).denominator != 0
    ensures Sub(a, b).Value() == a.Value() - b.Value()
  {
    NegIsOpposite(b);
    AddIsSum(a, Neg(b));
  }

  // -----------------------------------------------------------------------
  // Powers

  /** The n-fold product: 1/1 for 0, the rational itself for 1, and one
      more factor for each further step. */
  function PowerSpec(a: Rational, n: nat): Rational
  {
    if n == 0 then FromInt(1)
    else if n == 1 then a
    else Mul(PowerSpec(a, n - 1), a)
  }

  /** The real power, by repeated multiplication. */
  function RealPow(x: real, n: nat): real
  {
    if n == 0 then 1.0 else RealPow(x, n - 1) * x
  }

  /** `power`: starts from the rational itself and multiplies it in once
      for each exponent from 2 up to `exp`. */
  method Power(a: Rational, exp: u32) returns (result: Rational)
    ensures result == PowerSpec(a, exp as nat)
  {
    if exp == 0 {
      return FromInt(1);
    }
    result := a;
    var v := 2;
    while v <= exp as int
      invariant 2 <= v <= exp as int + 1
      invariant result == PowerSpec(a, v - 1)
    {
      result := Mul(result, a);
      v := v + 1;
    }
  }

  /** A power of a proper rational is proper and stands for the power of
      its value; from the second power on its denominator is positive. */
  lemma {:induction false} PowerIsRealPower(a: Rational, n: nat)
    requires a.denominator != 0
    ensures PowerSpec(a, n).denominator != 0
    ensures n >= 2 ==> PowerSpec(a, n).denominator > 0
    ensures PowerSpec(a, n).Value() == RealPow(a.Value(), n)
  {
    if n == 1 {
      assert RealPow(a.Value(), 1) == RealPow(a.Value(), 0) * a.Value();
    } else if n >= 2 {
      PowerIsRealPower(a, n - 1);
      MulIsProduct(PowerSpec(a, n - 1), a);
    }
  }

  // -----------------------------------------------------------------------
  // Comparison

  function CompareInts(x: int, y: int): (r: Ordering)
    ensures r == Less <==> x < y
    ensures r == Equal <==> x == y
    ensures r == Greater <==> x > y
  {
    if x < y then Less else if x == y then Equal else Greater
  }

  /** `cmp`, as written: compares a's numerator times b's denominator with
      a's denominator times b's numerator. */
  function Cmp(a: Rational, b: Rational): Ordering
  {
    CompareInts(a.numerator * b.denominator, a.denominator * b.numerator)
  }

  /** `eq`: the comparison finds the two equal. */
  function Eq(a: Rational, b: Rational): bool
  {
    Cmp(a, b) == Equal
  }

  /** Two proper rationals are equal exactly when they stand for the same
      number, whatever the signs of their denominators. */
  lemma EqIsSameValue(a: Rational, b: Rational)
    requires a.denominator != 0 && b.denominator != 0
    ensures Eq(a, b) <==> a.Value() == b.Value()
  {
    var x, y := a.numerator as real, b.numerator as real;
    var p, q := a.denominator as real, b.denominator as real;
    assert (x / p == y / q) <==> (x * q == p * y) by {
      assert x / p * (p * q) == x * q;
      assert y / q * (p * q) == p * y;
    }
  }

  /** Equality does not reduce fractions first: 1/2 equals 2/4. */
  lemma HalfEqualsTwoQuarters()
    ensures Eq(Rational(1, 2), Rational(2, 4))
    ensures Rational(1, 2) != Rational(2, 4)
  {
  }

  /** With both denominators positive, the comparison is the order of the
      values. */
  lemma CmpIsValueOrder(a: Rational, b: Rational)
    requires a.denominator > 0 && b.denominator > 0
    ensures Cmp(a, b) == Less <==> a.Value() < b.Value()
    ensures Cmp(a, b) == Equal <==> a.Value() == b.Value()
    ensures Cmp(a, b) == Greater <==> a.Value() > b.Value()
  {
    CrossMultiply(a, b);
  }

  /** For positive denominators, a's value lies below b's exactly when
      cross-multiplying puts a's side below, and likewise for equality. */
  lemma CrossMultiply(a: Rational, b: Rational)
    requires a.denominator > 0 && b.denominator > 0
    ensures a.Value() < b.Value() <==> a.numerator * b.denominator < a.denominator * b.numerator
    ensures a.Value() == b.Value() <==> a.numerator * b.denominator == a.denominator * b.numerator
  {
    var x, y := a.numerator as real, b.numerator as real;
    var p, q := a.denominator as real, b.denominator as real;
    assert x / p * (p * q) == x * q;
    assert y / q * (p * q) == p * y;
    assert p * q > 0.0;
  }

  /** `abs`, as written: the rational itself when it compares at or above
      zero, its negation otherwise. */
  function Abs(a: Rational): Rational
  {
    if Cmp(a, Zero()) != Less then a else Neg(a)
  }

  /** With a positive denominator, `abs` stands for the absolute value. */
  lemma AbsIsMagnitude(a: Rational)
    requires a.denominator > 0
    ensures Abs(a).denominator > 0
    ensures Abs(a).Value() >= 0.0
    ensures Abs(a).Value() == if a.Value() < 0.0 then -a.Value() else a.Value()
  {
    CmpIsValueOrder(a, Zero());
    NegIsOpposite(a);
  }

  /** The pair constructor keeps a negative denominator, and then the
      comparison and `abs` go wrong: 1/-2 stands for -1/2 but compares
      above zero, so `abs` returns it unchanged. */
  lemma AbsOfNegativeDenominator()
    ensures FromBigPair((1, -2)).Value() == -0.5
    ensures Cmp(FromBigPair((1, -2)), Zero()) == Greater
    ensures Abs(FromBigPair((1, -2))) == FromBigPair((1, -2))
    ensures Abs(FromBigPair((1, -2))).Value() < 0.0
  {
  }

  /** The comparison corrected for the sign of the denominators: the
      cross products are compared the other way round when exactly one
      denominator is negative. */
  function CmpSigned(a: Rational, b: Rational): Ordering
  {
    var lhs := a.numerator * b.denominator;
    var rhs := a.denominator * b.numerator;
    if a.denominator * b.denominator >= 0 then CompareInts(lhs, rhs) else CompareInts(rhs, lhs)
  }

  /** The corrected comparison is the order of the values for every pair
      of proper rationals. */
  lemma CmpSignedIsValueOrder(a: Rational, b: Rational)
    requires a.denominator != 0 && b.denominator != 0
    ensures CmpSigned(a, b) == Less <==> a.Value() < b.Value()
    ensures CmpSigned(a, b) == Equal <==> a.Value() == b.Value()
    ensures CmpSigned(a, b) == Greater <==> a.Value() > b.Value()
  {
    var a', b' := Positive(a), Positive(b);
    CrossMultiply(a', b');
    assert a'.numerator * b'.denominator < a'.denominator * b'.numerator <==> CmpSigned(a, b) == Less by {
      if a.denominator < 0 && b.denominator < 0 {
        assert a'.numerator * b'.denominator == a.numerator * b.denominator;
        assert a'.denominator * b'.numerator == a.denominator * b.numerator;
      } else if a.denominator < 0 {
        assert a'.numerator * b'.denominator == -(a.numerator * b.denominator);
        assert a'.denominator * b'.numerator == -(a.denominator * b.numerator);
      } else if b.denominator < 0 {
        assert a'.numerator * b'.denominator == -(a.numerator * b.denominator);
        assert a'.denominator * b'.numerator == -(a.denominator * b.numerator);
      }
    }
    assert a'.numerator * b'.denominator == a'.denominator * b'.numerator <==> CmpSigned(a, b) == Equal by {
      if a.denominator < 0 {
        assert a'.numerator * b'.denominator == -(a.numerator * b.denominator) * (if b.denominator < 0 then -1 else 1);
        assert a'.denominator * b'.numerator == -(a.denominator * b.numerator) * (if b.denominator < 0 then -1 else 1);
      } else if b.denominator < 0 {
        assert a'.numerator * b'.denominator == -(a.numerator * b.denominator);
        assert a'.denominator * b'.numerator == -(a.denominator * b.numerator);
      }
    }
  }

  /** The same fraction with its denominator made positive. */
  function Positive(a: Rational): (r: Rational)
    requires a.denominator != 0
    ensures r.denominator > 0
    ensures r.Value() == a.Value()
  {
    if a.denominator > 0 then a else (NegatedParts(a.numerator, a.denominator); Rational(-a.numerator, -a.denominator))
  }

  /** `abs` built on the corrected comparison. */
  function AbsSigned(a: Rational): Rational
  {
    if CmpSigned(a, Zero()) != Less then a else Neg(a)
  }

  /** The corrected `abs` stands for the absolute value for every proper
      rational, whatever the sign of its denominator. */
  lemma AbsSignedIsMagnitude(a: Rational)
    requires a.denominator != 0
    ensures AbsSigned(a).denominator != 0
    ensures AbsSigned(a).Value() >= 0.0
    ensures AbsSigned(a).Value() == if a.Value() < 0.0 then -a.Value() else a.Value()
  {
    CmpSignedIsValueOrder(a, Zero());
    NegIsOpposite(a);
  }

  // -----------------------------------------------------------------------
  // In-place updates

  /** A place holding a rational, for the `*Assign` operators, which
      overwrite the left operand with the result. */
  class RationalCell {
    var current: Rational

    constructor (initial: Rational)
      ensures current == initial
    {
      current := initial;
    }

    /** `+=`: the place now holds the sum. */
    method AddAssign(rhs: Rational)
      modifies this
      ensures current == Add(old(current), rhs)
      ensures old(current).denominator != 0 && rhs.denominator != 0 ==>
        current.denominator != 0 && current.Value() == old(current).Value() + rhs.Value()
    {
      if current.denominator != 0 && rhs.denominator != 0 {
        AddIsSum(current, rhs);
      }
      current := Add(current, rhs);
    }

    /** `-=`: the place now holds the difference. */
    method SubAssign(rhs: Rational)
      modifies this
      ensures current == Sub(old(current), rhs)
      ensures old(current).denominator != 0 && rhs.denominator != 0 ==>
        current.denominator != 0 && current.Value() == old(current).Value() - rhs.Value()
    {
      if current.denominator != 0 && rhs.denominator != 0 {
        SubIsDifference(current, rhs);
      }
      current := Sub(current, rhs);
    }

    /** `*=`: the place now holds the product. */
    method MulAssign(rhs: Rational)
      modifies this
      ensures current == Mul(old(current), rhs)
      ensures old(current).denominator != 0 && rhs.denominator != 0 ==>
        current.denominator > 0 && current.Value() == old(current).Value() * rhs.Value()
    {
      if current.denominator != 0 && rhs.denominator != 0 {
        MulIsProduct(current, rhs);
      }
      current := Mul(current, rhs);
    }
  }

  // -----------------------------------------------------------------------
  // Display

  predicate IsDigit(c: char)
  {
    '0' <= c <= '9'
  }

  predicate IsDigits(s: string)
  {
    |s| > 0 && forall i | 0 <= i < |s| :: IsDigit(s[i])
  }

  /** The decimal digits of n, most significant first. */
  function NatToString(n: nat): (s: string)
    ensures IsDigits(s)
  {
    var last := [(('0' as int) + n % 10) as char];
    if n < 10 then last else NatToString(n / 10) + last
  }

  /** BigInt's decimal rendering: a minus sign before negative numbers. */
  function IntToString(n: int): (s: string)
    ensures |s| > 0 && ' ' !in s && s[0] != '('
  {
    if n < 0 then "-" + NatToString(-n) else NatToString(n)
  }

  /** `Display`: the numerator alone over a denominator of 1, otherwise
      "(n / d)". */
  function Display(a: Rational): string
  {
    if a.denominator == 1 then IntToString(a.numerator)
    else "(" + IntToString(a.numerator) + " / " + IntToString(a.denominator) + ")"
  }

  /** The number a string of decimal digits stands for. */
  function ParseNat(s: string): nat
    requires IsDigits(s)
  {
    var last := s[|s| - 1] as int - '0' as int;
    if |s| == 1 then last else 10 * ParseNat(s[..|s| - 1]) + last
  }

  function ParseInt(s: string): Option<int>
  {
    if |s| > 0 && s[0] == '-' && IsDigits(s[1..]) then Some(-(ParseNat(s[1..]) as int))
    else if IsDigits(s) then Some(ParseNat(s))
    else None
  }

  /** The position of the first space in s, or |s| when there is none. */
  function FirstSpace(s: string): (i: nat)
    ensures i <= |s|
  {
    if s == [] || s[0] == ' ' then 0 else 1 + FirstSpace(s[1..])
  }

  /** Reads back what `Display` writes. */
  function Parse(s: string): Option<Rational>
  {
    if |s| >= 2 && s[0] == '(' && s[|s| - 1] == ')' then
      var inner := s[1..|s| - 1];
      var i := FirstSpace(inner);
      if i + 3 <= |inner| && inner[i..i + 3] == " / " then
        match (ParseInt(inner[..i]), ParseInt(inner[i + 3..]))
        case (Some(n), Some(d)) => Some(Rational(n, d))
        case _ => None
      else None
    else
      match ParseInt(s)
      case Some(n) => Some(Rational(n, 1))
      case None => None
  }

  lemma {:induction false} ParseNatToString(n: nat)
    ensures ParseNat(NatToString(n)) == n
  {
    if n >= 10 {
      var s := NatToString(n);
      assert s[..|s| - 1] == NatToString(n / 10);
      ParseNatToString(n / 10);
    }
  }

  lemma ParseIntToString(n: int)
    ensures ParseInt(IntToString(n)) == Some(n)
  {
    var s := IntToString(n);
    if n < 0 {
      assert s[1..] == NatToString(-n);
      ParseNatToString(-n);
    } else {
      assert IsDigit(s[0]);
      ParseNatToString(n);
    }
  }

  lemma {:induction false} FirstSpaceAfter(a: string, b: string)
    requires ' ' !in a
    ensures FirstSpace(a + " " + b) == |a|
  {
    if a != [] {
      assert (a + " " + b)[1..] == a[1..] + " " + b;
      FirstSpaceAfter(a[1..], b);
    }
  }

  /** Display's text for a denominator other than 1 parses back to the
      same two parts. */
  lemma ParseFraction(n: int, d: int)
    ensures Parse("(" + IntToString(n) + " / " + IntToString(d) + ")") == Some(Rational(n, d))
  {
    var num, den := IntToString(n), IntToString(d);
    ParseIntToString(n);
    ParseIntToString(d);
    hide IntToString, ParseInt, FirstSpace;
    FirstSpaceAfter(num, "/ " + den);
    var s := "(" + num + " / " + den + ")";
    var inner := s[1..|s| - 1];
    assert inner == num + " " + ("/ " + den);
    assert inner[..|num|] == num;
    assert inner[|num|..|num| + 3] == " / ";
    assert inner[|num| + 3..] == den;
  }

  /** `Display` loses nothing: the rational, denominator included, can be
      read back from its text. */
  lemma DisplayRoundTrip(a: Rational)
    ensures Parse(Display(a)) == Some(a)
  {
    if a.denominator == 1 {
      ParseIntToString(a.numerator);
    } else {
      ParseFraction(a.numerator, a.denominator);
    }
  }
}
