/** The comparison key of a number (`list_key` on a finite Decimal), and the proof
    that two keys agree exactly when the two numbers are equal. */
module DecimalKey {
  import opened Strings

  /** A finite decimal as `Decimal.as_tuple` gives it: (-1)^neg * digits * 10^exp. */
  type Digit = d: nat | d < 10

  datatype Decimal = Decimal(neg: bool, digits: seq<Digit>, exp: int)

  /** What `as_tuple` guarantees: at least one digit, and no leading zero except in zero itself. */
  ghost predicate Valid(d: Decimal)
  {
    |d.digits| > 0 && (d.digits == [0] || d.digits[0] != 0)
  }

  // --- the number a decimal denotes ---------------------------------------

  function Coefficient(ds: seq<Digit>): nat
  {
    if ds == [] then 0 else Coefficient(ds[..|ds| - 1]) * 10 + ds[|ds| - 1]
  }

  function Pow10(n: nat): (p: nat)
    ensures p > 0
  {
    if n == 0 then 1 else 10 * Pow10(n - 1)
  }

  function Min(a: int, b: int): int { if a < b then a else b }

  function Signed(neg: bool, n: int): int { if neg then -n else n }

  /** The decimal counted in units of 10^unit, exactly. */
  function Scaled(d: Decimal, unit: int): int
    requires unit <= d.exp
  {
    Signed(d.neg, Coefficient(d.digits)) * Pow10(d.exp - unit)
  }

  predicate NumEq(a: Decimal, b: Decimal)
  {
    var m := Min(a.exp, b.exp);
    Scaled(a, m) == Scaled(b, m)
  }

  predicate NumLess(a: Decimal, b: Decimal)
  {
    var m := Min(a.exp, b.exp);
    Scaled(a, m) < Scaled(b, m)
  }

  lemma {:induction false} Pow10Adds(a: nat, b: nat)
    ensures Pow10(a + b) == Pow10(a) * Pow10(b)
  {
    if a > 0 {
      Pow10Adds(a - 1, b);
    }
  }

  lemma ScaledFiner(d: Decimal, coarse: int, fine: int)
    requires fine <= coarse <= d.exp
    ensures Scaled(d, fine) == Scaled(d, coarse) * Pow10(coarse - fine)
  {
    Pow10Adds(d.exp - coarse, coarse - fine);
    MulAssociative(Signed(d.neg, Coefficient(d.digits)), Pow10(d.exp - coarse), Pow10(coarse - fine));
  }

  lemma MulAssociative(x: int, y: int, z: int)
    ensures x * (y * z) == (x * y) * z
  {
  }

  /** Comparing at any common unit gives the same answer. */
  lemma CompareAtAnyUnit(a: Decimal, b: Decimal, unit: int)
    requires unit <= a.exp && unit <= b.exp
    ensures NumEq(a, b) <==> Scaled(a, unit) == Scaled(b, unit)
    ensures NumLess(a, b) <==> Scaled(a, unit) < Scaled(b, unit)
  {
    var m := Min(a.exp, b.exp);
    ScaledFiner(a, m, unit);
    ScaledFiner(b, m, unit);
    MulMonotone(Scaled(a, m), Scaled(b, m), Pow10(m - unit));
  }

  lemma MulMonotone(x: int, y: int, p: nat)
    requires p > 0
    ensures x < y <==> x * p < y * p
    ensures x == y <==> x * p == y * p
  {
  }

  lemma NumEqTransitive(a: Decimal, b: Decimal, c: Decimal)
    requires NumEq(a, b) && NumEq(b, c)
    ensures NumEq(a, c)
  {
    var m := Min(a.exp, Min(b.exp, c.exp));
    CompareAtAnyUnit(a, b, m);
    CompareAtAnyUnit(b, c, m);
    CompareAtAnyUnit(a, c, m);
  }

  // --- the key ------------------------------------------------------------

  function StripTrailingZeros(ds: seq<Digit>): (r: seq<Digit>)
    ensures |r| <= |ds| && r == ds[..|r|]
    ensures r != [] ==> r[|r| - 1] != 0
    ensures forall i :: |r| <= i < |ds| ==> ds[i] == 0
  {
    if ds == [] || ds[|ds| - 1] != 0 then ds else StripTrailingZeros(ds[..|ds| - 1])
  }

  function DigitString(ds: seq<Digit>): (s: string)
    ensures |s| == |ds| && AllDigits(s)
    ensures forall i :: 0 <= i < |s| ==> DigitValue(s[i]) == ds[i]
  {
    if ds == [] then "" else [DigitChar(ds[0])] + DigitString(ds[1..])
  }

  /** `list_key` of a number: its digits without trailing zeros, then the exponent when it is not 0. */
  function NumberKey(d: Decimal): string
  {
    var text := StripTrailingZeros(d.digits);
    if text == [] then
      "0"
    else
      var exponent := d.exp + |d.digits| - |text|;
      (if d.neg then "-" else "") + (DigitString(text) + ExponentSuffix(exponent))
  }

  function ExponentSuffix(exponent: int): string
  {
    if exponent != 0 then "e" + IntToString(exponent) else ""
  }

  // --- why the key is exact -----------------------------------------------

  lemma {:induction false} TrailingZerosScale(ds: seq<Digit>, n: nat)
    requires n <= |ds|
    requires forall i :: n <= i < |ds| ==> ds[i] == 0
    ensures Coefficient(ds) == Coefficient(ds[..n]) * Pow10(|ds| - n)
  {
    if n < |ds| {
      TrailingZerosScale(ds[..|ds| - 1], n);
      assert ds[..|ds| - 1][..n] == ds[..n];
    } else {
      assert ds[..n] == ds;
    }
  }

  lemma {:induction false} LeadingDigitPositive(ds: seq<Digit>)
    requires ds != [] && ds[0] != 0
    ensures Coefficient(ds) > 0
  {
    if |ds| > 1 {
      LeadingDigitPositive(ds[..|ds| - 1]);
    }
  }

  /** Digits without a leading zero are determined by the number they spell. */
  lemma {:induction false} CoefficientInjective(a: seq<Digit>, b: seq<Digit>)
    requires a != [] ==> a[0] != 0
    requires b != [] ==> b[0] != 0
    requires Coefficient(a) == Coefficient(b)
    ensures a == b
  {
    if a == [] || b == [] {
      if a != [] { LeadingDigitPositive(a); }
      if b != [] { LeadingDigitPositive(b); }
    } else {
      var a', b' := a[..|a| - 1], b[..|b| - 1];
      var x, y := a[|a| - 1], b[|b| - 1];
      assert Coefficient(a') == Coefficient(b') && x == y by {
        assert (Coefficient(a') - Coefficient(b')) * 10 == y - x;
      }
      CoefficientInjective(a', b');
      assert a == a' + [x] && b == b' + [y];
    }
  }

  /** The normal form behind the key: no trailing zero, the exponent raised to match. */
  function Normalized(d: Decimal): (n: Decimal)
    requires Valid(d) && StripTrailingZeros(d.digits) != []
    ensures Valid(n) && n.digits[|n.digits| - 1] != 0 && n.digits[0] != 0
  {
    var text := StripTrailingZeros(d.digits);
    Decimal(d.neg, text, d.exp + |d.digits| - |text|)
  }

  lemma NormalizedSameNumber(d: Decimal)
    requires Valid(d) && StripTrailingZeros(d.digits) != []
    ensures NumEq(d, Normalized(d))
  {
    var n := Normalized(d);
    TrailingZerosScale(d.digits, |n.digits|);
    assert Min(d.exp, n.exp) == d.exp;
    assert Pow10(0) == 1;
  }

  /** The stripped text is empty exactly for the zeros. */
  lemma EmptyTextIsZero(d: Decimal)
    requires Valid(d)
    ensures StripTrailingZeros(d.digits) == [] <==> Coefficient(d.digits) == 0
  {
    if StripTrailingZeros(d.digits) == [] {
      TrailingZerosScale(d.digits, 0);
      assert d.digits[..0] == [];
    } else {
      assert d.digits[|StripTrailingZeros(d.digits)| - 1] != 0;
      LeadingDigitPositive(d.digits);
    }
  }

  /** Equal numbers whose coefficients are not multiples of ten are the same decimal. */
  lemma EqualNormalForms(a: Decimal, b: Decimal)
    requires Valid(a) && Valid(b)
    requires a.digits[0] != 0 && b.digits[0] != 0
    requires a.digits[|a.digits| - 1] != 0 && b.digits[|b.digits| - 1] != 0
    requires NumEq(a, b)
    ensures a == b
  {
    if a.exp < b.exp {
      EqualNormalFormsOrdered(b, a);
    } else {
      EqualNormalFormsOrdered(a, b);
    }
  }

  lemma EqualNormalFormsOrdered(a: Decimal, b: Decimal)
    requires Valid(a) && Valid(b) && b.exp <= a.exp
    requires a.digits[0] != 0 && b.digits[0] != 0
    requires b.digits[|b.digits| - 1] != 0
    requires Scaled(a, b.exp) == Scaled(b, b.exp)
    ensures a == b
  {
    LeadingDigitPositive(a.digits);
    LeadingDigitPositive(b.digits);
    var k, x, y := a.exp - b.exp, Coefficient(a.digits), Coefficient(b.digits);
    assert Pow10(0) == 1;
    SignOfProduct(x, Pow10(k), y, a.neg, b.neg);
    LastDigit(b.digits);
    NotAMultipleOfTen(x, k, y);
    CoefficientInjective(a.digits, b.digits);
  }

  lemma LastDigit(ds: seq<Digit>)
    requires ds != []
    ensures Coefficient(ds) % 10 == ds[|ds| - 1]
  {
  }

  lemma NotAMultipleOfTen(x: int, k: nat, y: int)
    requires x * Pow10(k) == y && y % 10 != 0
    ensures k == 0 && x == y
  {
    PowerDivisible(x, k);
    assert Pow10(0) == 1;
  }

  lemma PowerDivisible(x: int, k: nat)
    ensures k > 0 ==> (x * Pow10(k)) % 10 == 0
  {
    if k > 0 {
      assert x * (10 * Pow10(k - 1)) == 10 * (x * Pow10(k - 1));
    }
  }

  lemma SignOfProduct(x: int, p: int, y: int, negX: bool, negY: bool)
    requires x > 0 && p > 0 && y > 0
    requires Signed(negX, x) * p == Signed(negY, y)
    ensures negX == negY && x * p == y
  {
  }

  /** The printed form of a normal form can be read back. */
  lemma KeyTextInjective(a: Decimal, b: Decimal)
    requires Valid(a) && Valid(b)
    requires StripTrailingZeros(a.digits) != [] && StripTrailingZeros(b.digits) != []
    requires NumberKey(a) == NumberKey(b)
    ensures Normalized(a) == Normalized(b)
  {
    var m, n := Normalized(a), Normalized(b);
    var s, t := DigitString(m.digits), DigitString(n.digits);
    var restA, restB := s + ExponentSuffix(m.exp), t + ExponentSuffix(n.exp);
    var key := NumberKey(a);
    assert key == (if a.neg then "-" else "") + restA == (if b.neg then "-" else "") + restB;
    assert a.neg <==> key[0] == '-' by { assert !a.neg ==> key[0] == s[0]; }
    assert b.neg <==> key[0] == '-' by { assert !b.neg ==> key[0] == t[0]; }
    assert restA == key[if a.neg then 1 else 0..] == restB;
    SuffixInjective(s, m.exp, t, n.exp);
    assert m.digits == n.digits by {
      assert forall i :: 0 <= i < |s| ==> DigitValue(s[i]) == m.digits[i] == n.digits[i];
    }
  }

  lemma SuffixInjective(s: string, m: int, t: string, n: int)
    requires AllDigits(s) && AllDigits(t)
    requires s + ExponentSuffix(m) == t + ExponentSuffix(n)
    ensures s == t && m == n
  {
    OnlyDigitsWithoutSuffix(s, m);
    OnlyDigitsWithoutSuffix(t, n);
    if m != 0 {
      assert s + ['e'] + IntToString(m) == s + ExponentSuffix(m) == t + ['e'] + IntToString(n);
      SplitAtSeparator(s, IntToString(m), t, IntToString(n), 'e');
      IntToStringInjective(m, n);
    }
  }

  lemma OnlyDigitsWithoutSuffix(s: string, m: int)
    requires AllDigits(s)
    ensures AllDigits(s + ExponentSuffix(m)) <==> m == 0
    ensures m == 0 ==> s + ExponentSuffix(m) == s
  {
    var u := s + ExponentSuffix(m);
    if m != 0 {
      assert u[|s|] == 'e';
    } else {
      assert u == s;
    }
  }

  lemma KeyStartsLikeANumber(d: Decimal)
    ensures NumberKey(d) != "" && (NumberKey(d)[0] == '-' || IsDigit(NumberKey(d)[0]))
  {
  }

  lemma KeyOfNonzeroIsNotZero(d: Decimal)
    requires Valid(d) && StripTrailingZeros(d.digits) != []
    ensures NumberKey(d) != "0"
  {
    var n := Normalized(d);
    var s := DigitString(n.digits);
    assert DigitValue(s[0]) != 0;
    assert NumberKey(d)[0] == if d.neg then '-' else s[0];
    assert DigitValue('0') == 0;
  }

  /** The key is numeric equality, with no precision limit: every zero shares one key, and any two
      decimals share a key exactly when they are equal as numbers. */
  lemma KeyIsNumericEquality(a: Decimal, b: Decimal)
    requires Valid(a) && Valid(b)
    ensures NumberKey(a) == NumberKey(b) <==> NumEq(a, b)
  {
    EmptyTextIsZero(a);
    EmptyTextIsZero(b);
    if StripTrailingZeros(a.digits) == [] {
      ZeroKey(a, b);
    } else if StripTrailingZeros(b.digits) == [] {
      ZeroKey(b, a);
    } else {
      NonzeroKeys(a, b);
    }
  }

  lemma ZeroKey(z: Decimal, d: Decimal)
    requires Valid(z) && Valid(d) && StripTrailingZeros(z.digits) == []
    ensures NumberKey(z) == NumberKey(d) <==> NumEq(z, d)
    ensures NumberKey(z) == NumberKey(d) <==> NumEq(d, z)
  {
    EmptyTextIsZero(z);
    EmptyTextIsZero(d);
    var m := Min(z.exp, d.exp);
    assert Scaled(z, m) == 0;
    if StripTrailingZeros(d.digits) == [] {
      assert Scaled(d, m) == 0;
    } else {
      KeyOfNonzeroIsNotZero(d);
      NonzeroScaled(d, m);
    }
  }

  lemma NonzeroKeys(a: Decimal, b: Decimal)
    requires Valid(a) && Valid(b)
    requires StripTrailingZeros(a.digits) != [] && StripTrailingZeros(b.digits) != []
    ensures NumberKey(a) == NumberKey(b) <==> NumEq(a, b)
  {
    SameNormalFormIffEqual(a, b);
    if NumberKey(a) == NumberKey(b) {
      KeyTextInjective(a, b);
    }
    if Normalized(a) == Normalized(b) {
      KeyOfNormalForm(a);
      KeyOfNormalForm(b);
    }
  }

  lemma KeyOfNormalForm(d: Decimal)
    requires Valid(d) && StripTrailingZeros(d.digits) != []
    ensures var n := Normalized(d);
            NumberKey(d) == (if n.neg then "-" else "") + (DigitString(n.digits) + ExponentSuffix(n.exp))
  {
  }

  lemma SameNormalFormIffEqual(a: Decimal, b: Decimal)
    requires Valid(a) && Valid(b)
    requires StripTrailingZeros(a.digits) != [] && StripTrailingZeros(b.digits) != []
    ensures Normalized(a) == Normalized(b) <==> NumEq(a, b)
  {
    var na, nb := Normalized(a), Normalized(b);
    NormalizedSameNumber(a);
    NormalizedSameNumber(b);
    NumEqSymmetric(a, na);
    NumEqSymmetric(b, nb);
    if na == nb {
      NumEqTransitive(a, na, b);
    }
    if NumEq(a, b) {
      NumEqTransitive(na, a, b);
      NumEqTransitive(na, b, nb);
      EqualNormalForms(na, nb);
    }
  }

  lemma NumEqSymmetric(a: Decimal, b: Decimal)
    ensures NumEq(a, b) <==> NumEq(b, a)
  {
  }

  lemma NonzeroScaled(d: Decimal, unit: int)
    requires unit <= d.exp && Coefficient(d.digits) != 0
    ensures Scaled(d, unit) != 0
  {
  }

  /** Negative zero and any zero with an exponent share the key of 0. */
  lemma ZerosShareOneKey(neg: bool, exp: int)
    ensures Valid(Decimal(neg, [0], exp)) && NumberKey(Decimal(neg, [0], exp)) == "0"
  {
  }
}
