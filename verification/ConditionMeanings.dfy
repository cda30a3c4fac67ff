/** What the operators of a condition mean, said in integers and texts instead of through the code's own comparisons. */
module ConditionMeanings {
  import opened Wrappers
  import opened Strings
  import opened DecimalKey
  import opened ListMatching
  import opened FlagConditions

  // --- order ---------------------------------------------------------------------------

  /** When cell and value both read as numbers, the four comparisons are those of the integers they are when counted
      in any unit at or below both exponents. */
  lemma OrderedByNumber(ops: TextOps, c: Condition, cell: Value, a: Decimal, b: Decimal, unit: int)
    requires AsNumber(ops, cell) == Some(a) && AsNumber(ops, Expected(c.value)) == Some(b)
    requires unit <= a.exp && unit <= b.exp
    ensures c.op.Gt? ==> (Holds(ops, c, cell) <==> Scaled(a, unit) > Scaled(b, unit))
    ensures c.op.Gte? ==> (Holds(ops, c, cell) <==> Scaled(a, unit) >= Scaled(b, unit))
    ensures c.op.Lt? ==> (Holds(ops, c, cell) <==> Scaled(a, unit) < Scaled(b, unit))
    ensures c.op.Lte? ==> (Holds(ops, c, cell) <==> Scaled(a, unit) <= Scaled(b, unit))
  {
    CompareAtAnyUnit(a, b, unit);
    CompareAtAnyUnit(b, a, unit);
    if c.op.Gt? || c.op.Gte? || c.op.Lt? || c.op.Lte? {
      HoldsOrdered(ops, c, cell);
    }
  }

  lemma HoldsOrdered(ops: TextOps, c: Condition, cell: Value)
    requires c.op.Gt? || c.op.Gte? || c.op.Lt? || c.op.Lte?
    requires !cell.Null?
    ensures Holds(ops, c, cell) <==> CompareOrdered(ops, cell, Expected(c.value), c.op)
  {
  }

  /** a and b agree up to k, and there a ends or has the smaller code point. */
  ghost predicate SmallerAt(a: string, b: string, k: nat)
  {
    k <= |a| && k < |b| && a[..k] == b[..k] && (k == |a| || a[k] < b[k])
  }

  /** a comes before b: it is a proper prefix, or has the smaller code point at the first difference. */
  ghost predicate CodePointsBefore(a: string, b: string) { exists k: nat :: SmallerAt(a, b, k) }

  lemma {:induction false} TextLessIsCodePointOrder(a: string, b: string)
    ensures TextLess(a, b) <==> CodePointsBefore(a, b)
  {
    if a != "" && b != "" && a[0] == b[0] {
      TextLessIsCodePointOrder(a[1..], b[1..]);
      if k: nat :| SmallerAt(a[1..], b[1..], k) {
        SmallerLater(a, b, k);
      }
      if k: nat :| SmallerAt(a, b, k) {
        SmallerLater(a, b, k - 1);
      }
    } else {
      FirstPointsDecide(a, b);
    }
  }

  lemma SmallerLater(a: string, b: string, k: nat)
    requires a != "" && b != "" && a[0] == b[0]
    ensures SmallerAt(a[1..], b[1..], k) <==> SmallerAt(a, b, k + 1)
  {
    if k < |a| && k < |b| {
      assert a[..k + 1] == [a[0]] + a[1..][..k] && b[..k + 1] == [b[0]] + b[1..][..k];
    }
  }

  lemma FirstPointsDecide(a: string, b: string)
    requires a == "" || b == "" || a[0] != b[0]
    ensures CodePointsBefore(a, b) <==> b != "" && (a == "" || a[0] < b[0])
  {
    if b != "" && (a == "" || a[0] < b[0]) {
      assert SmallerAt(a, b, 0);
    }
    if k: nat :| SmallerAt(a, b, k) {
      if k > 0 {
        FirstPointsAgree(a, b, k);
      }
    }
  }

  lemma FirstPointsAgree(a: string, b: string, k: nat)
    requires SmallerAt(a, b, k) && k > 0
    ensures a != "" && b != "" && a[0] == b[0]
  {
    assert a[..k][0] == a[0] && b[..k][0] == b[0];
  }

  /** When one of them is no number, they are compared as texts, by code point. */
  lemma OrderedByText(ops: TextOps, c: Condition, cell: Value)
    requires !cell.Null? && !cell.Bool? && (AsNumber(ops, cell).None? || AsNumber(ops, Expected(c.value)).None?)
    ensures var s, t := AsText(cell), AsText(Expected(c.value));
            && (c.op.Gt? ==> (Holds(ops, c, cell) <==> CodePointsBefore(t, s)))
            && (c.op.Gte? ==> (Holds(ops, c, cell) <==> CodePointsBefore(t, s) || s == t))
            && (c.op.Lt? ==> (Holds(ops, c, cell) <==> CodePointsBefore(s, t)))
            && (c.op.Lte? ==> (Holds(ops, c, cell) <==> CodePointsBefore(s, t) || s == t))
  {
    var s, t := AsText(cell), AsText(Expected(c.value));
    TextLessIsCodePointOrder(s, t);
    TextLessIsCodePointOrder(t, s);
    if c.op.Gt? || c.op.Gte? || c.op.Lt? || c.op.Lte? {
      HoldsOrdered(ops, c, cell);
    }
  }

  /** A boolean cell has no place in any order. */
  lemma BooleansAreNotOrdered(ops: TextOps, c: Condition, cell: Value)
    requires cell.Bool? && (c.op.Gt? || c.op.Gte? || c.op.Lt? || c.op.Lte?)
    ensures !Holds(ops, c, cell)
  {
  }

  /** An integer cell and a typed integer compare as integers. */
  lemma IntegersCompare(ops: TextOps, c: Condition, n: int, m: int)
    requires Faithful(ops) && ValidCell(ops, Int(m)) && c.value == Some(IntToString(m))
    ensures c.op.Gt? ==> (Holds(ops, c, Int(n)) <==> n > m)
    ensures c.op.Gte? ==> (Holds(ops, c, Int(n)) <==> n >= m)
    ensures c.op.Lt? ==> (Holds(ops, c, Int(n)) <==> n < m)
    ensures c.op.Lte? ==> (Holds(ops, c, Int(n)) <==> n <= m)
    ensures c.op.Eq? ==> (Holds(ops, c, Int(n)) <==> n == m)
  {
    IntegerCounts(n);
    IntegerCounts(m);
    assert AsNumber(ops, Expected(c.value)) == Some(DecimalOfInt(m));
    OrderedByNumber(ops, c, Int(n), DecimalOfInt(n), DecimalOfInt(m), 0);
    EqualByNumber(ops, c, Int(n), DecimalOfInt(n), DecimalOfInt(m), 0);
  }

  lemma IntegerCounts(n: int)
    ensures DecimalOfInt(n).exp == 0 && Scaled(DecimalOfInt(n), 0) == n
  {
    assert Pow10(0) == 1;
  }

  // --- equality ---------------------------------------------------------------------------

  lemma EqualByNumber(ops: TextOps, c: Condition, cell: Value, a: Decimal, b: Decimal, unit: int)
    requires Faithful(ops) && AsNumber(ops, cell) == Some(a) && AsNumber(ops, Expected(c.value)) == Some(b)
    requires unit <= a.exp && unit <= b.exp
    ensures c.op.Eq? ==> (Holds(ops, c, cell) <==> Scaled(a, unit) == Scaled(b, unit))
  {
    CompareAtAnyUnit(a, b, unit);
    if c.op.Eq? {
      HoldsEq(ops, c, cell);
    }
  }

  lemma HoldsEq(ops: TextOps, c: Condition, cell: Value)
    requires c.op.Eq? && !cell.Null?
    ensures Holds(ops, c, cell) <==> Equals(ops, cell, Expected(c.value))
  {
  }

  /** The typed text reads as this truth value. */
  predicate Reads(ops: TextOps, text: string, b: bool)
  {
    var word := ops.lower(ops.strip(text));
    if b then word == "true" || word == "t" || word == "yes" || word == "y" || word == "1"
    else word == "false" || word == "f" || word == "no" || word == "n" || word == "0"
  }

  /** The text reads as this truth value by a word, not a digit. */
  predicate ReadsAsWord(ops: TextOps, text: string, b: bool)
  {
    Reads(ops, text, b) && ops.lower(ops.strip(text)) != "1" && ops.lower(ops.strip(text)) != "0"
  }

  /** Beside booleans and texts, only the integers 0 and 1 read as truth values. */
  lemma WhatReadsAsTruth(ops: TextOps, v: Value, b: bool)
    ensures AsBool(ops, v) == Some(b) <==>
            v == Bool(b) || v == Int(if b then 1 else 0) || (v.Text? && Reads(ops, v.s, b))
  {
  }

  lemma ReadsIsAsBool(ops: TextOps, text: string, b: bool)
    ensures Reads(ops, text, b) <==> AsBool(ops, Text(text)) == Some(b)
    ensures ReadsAsWord(ops, text, b) <==> IsBoolWord(ops, Text(text)) && AsBool(ops, Text(text)) == Some(b)
  {
  }

  /** A real boolean equals whatever reads as it. */
  lemma EqualByTruth(ops: TextOps, c: Condition, b: bool)
    requires c.op.Eq?
    ensures Holds(ops, c, Bool(b)) <==> c.value.Some? && Reads(ops, c.value.value, b)
  {
    HoldsEq(ops, c, Bool(b));
    if c.value.Some? {
      ReadsIsAsBool(ops, c.value.value, b);
    }
  }

  /** Two texts that are not both numbers are equal when they are the same text, or words for the same truth value. */
  lemma EqualByText(ops: TextOps, c: Condition, s: string, t: string)
    requires c.op.Eq? && c.value == Some(t)
    requires AsNumber(ops, Text(s)).None? || AsNumber(ops, Text(t)).None?
    ensures Holds(ops, c, Text(s)) <==> s == t || exists b :: ReadsAsWord(ops, s, b) && ReadsAsWord(ops, t, b)
  {
    HoldsEq(ops, c, Text(s));
    ReadsIsAsBool(ops, s, true);
    ReadsIsAsBool(ops, t, true);
    ReadsIsAsBool(ops, s, false);
    ReadsIsAsBool(ops, t, false);
  }

  // --- parts of a text ------------------------------------------------------------------

  /** The part stands somewhere in the text: what follows some position starts with it. */
  ghost predicate IsPart(text: string, part: string) { exists i: nat :: i <= |text| && part <= text[i..] }

  lemma {:induction false} InfixIsAPart(text: string, part: string)
    ensures HasInfix(text, part) <==> IsPart(text, part)
  {
    assert text[0..] == text;
    if !(part <= text) && text != "" {
      InfixIsAPart(text[1..], part);
      if i: nat :| i <= |text[1..]| && part <= text[1..][i..] {
        assert text[i + 1..] == text[1..][i..];
      }
      if i: nat :| i <= |text| && part <= text[i..] {
        assert text[1..][i - 1..] == text[i..];
      }
    }
  }

  /** `contains` and `starts_with` look for the value anywhere in, or at the start of, the cell's text, upper and lower
      case alike. */
  lemma PartsOfText(ops: TextOps, c: Condition, cell: Value)
    requires !cell.Null?
    ensures var text, part := ops.lower(AsText(cell)), ops.lower(AsText(Expected(c.value)));
            && (c.op.Contains? ==>
                  (Holds(ops, c, cell) <==> exists i: nat :: i <= |text| && part <= text[i..]))
            && (c.op.StartsWith? ==> (Holds(ops, c, cell) <==> part <= text))
  {
    var text, part := ops.lower(AsText(cell)), ops.lower(AsText(Expected(c.value)));
    InfixIsAPart(text, part);
    assert c.op.Contains? ==> (Holds(ops, c, cell) <==> HasInfix(text, part));
  }

  /** Between two numbers only a number can be. */
  lemma BetweenNumbersNeedsANumber(ops: TextOps, c: Condition, cell: Value)
    requires c.op.Between? && AsNumber(ops, cell).None?
    requires AsNumber(ops, Expected(c.value)).Some? && AsNumber(ops, Expected(c.value2)).Some?
    ensures !Holds(ops, c, cell)
  {
  }
}
