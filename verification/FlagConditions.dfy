/** Whether one cell satisfies one condition of a flag rule, and how a typed `in` list relates to a named list. */
module FlagConditions {
  import opened Wrappers
  import opened DecimalKey
  import opened ListMatching

  datatype Operator =
    | Gt | Gte | Lt | Lte | Eq | Neq
    | Contains | NotContains | StartsWith
    | In | NotIn | IsNull | IsNotNull | Between | InList | NotInList

  /** `members` is the resolved named list of `InList` and `NotInList`, and None for every other operator. */
  datatype Condition = Condition(
    column: string, op: Operator, value: Option<string>, value2: Option<string>, members: Option<set<Member>>)

  function Expected(value: Option<string>): Value
  {
    if value.Some? then Text(value.value) else Null
  }

  // --- text comparisons ---------------------------------------------------

  /** Code-point order. */
  predicate TextLess(a: string, b: string)
  {
    if a == "" || b == "" then a == "" && b != ""
    else a[0] < b[0] || (a[0] == b[0] && TextLess(a[1..], b[1..]))
  }

  predicate TextAtMost(a: string, b: string) { a == b || TextLess(a, b) }

  predicate HasInfix(text: string, part: string)
  {
    part <= text || (text != "" && HasInfix(text[1..], part))
  }

  lemma {:induction false} TextOrderTotal(a: string, b: string)
    ensures TextLess(a, b) || a == b || TextLess(b, a)
    ensures !(TextLess(a, b) && TextLess(b, a)) && (a == b ==> !TextLess(a, b))
  {
    if a != "" && b != "" {
      TextOrderTotal(a[1..], b[1..]);
      assert a == [a[0]] + a[1..] && b == [b[0]] + b[1..];
    }
  }

  function SplitOn(s: string, c: char): (parts: seq<string>)
    ensures |parts| > 0
  {
    if s == "" then [""]
    else
      var rest := SplitOn(s[1..], c);
      if s[0] == c then [""] + rest else [[s[0]] + rest[0]] + rest[1..]
  }

  function Join(parts: seq<string>, c: char): string
  {
    if parts == [] then ""
    else if |parts| == 1 then parts[0]
    else parts[0] + [c] + Join(parts[1..], c)
  }

  /** Splitting what was joined gives the parts back, when no part holds the separator. */
  lemma {:induction false} SplitOnJoin(parts: seq<string>, c: char)
    requires parts != [] && forall i :: 0 <= i < |parts| ==> c !in parts[i]
    ensures SplitOn(Join(parts, c), c) == parts
    decreases |parts|, |parts[0]|
  {
    var s := Join(parts, c);
    if parts[0] != "" {
      var shorter := [parts[0][1..]] + parts[1..];
      assert s == [parts[0][0]] + Join(shorter, c);
      assert parts[0][0] in parts[0] && (forall x :: x in parts[0][1..] ==> x in parts[0]);
      SplitOnJoin(shorter, c);
      assert [parts[0][0]] + parts[0][1..] == parts[0] && shorter[1..] == parts[1..];
      assert parts == [[parts[0][0]] + shorter[0]] + shorter[1..];
    } else if |parts| > 1 {
      SplitOnJoin(parts[1..], c);
      assert s == [c] + Join(parts[1..], c) && s[1..] == Join(parts[1..], c);
      assert parts == [""] + parts[1..];
    }
  }

  function TrimmedParts(ops: TextOps, parts: seq<string>): seq<string>
  {
    if parts == [] then []
    else (if ops.strip(parts[0]) == "" then [] else [ops.strip(parts[0])]) + TrimmedParts(ops, parts[1..])
  }

  /** `split_list`: the comma-separated values, trimmed, blanks dropped. */
  function SplitList(ops: TextOps, raw: Option<string>): seq<string>
  {
    if raw.None? || raw.value == "" then [] else TrimmedParts(ops, SplitOn(raw.value, ','))
  }

  lemma {:induction false} TrimmedPartsHas(ops: TextOps, parts: seq<string>, m: string)
    ensures m in TrimmedParts(ops, parts) <==> m != "" && exists i :: 0 <= i < |parts| && ops.strip(parts[i]) == m
  {
    if parts != [] {
      TrimmedPartsHas(ops, parts[1..], m);
      if i :| 0 <= i < |parts| && ops.strip(parts[i]) == m {
        assert i > 0 ==> parts[1..][i - 1] == parts[i];
      }
      if i :| 0 <= i < |parts| - 1 && ops.strip(parts[1..][i]) == m {
        assert parts[i + 1] == parts[1..][i];
      }
    }
  }

  // --- one condition -------------------------------------------------------

  predicate Equals(ops: TextOps, cell: Value, expected: Value)
  {
    if cell.Bool? then
      AsBool(ops, expected) == Some(cell.b)
    else if IsBoolWord(ops, cell) && IsBoolWord(ops, expected) then
      AsBool(ops, cell) == AsBool(ops, expected)
    else
      var left, right := AsNumber(ops, cell), AsNumber(ops, expected);
      if left.Some? && right.Some? then NumEq(left.value, right.value) else AsText(cell) == AsText(expected)
  }

  /** The two orders a comparison may use: numeric when both sides are numbers, otherwise by text. */
  predicate Before(ops: TextOps, a: Value, b: Value)
  {
    var left, right := AsNumber(ops, a), AsNumber(ops, b);
    if left.Some? && right.Some? then NumLess(left.value, right.value) else TextLess(AsText(a), AsText(b))
  }

  predicate Level(ops: TextOps, a: Value, b: Value)
  {
    var left, right := AsNumber(ops, a), AsNumber(ops, b);
    if left.Some? && right.Some? then NumEq(left.value, right.value) else AsText(a) == AsText(b)
  }

  predicate CompareOrdered(ops: TextOps, cell: Value, expected: Value, op: Operator)
  {
    if cell.Bool? then false
    else
      match op
      case Gt => Before(ops, expected, cell)
      case Gte => Before(ops, expected, cell) || Level(ops, cell, expected)
      case Lt => Before(ops, cell, expected)
      case _ => Before(ops, cell, expected) || Level(ops, cell, expected)
  }

  predicate BetweenBounds(ops: TextOps, cell: Value, one: Value, other: Value)
  {
    var low, high := AsNumber(ops, one), AsNumber(ops, other);
    if low.Some? && high.Some? then
      var number := AsNumber(ops, cell);
      && number.Some?
      && var (lo, hi) := if NumLess(high.value, low.value) then (high.value, low.value) else (low.value, high.value);
         !NumLess(number.value, lo) && !NumLess(hi, number.value)
    else
      var (lo, hi) := if TextLess(AsText(other), AsText(one)) then (AsText(other), AsText(one)) else (AsText(one), AsText(other));
      TextAtMost(lo, AsText(cell)) && TextAtMost(AsText(cell), hi)
  }

  predicate AnyEquals(ops: TextOps, cell: Value, items: seq<string>)
  {
    exists i :: 0 <= i < |items| && Equals(ops, cell, Text(items[i]))
  }

  /** `evaluate_condition`. */
  predicate Holds(ops: TextOps, c: Condition, cell: Value)
  {
    if c.op.IsNull? then cell.Null?
    else if c.op.IsNotNull? then !cell.Null?
    else if cell.Null? then false
    else
      match c.op
      case Gt => CompareOrdered(ops, cell, Expected(c.value), c.op)
      case Gte => CompareOrdered(ops, cell, Expected(c.value), c.op)
      case Lt => CompareOrdered(ops, cell, Expected(c.value), c.op)
      case Lte => CompareOrdered(ops, cell, Expected(c.value), c.op)
      case Eq => Equals(ops, cell, Expected(c.value))
      case Neq => !Equals(ops, cell, Expected(c.value))
      case Contains => HasInfix(ops.lower(AsText(cell)), ops.lower(AsText(Expected(c.value))))
      case NotContains => !HasInfix(ops.lower(AsText(cell)), ops.lower(AsText(Expected(c.value))))
      case StartsWith => ops.lower(AsText(Expected(c.value))) <= ops.lower(AsText(cell))
      case In => AnyEquals(ops, cell, SplitList(ops, c.value))
      case NotIn => !AnyEquals(ops, cell, SplitList(ops, c.value))
      case InList => c.members.Some? && IsMember(ops, c.members.value, cell)
      case NotInList => c.members.Some? && !IsMember(ops, c.members.value, cell)
      case Between => BetweenBounds(ops, cell, Expected(c.value), Expected(c.value2))
  }

  // --- laws of the operators -----------------------------------------------

  /** NULL satisfies `is_null` and nothing else, so a negated operator never catches a missing value. */
  lemma NullSatisfiesOnlyIsNull(ops: TextOps, c: Condition)
    ensures Holds(ops, c, Null) <==> c.op.IsNull?
  {
  }

  /** Reversed bounds mean the same as ordered ones. */
  lemma BetweenIgnoresOrder(ops: TextOps, cell: Value, one: Value, other: Value)
    ensures BetweenBounds(ops, cell, one, other) <==> BetweenBounds(ops, cell, other, one)
  {
    var low, high := AsNumber(ops, one), AsNumber(ops, other);
    TextOrderTotal(AsText(one), AsText(other));
    if low.Some? && high.Some? && AsNumber(ops, cell).Some? {
      EqualBoundsAgree(AsNumber(ops, cell).value, low.value, high.value);
    }
  }

  /** `neq`, `not_contains` and `not_in`. */
  function Negation(op: Operator): Operator
    requires op.Eq? || op.Contains? || op.In?
  {
    match op
    case Eq => Neq
    case Contains => NotContains
    case In => NotIn
  }

  /** For a present cell every negated operator is the complement of its positive one. */
  lemma NegationsComplement(ops: TextOps, c: Condition, cell: Value)
    requires !cell.Null? && (c.op.Eq? || c.op.Contains? || c.op.In?)
    ensures Holds(ops, c.(op := Negation(c.op)), cell) <==> !Holds(ops, c, cell)
  {
  }

  /** With a named list, exactly when the list was resolved; otherwise neither holds. */
  lemma UnresolvedListMatchesNothing(ops: TextOps, c: Condition, cell: Value)
    requires !cell.Null?
    ensures (Holds(ops, c.(op := NotInList), cell) <==> !Holds(ops, c.(op := InList), cell)) <==> c.members.Some?
    ensures Holds(ops, c.(op := InList), cell) ==> c.members.Some?
  {
  }

  /** The bounds and the cell are compared in one way: all as numbers, or all as text. */
  predicate ComparedAlike(ops: TextOps, cell: Value, one: Value, other: Value)
  {
    if AsNumber(ops, one).Some? && AsNumber(ops, other).Some? then AsNumber(ops, cell).Some?
    else AsNumber(ops, cell).Some? ==> AsNumber(ops, one).None? && AsNumber(ops, other).None?
  }

  /** With its bounds in order, `between` is `gte` the one and `lte` the other, as long as all three are compared
      in one way; `between` alone decides the way by its bounds only. */
  lemma BetweenIsTwoComparisons(ops: TextOps, cell: Value, one: Value, other: Value)
    requires Lawful(ops) && !cell.Bool? && ComparedAlike(ops, cell, one, other) && !Before(ops, other, one)
    ensures BetweenBounds(ops, cell, one, other)
            <==> CompareOrdered(ops, cell, one, Gte) && CompareOrdered(ops, cell, other, Lte)
  {
    if AsNumber(ops, one).Some? && AsNumber(ops, other).Some? {
      BetweenNumbers(ops, cell, one, other);
    } else {
      BetweenTexts(ops, cell, one, other);
    }
  }

  lemma BetweenNumbers(ops: TextOps, cell: Value, one: Value, other: Value)
    requires !cell.Bool? && !Before(ops, other, one)
    requires AsNumber(ops, one).Some? && AsNumber(ops, other).Some? && AsNumber(ops, cell).Some?
    ensures BetweenBounds(ops, cell, one, other)
            <==> CompareOrdered(ops, cell, one, Gte) && CompareOrdered(ops, cell, other, Lte)
  {
    BetweenAsNumbers(ops, cell, one, other);
    OrderedAsNumbers(ops, cell, one);
    OrderedAsNumbers(ops, cell, other);
  }

  lemma OrderedAsNumbers(ops: TextOps, cell: Value, bound: Value)
    requires !cell.Bool? && AsNumber(ops, cell).Some? && AsNumber(ops, bound).Some?
    ensures var n, b := AsNumber(ops, cell).value, AsNumber(ops, bound).value;
            && (CompareOrdered(ops, cell, bound, Gte) <==> !NumLess(n, b))
            && (CompareOrdered(ops, cell, bound, Lte) <==> !NumLess(b, n))
  {
    NumberOrderTotal(AsNumber(ops, cell).value, AsNumber(ops, bound).value);
  }

  lemma BetweenAsNumbers(ops: TextOps, cell: Value, one: Value, other: Value)
    requires AsNumber(ops, one).Some? && AsNumber(ops, other).Some? && AsNumber(ops, cell).Some?
    requires !Before(ops, other, one)
    ensures var low, high, n := AsNumber(ops, one).value, AsNumber(ops, other).value, AsNumber(ops, cell).value;
            BetweenBounds(ops, cell, one, other) <==> !NumLess(n, low) && !NumLess(high, n)
  {
  }

  lemma BetweenTexts(ops: TextOps, cell: Value, one: Value, other: Value)
    requires !cell.Bool? && !Before(ops, other, one)
    requires AsNumber(ops, one).None? || AsNumber(ops, other).None?
    requires AsNumber(ops, cell).Some? ==> AsNumber(ops, one).None? && AsNumber(ops, other).None?
    ensures BetweenBounds(ops, cell, one, other)
            <==> CompareOrdered(ops, cell, one, Gte) && CompareOrdered(ops, cell, other, Lte)
  {
    BetweenAsText(ops, cell, one, other);
    OrderedAsText(ops, cell, one);
    OrderedAsText(ops, cell, other);
  }

  lemma OrderedAsText(ops: TextOps, cell: Value, bound: Value)
    requires !cell.Bool? && (AsNumber(ops, cell).None? || AsNumber(ops, bound).None?)
    ensures CompareOrdered(ops, cell, bound, Gte) <==> TextAtMost(AsText(bound), AsText(cell))
    ensures CompareOrdered(ops, cell, bound, Lte) <==> TextAtMost(AsText(cell), AsText(bound))
  {
  }

  lemma BetweenAsText(ops: TextOps, cell: Value, one: Value, other: Value)
    requires AsNumber(ops, one).None? || AsNumber(ops, other).None?
    requires !Before(ops, other, one)
    ensures BetweenBounds(ops, cell, one, other)
            <==> TextAtMost(AsText(one), AsText(cell)) && TextAtMost(AsText(cell), AsText(other))
  {
  }

  /** When neither bound is below the other they are equal, and any number compares alike with both. */
  lemma EqualBoundsAgree(n: Decimal, a: Decimal, b: Decimal)
    ensures !(NumLess(a, b) && NumLess(b, a))
    ensures !NumLess(a, b) && !NumLess(b, a) ==>
              (NumLess(n, a) <==> NumLess(n, b)) && (NumLess(a, n) <==> NumLess(b, n))
  {
    var unit := Min(n.exp, Min(a.exp, b.exp));
    CompareAtAnyUnit(a, b, unit);
    CompareAtAnyUnit(n, a, unit);
    CompareAtAnyUnit(n, b, unit);
    CompareAtAnyUnit(b, a, unit);
    CompareAtAnyUnit(a, n, unit);
    CompareAtAnyUnit(b, n, unit);
  }

  /** For a present, non-boolean cell exactly one of `lt`, `eq`, `gt` holds, unless cell and value are two
      different spellings of one truth value: `yes` equals `true`, and the text order still separates them. */
  lemma ExactlyOneOrder(ops: TextOps, cell: Value, value: Option<string>)
    requires Lawful(ops) && Faithful(ops) && !cell.Null? && !cell.Bool?
    ensures var c := Condition("", Eq, value, None, None);
            var lt, eq, gt := Holds(ops, c.(op := Lt), cell), Holds(ops, c, cell), Holds(ops, c.(op := Gt), cell);
            var alias := IsBoolWord(ops, cell) && IsBoolWord(ops, Expected(value))
                         && AsBool(ops, cell) == AsBool(ops, Expected(value));
            var spelledAlike := Level(ops, cell, Expected(value));
            ((if lt then 1 else 0) + (if eq then 1 else 0) + (if gt then 1 else 0) == 1) <==> (alias ==> spelledAlike)
  {
    var e := Expected(value);
    OrderIsTotal(ops, cell, e);
    if IsBoolWord(ops, cell) && IsBoolWord(ops, e) {
      WordsCompareAsText(ops, cell, e);
    }
  }

  lemma OrderIsTotal(ops: TextOps, a: Value, b: Value)
    requires Lawful(ops)
    ensures Before(ops, a, b) || Level(ops, a, b) || Before(ops, b, a)
    ensures !(Before(ops, a, b) && Before(ops, b, a))
    ensures Level(ops, a, b) ==> !Before(ops, a, b) && !Before(ops, b, a)
  {
    TextOrderTotal(AsText(a), AsText(b));
    if AsNumber(ops, a).Some? && AsNumber(ops, b).Some? {
      NumberOrderTotal(AsNumber(ops, a).value, AsNumber(ops, b).value);
    }
  }

  lemma NumberOrderTotal(a: Decimal, b: Decimal)
    ensures NumLess(a, b) || NumEq(a, b) || NumLess(b, a)
    ensures !(NumLess(a, b) && NumLess(b, a)) && (NumEq(a, b) ==> !NumLess(a, b) && !NumLess(b, a))
  {
  }

  /** No boolean word is a number, so level words are one and the same text. */
  lemma WordsCompareAsText(ops: TextOps, a: Value, b: Value)
    requires Faithful(ops) && IsBoolWord(ops, a) && IsBoolWord(ops, b)
    ensures Level(ops, a, b) <==> a == b
  {
  }
}
