/** One set lookup in a named list against the linear scan of a typed `in` list. */
module ListRefinement {
  import opened Wrappers
  import opened Strings
  import opened DecimalKey
  import opened ListMatching
  import opened FlagConditions

  /** The folded text a cell is compared by; a real boolean is compared by its own word. */
  function FoldedText(ops: TextOps, cell: Value): string
  {
    if cell.Bool? then AsText(cell) else ops.fold(ops.strip(AsText(cell)))
  }

  /** The one deliberate difference: a cell that is no number also matches an item by folded text. */
  predicate FoldMatch(ops: TextOps, item: string, cell: Value)
  {
    AsNumber(ops, cell).None? && AsNumber(ops, Text(item)).None? && FoldedText(ops, cell) == ops.fold(ops.strip(item))
  }

  predicate ItemMatches(ops: TextOps, item: string, cell: Value)
  {
    Equals(ops, cell, Text(ops.strip(item))) || FoldMatch(ops, item, cell)
  }

  lemma WordsStartWithLetters(w: string)
    requires w in TRUE_WORDS + FALSE_WORDS
    ensures w != "" && w[0] != '-' && !IsDigit(w[0])
  {
  }

  /** A key collision between a number and a text that is not one cannot happen. */
  lemma KeyKind(ops: TextOps, v: Value, d: Decimal)
    requires Lawful(ops) && Faithful(ops) && ValidCell(ops, v)
    requires Valid(d) && Readable(ops, d) && AsNumber(ops, v).None? && !v.Bool?
    ensures ListKey(ops, v) != NumberKey(d)
  {
    KeyStartsLikeANumber(d);
  }

  lemma NumbersAreReadable(ops: TextOps, v: Value)
    requires ValidCell(ops, v)
    ensures AsNumber(ops, v).Some? ==> Readable(ops, AsNumber(ops, v).value)
  {
  }

  lemma TextsAgreeOnNumbers(ops: TextOps, cell: Value, m: string)
    requires Lawful(ops) && Faithful(ops) && ValidCell(ops, cell) && !cell.Null? && !cell.Bool?
    requires m != "" && ops.strip(m) == m
    requires AsText(cell) == m
    ensures AsNumber(ops, cell).Some? <==> AsNumber(ops, Text(m)).Some?
  {
  }

  /** For one non-boolean cell and one item, equal keys mean equality or a fold match. */
  lemma SameKeyMeansMatch(ops: TextOps, item: string, cell: Value)
    requires Lawful(ops) && Faithful(ops) && ValidCell(ops, cell) && !cell.Null? && !cell.Bool?
    requires ops.strip(item) != ""
    requires !(IsBoolWord(ops, cell) && IsBoolWord(ops, Text(item)))
    ensures ListKey(ops, cell) == ListKey(ops, Text(item)) <==> ItemMatches(ops, item, cell)
  {
    var x, y := AsNumber(ops, cell), AsNumber(ops, Text(item));
    if x.Some? && y.Some? {
      BothNumbers(ops, item, cell);
    } else if x.Some? || y.Some? {
      OneNumber(ops, item, cell);
    } else {
      NoNumbers(ops, item, cell);
    }
  }

  lemma BothNumbers(ops: TextOps, item: string, cell: Value)
    requires Lawful(ops) && !cell.Bool?
    requires AsNumber(ops, cell).Some? && AsNumber(ops, Text(item)).Some?
    requires !(IsBoolWord(ops, cell) && IsBoolWord(ops, Text(item)))
    ensures ListKey(ops, cell) == ListKey(ops, Text(item)) <==> ItemMatches(ops, item, cell)
  {
    TrimmedItem(ops, item);
    KeyIsNumericEquality(AsNumber(ops, cell).value, AsNumber(ops, Text(item)).value);
  }

  lemma OneNumber(ops: TextOps, item: string, cell: Value)
    requires Lawful(ops) && Faithful(ops) && ValidCell(ops, cell) && !cell.Null? && !cell.Bool?
    requires ops.strip(item) != ""
    requires AsNumber(ops, cell).Some? != AsNumber(ops, Text(item)).Some?
    requires !(IsBoolWord(ops, cell) && IsBoolWord(ops, Text(item)))
    ensures ListKey(ops, cell) != ListKey(ops, Text(item)) && !ItemMatches(ops, item, cell)
  {
    NumbersAreReadable(ops, cell);
    NumbersAreReadable(ops, Text(item));
    if AsNumber(ops, cell).Some? {
      KeyKind(ops, Text(item), AsNumber(ops, cell).value);
    } else {
      KeyKind(ops, cell, AsNumber(ops, Text(item)).value);
    }
    OneNumberNoMatch(ops, item, cell);
  }

  lemma OneNumberNoMatch(ops: TextOps, item: string, cell: Value)
    requires Lawful(ops) && Faithful(ops) && ValidCell(ops, cell) && !cell.Null? && !cell.Bool?
    requires ops.strip(item) != ""
    requires AsNumber(ops, cell).Some? != AsNumber(ops, Text(item)).Some?
    requires !(IsBoolWord(ops, cell) && IsBoolWord(ops, Text(item)))
    ensures !ItemMatches(ops, item, cell)
  {
    TrimmedItem(ops, item);
    if AsText(cell) == ops.strip(item) {
      TextsAgreeOnNumbers(ops, cell, ops.strip(item));
    }
  }

  lemma NoNumbers(ops: TextOps, item: string, cell: Value)
    requires Lawful(ops) && ValidCell(ops, cell) && !cell.Null? && !cell.Bool?
    requires AsNumber(ops, cell).None? && AsNumber(ops, Text(item)).None?
    requires !(IsBoolWord(ops, cell) && IsBoolWord(ops, Text(item)))
    ensures ListKey(ops, cell) == ListKey(ops, Text(item)) <==> ItemMatches(ops, item, cell)
  {
  }

  lemma TruthKey(ops: TextOps, item: string, b: bool)
    requires ListKey(ops, Text(item)) == AsText(Bool(b))
    ensures AsNumber(ops, Text(item)).None?
  {
    WordsStartWithLetters(AsText(Bool(b)));
    var number := AsNumber(ops, Text(item));
    if number.Some? {
      KeyStartsLikeANumber(number.value);
    }
  }

  lemma BoolCell(ops: TextOps, item: string, b: bool)
    requires Lawful(ops) && ops.strip(item) != ""
    ensures IsMember(ops, ItemMembers(ops, item), Bool(b)) <==> ItemMatches(ops, item, Bool(b))
  {
    BlankKey(ops, item);
    TrimmedItem(ops, item);
    TokensOfItem(ops, item);
    if ListKey(ops, Text(item)) == AsText(Bool(b)) {
      TruthKey(ops, item, b);
    }
  }

  lemma WordCell(ops: TextOps, item: string, cell: Value)
    requires Lawful(ops) && Faithful(ops) && ops.strip(item) != ""
    requires IsBoolWord(ops, cell) && IsBoolWord(ops, Text(item))
    ensures IsMember(ops, ItemMembers(ops, item), cell) <==> ItemMatches(ops, item, cell)
  {
  }

  /** One item's contribution catches a cell exactly when the item matches it. */
  lemma OneItem(ops: TextOps, item: string, cell: Value)
    requires Lawful(ops) && Faithful(ops) && ValidCell(ops, cell) && !cell.Null?
    requires ops.strip(item) != ""
    ensures IsMember(ops, ItemMembers(ops, item), cell) <==> ItemMatches(ops, item, cell)
  {
    if cell.Bool? {
      BoolCell(ops, item, cell.b);
    } else if IsBoolWord(ops, cell) && IsBoolWord(ops, Text(item)) {
      WordCell(ops, item, cell);
    } else {
      PlainCell(ops, item, cell);
      SameKeyMeansMatch(ops, item, cell);
    }
  }

  /** Away from booleans the tokens play no part. */
  lemma PlainCell(ops: TextOps, item: string, cell: Value)
    requires Lawful(ops) && !cell.Bool? && ops.strip(item) != ""
    requires !(IsBoolWord(ops, cell) && IsBoolWord(ops, Text(item)))
    ensures IsMember(ops, ItemMembers(ops, item), cell) <==> ListKey(ops, cell) == ListKey(ops, Text(item))
  {
  }

  lemma TokensOfItem(ops: TextOps, item: string)
    ensures forall k :: Key(k) !in Tokens(ops, item)
    ensures forall b :: WordToken(b) in Tokens(ops, item) ==> IsBoolWord(ops, Text(item))
    ensures forall b :: BoolToken(b) in Tokens(ops, item) <==> AsBool(ops, Text(item)) == Some(b)
  {
  }

  predicate AnyMatches(ops: TextOps, items: seq<string>, cell: Value)
  {
    exists i :: 0 <= i < |items| && ItemMatches(ops, items[i], cell)
  }

  lemma MemberOfUnion(ops: TextOps, a: set<Member>, b: set<Member>, cell: Value)
    requires Lawful(ops)
    ensures IsMember(ops, a + b, cell) <==> IsMember(ops, a, cell) || IsMember(ops, b, cell)
    ensures !IsMember(ops, {}, cell)
  {
  }

  lemma AnyMatchesSplit(ops: TextOps, items: seq<string>, cell: Value)
    requires items != []
    ensures AnyMatches(ops, items, cell)
            <==> AnyMatches(ops, items[..|items| - 1], cell) || ItemMatches(ops, items[|items| - 1], cell)
  {
  }

  lemma {:induction false} MembersMatch(ops: TextOps, items: seq<string>, cell: Value)
    requires Lawful(ops) && Faithful(ops) && ValidCell(ops, cell) && !cell.Null?
    requires forall i :: 0 <= i < |items| ==> ops.strip(items[i]) != ""
    ensures IsMember(ops, MembersOf(ops, items), cell) <==> AnyMatches(ops, items, cell)
  {
    if items == [] {
      MemberOfUnion(ops, {}, {}, cell);
    } else {
      var front, last := items[..|items| - 1], items[|items| - 1];
      MembersMatch(ops, front, cell);
      MemberOfUnion(ops, MembersOf(ops, front), ItemMembers(ops, last), cell);
      OneItem(ops, last, cell);
      AnyMatchesSplit(ops, items, cell);
    }
  }

  /** `in_list`, exactly: the set lookup succeeds when some item equals the cell by the rules of `in`,
      or is the same text up to trimming and case. */
  lemma InListExactly(ops: TextOps, items: seq<string>, cell: Value)
    requires Lawful(ops) && Faithful(ops) && ValidCell(ops, cell) && !cell.Null?
    requires forall i :: 0 <= i < |items| ==> ops.strip(items[i]) != ""
    ensures Holds(ops, Condition("", InList, None, None, Some(MembersOf(ops, items))), cell)
            <==> AnyMatches(ops, items, cell)
  {
    MembersMatch(ops, items, cell);
    InListIsMembership(ops, MembersOf(ops, items), cell);
  }

  lemma InListIsMembership(ops: TextOps, members: set<Member>, cell: Value)
    requires Lawful(ops) && !cell.Null?
    ensures Holds(ops, Condition("", InList, None, None, Some(members)), cell) <==> IsMember(ops, members, cell)
  {
  }

  /** The typed list, exactly: `in` over the joined items succeeds when some trimmed item equals the cell. */
  lemma InExactly(ops: TextOps, items: seq<string>, cell: Value)
    requires Lawful(ops) && !cell.Null?
    requires forall i :: 0 <= i < |items| ==> ',' !in items[i] && ops.strip(items[i]) != ""
    ensures Holds(ops, Condition("", In, Some(Join(items, ',')), None, None), cell)
            <==> exists i :: 0 <= i < |items| && Equals(ops, cell, Text(ops.strip(items[i])))
  {
    var members := SplitList(ops, Some(Join(items, ',')));
    InIsScan(ops, Some(Join(items, ',')), cell);
    if k :| 0 <= k < |members| && Equals(ops, cell, Text(members[k])) {
      SplitListHas(ops, items, members[k]);
    }
    if i :| 0 <= i < |items| && Equals(ops, cell, Text(ops.strip(items[i]))) {
      SplitListHas(ops, items, ops.strip(items[i]));
      var k :| 0 <= k < |members| && members[k] == ops.strip(items[i]);
      assert Equals(ops, cell, Text(members[k]));
    }
  }

  lemma InIsScan(ops: TextOps, raw: Option<string>, cell: Value)
    requires Lawful(ops) && !cell.Null?
    ensures Holds(ops, Condition("", In, raw, None, None), cell) <==> AnyEquals(ops, cell, SplitList(ops, raw))
  {
  }

  lemma SplitListHas(ops: TextOps, items: seq<string>, m: string)
    requires Lawful(ops)
    requires forall i :: 0 <= i < |items| ==> ',' !in items[i] && ops.strip(items[i]) != ""
    ensures m in SplitList(ops, Some(Join(items, ','))) <==> exists i :: 0 <= i < |items| && ops.strip(items[i]) == m
  {
    if items != [] {
      SplitOnJoin(items, ',');
      TrimmedPartsHas(ops, items, m);
      JoinNotEmpty(items);
    }
  }

  lemma JoinNotEmpty(items: seq<string>)
    requires items != [] && items[0] != ""
    ensures Join(items, ',') != ""
  {
  }

  /** Moving a typed list into a named one never loses a match. */
  lemma InImpliesInList(ops: TextOps, items: seq<string>, cell: Value)
    requires Lawful(ops) && Faithful(ops) && ValidCell(ops, cell) && !cell.Null?
    requires forall i :: 0 <= i < |items| ==> ',' !in items[i] && ops.strip(items[i]) != ""
    ensures Holds(ops, Condition("", In, Some(Join(items, ',')), None, None), cell)
            ==> Holds(ops, Condition("", InList, None, None, Some(MembersOf(ops, items))), cell)
  {
    InExactly(ops, items, cell);
    InListExactly(ops, items, cell);
    if Holds(ops, Condition("", In, Some(Join(items, ',')), None, None), cell) {
      var i :| 0 <= i < |items| && Equals(ops, cell, Text(ops.strip(items[i])));
      assert ItemMatches(ops, items[i], cell);
    }
  }

  // --- the laws -----------------------------------------------------------------------------

  /** The laws asked of text handling do not contradict each other: plain texts, with integers and number keys read
      as numbers and nothing else, satisfy all of them. */
  lemma LawsAreConsistent()
    ensures exists ops :: Lawful(ops) && Faithful(ops) && forall n :: ValidCell(ops, Int(n))
  {
    PlainIsLawful();
    PlainReadsNoWords();
    PlainReadsNumbers();
    assert Faithful(Plain());
  }

  ghost function Plain(): TextOps
  {
    TextOps(Same, Same, Same, Reading)
  }

  lemma PlainIsLawful()
    ensures Lawful(Plain())
  {
  }

  lemma PlainReadsNoWords()
    ensures forall s :: Plain().lower(s) in TRUE_WORDS + FALSE_WORDS ==>
                          Plain().fold(s) == Plain().lower(s) && Plain().parse(s).None?
  {
    forall s | Plain().lower(s) in TRUE_WORDS + FALSE_WORDS
      ensures Plain().fold(s) == Plain().lower(s) && Plain().parse(s).None?
    {
      WordsAreNoNumbers(s);
    }
  }

  lemma PlainReadsNumbers()
    ensures forall s, d :: Readable(Plain(), d) && Plain().fold(s) == NumberKey(d) ==> Plain().parse(s).Some?
    ensures forall n :: ValidCell(Plain(), Int(n))
  {
    forall n ensures ValidCell(Plain(), Int(n)) {
      IntegerReads(n);
    }
  }

  function Same(s: string): string { s }

  ghost function Reading(s: string): (d: Option<Decimal>)
    ensures d.Some? ==> Valid(d.value)
  {
    if exists n :: IntToString(n) == s then
      var n :| IntToString(n) == s; Some(DecimalOfInt(n))
    else if exists d :: Valid(d) && NumberKey(d) == s then
      var d :| Valid(d) && NumberKey(d) == s; Some(d)
    else
      None
  }

  lemma IntegerReads(n: int)
    ensures Reading(IntToString(n)) == Some(DecimalOfInt(n))
  {
    var m :| IntToString(m) == IntToString(n) && Reading(IntToString(n)) == Some(DecimalOfInt(m));
    IntToStringInjective(m, n);
  }

  lemma WordsStartWithALetter(s: string)
    requires s in TRUE_WORDS + FALSE_WORDS
    ensures s != "" && s[0] in {'t', 'y', 'f', 'n'}
  {
  }

  lemma WordsAreNoNumbers(s: string)
    requires s in TRUE_WORDS + FALSE_WORDS
    ensures Reading(s).None?
  {
    WordsStartWithALetter(s);
    LettersAreNoNumbers(s);
  }

  lemma LettersAreNoNumbers(s: string)
    requires s != "" && s[0] in {'t', 'y', 'f', 'n'}
    ensures Reading(s).None?
  {
  }
}
