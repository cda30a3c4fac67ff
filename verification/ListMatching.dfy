/** How a list decides a cell is a member: keys, boolean tokens and member sets.
    Text handling (trimming, case-folding, reading a number) is a parameter with stated
    laws, so nothing here depends on Unicode tables. */
module ListMatching {
  import opened Wrappers
  import opened Strings
  import opened DecimalKey

  // --- values -------------------------------------------------------------

  /** A result cell after JSON coercion, or a rule's typed value. `Float` and `Other` (a nested
      array or object) carry the text that `str` gives them. */
  datatype Value = Null | Bool(b: bool) | Int(n: int) | Float(repr: string) | Text(s: string) | Other(repr: string)

  /** Trimming, case-folding, lower-casing, and reading a trimmed text as a finite decimal. */
  datatype TextOps = TextOps(
    strip: string -> string,
    fold: string -> string,
    lower: string -> string,
    parse: string -> Option<Decimal>)

  const TRUE_WORDS: set<string> := {"true", "t", "yes", "y"}
  const FALSE_WORDS: set<string> := {"false", "f", "no", "n"}

  /** Trimming is idempotent, folding invents and loses no blank, and reading gives well-formed decimals. */
  ghost predicate Lawful(ops: TextOps)
  {
    && (forall s {:trigger ops.strip(ops.strip(s))} :: ops.strip(ops.strip(s)) == ops.strip(s))
    && ops.strip("") == ""
    && (forall s :: ops.fold(s) == "" <==> s == "")
    && (forall s :: ops.parse(s).Some? ==> Valid(ops.parse(s).value))
  }

  /** Some text reads as this number: it is within the range a decimal can have. */
  ghost predicate Readable(ops: TextOps, d: Decimal) { exists t :: ops.parse(t) == Some(d) }

  /** What matching further needs: what lower-cases to a boolean word folds to the same word and is no number, a text
      that folds to the key of a readable number is itself read as a number, and an integer's text has no blanks. */
  ghost predicate Faithful(ops: TextOps)
  {
    && (forall s :: ops.lower(s) in TRUE_WORDS + FALSE_WORDS ==> ops.fold(s) == ops.lower(s) && ops.parse(s).None?)
    && (forall s, d :: Readable(ops, d) && ops.fold(s) == NumberKey(d) ==> ops.parse(s).Some?)
    && (forall n :: ops.strip(IntToString(n)) == IntToString(n))
  }

  function DigitsOf(n: nat): (ds: seq<Digit>)
    ensures |ds| > 0 && (ds == [0] || ds[0] != 0)
    ensures n > 0 ==> ds[0] != 0
    ensures Coefficient(ds) == n
  {
    if n < 10 then
      assert [n][..0] == [];
      [n]
    else
      var front := DigitsOf(n / 10);
      assert (front + [n % 10])[..|front|] == front;
      front + [n % 10]
  }

  function DecimalOfInt(n: int): (d: Decimal)
    ensures Valid(d)
  {
    Decimal(n < 0, DigitsOf(if n < 0 then -n else n), 0)
  }

  /** What JSON coercion guarantees of a cell: an integer's text reads back as that integer, a float is finite, and a
      nested value's text is no number. */
  ghost predicate ValidCell(ops: TextOps, cell: Value)
  {
    match cell
    case Int(n) => ops.parse(IntToString(n)) == Some(DecimalOfInt(n))
    case Float(repr) => ops.strip(repr) == repr && ops.parse(repr).Some?
    case Other(repr) => ops.parse(ops.strip(repr)).None?
    case _ => true
  }

  // --- coercions ----------------------------------------------------------

  function AsNumber(ops: TextOps, v: Value): Option<Decimal>
  {
    match v
    case Null => None
    case Bool(_) => None
    case Int(n) => Some(DecimalOfInt(n))
    case Float(repr) => ops.parse(repr)
    case Text(s) => if ops.strip(s) == "" then None else ops.parse(ops.strip(s))
    case Other(_) => None
  }

  function AsText(v: Value): string
  {
    match v
    case Null => ""
    case Bool(b) => if b then "true" else "false"
    case Int(n) => IntToString(n)
    case Float(repr) => repr
    case Text(s) => s
    case Other(repr) => repr
  }

  function AsBool(ops: TextOps, v: Value): Option<bool>
  {
    match v
    case Bool(b) => Some(b)
    case Int(n) => if n == 0 then Some(false) else if n == 1 then Some(true) else None
    case Text(s) =>
      var text := ops.lower(ops.strip(s));
      if text in TRUE_WORDS || text == "1" then Some(true)
      else if text in FALSE_WORDS || text == "0" then Some(false)
      else None
    case _ => None
  }

  predicate IsBoolWord(ops: TextOps, v: Value)
  {
    v.Text? && ops.lower(ops.strip(v.s)) in TRUE_WORDS + FALSE_WORDS
  }

  // --- keys and member sets ------------------------------------------------

  /** `list_key`: a number's exact digits, otherwise the trimmed, case-folded text. */
  function ListKey(ops: TextOps, v: Value): string
  {
    var number := AsNumber(ops, v);
    if number.Some? then NumberKey(number.value)
    else if v.Null? then ""
    else if v.Bool? then AsText(v)
    else ops.fold(ops.strip(AsText(v)))
  }

  /** A set member: a key, or one of the two kinds of token that let an item match boolean cells. */
  datatype Member = Key(key: string) | BoolToken(b: bool) | WordToken(b: bool)

  function Tokens(ops: TextOps, item: string): set<Member>
  {
    var flag := AsBool(ops, Text(item));
    (if flag.Some? then {BoolToken(flag.value)} else {})
    + (if flag.Some? && IsBoolWord(ops, Text(item)) then {WordToken(flag.value)} else {})
  }

  /** What one item contributes. A blank item contributes nothing. */
  function ItemMembers(ops: TextOps, item: string): set<Member>
  {
    var key := ListKey(ops, Text(item));
    if key == "" then {} else {Key(key)} + Tokens(ops, item)
  }

  /** The specification of a member set: everything the items contribute. */
  ghost function MembersOf(ops: TextOps, items: seq<string>): set<Member>
  {
    UnionOf((item: string) => ItemMembers(ops, item), items)
  }

  ghost function UnionOf(f: string -> set<Member>, items: seq<string>): set<Member>
  {
    if items == [] then {} else UnionOf(f, items[..|items| - 1]) + f(items[|items| - 1])
  }

  lemma {:induction false} InUnionOf(f: string -> set<Member>, items: seq<string>, m: Member)
    ensures m in UnionOf(f, items) <==> exists i :: 0 <= i < |items| && m in f(items[i])
  {
    if items != [] {
      var front := items[..|items| - 1];
      InUnionOf(f, front, m);
      assert forall i :: 0 <= i < |front| ==> items[i] == front[i];
    }
  }

  /** A member set holds exactly what some item contributes, whatever the order or repetition of the items. */
  lemma MemberIff(ops: TextOps, items: seq<string>, m: Member)
    ensures m in MembersOf(ops, items) <==> exists i :: 0 <= i < |items| && m in ItemMembers(ops, items[i])
  {
    InUnionOf((item: string) => ItemMembers(ops, item), items, m);
  }

  /** `members_from_items`, the loop. */
  method MembersFromItems(ops: TextOps, items: seq<string>) returns (keys: set<Member>)
    requires Lawful(ops)
    ensures keys == MembersOf(ops, items)
  {
    keys := {};
    for n := 0 to |items|
      invariant keys == MembersOf(ops, items[..n])
    {
      var key := ListKey(ops, Text(items[n]));
      assert items[..n + 1][..n] == items[..n];
      if key != "" {
        keys := keys + {Key(key)} + Tokens(ops, items[n]);
      }
    }
    assert items[..|items|] == items;
  }

  predicate IsMember(ops: TextOps, members: set<Member>, cell: Value)
  {
    if Key(ListKey(ops, cell)) in members then true
    else if cell.Bool? then BoolToken(cell.b) in members
    else if IsBoolWord(ops, cell) && AsBool(ops, cell).Some? then WordToken(AsBool(ops, cell).value) in members
    else false
  }

  // --- cleaning ------------------------------------------------------------

  /** The full match signature of one item: what `_clean_items` de-duplicates on. */
  function Signature(ops: TextOps, item: string): set<Member>
  {
    {Key(ListKey(ops, Text(item)))} + Tokens(ops, item)
  }

  lemma SignatureOfTrimmed(ops: TextOps, item: string)
    requires Lawful(ops)
    ensures ItemMembers(ops, ops.strip(item)) == ItemMembers(ops, item)
    ensures ops.strip(item) == "" <==> ListKey(ops, Text(item)) == ""
    ensures ops.strip(item) != "" ==> ItemMembers(ops, item) == Signature(ops, ops.strip(item))
  {
    TrimmedItem(ops, item);
    BlankKey(ops, item);
    BlankKey(ops, ops.strip(item));
  }

  /** Reading an item is unchanged by trimming it first. */
  lemma TrimmedItem(ops: TextOps, item: string)
    requires Lawful(ops)
    ensures ops.strip(ops.strip(item)) == ops.strip(item)
    ensures AsNumber(ops, Text(ops.strip(item))) == AsNumber(ops, Text(item))
    ensures IsBoolWord(ops, Text(ops.strip(item))) == IsBoolWord(ops, Text(item))
    ensures AsBool(ops, Text(ops.strip(item))) == AsBool(ops, Text(item))
  {
  }

  lemma BlankKey(ops: TextOps, item: string)
    requires Lawful(ops)
    ensures ops.strip(item) == "" <==> ListKey(ops, Text(item)) == ""
    ensures ListKey(ops, Text(ops.strip(item))) == ListKey(ops, Text(item))
  {
    TrimmedItem(ops, item);
    var number := AsNumber(ops, Text(item));
    if number.Some? {
      KeyStartsLikeANumber(number.value);
    }
  }

  /** `v` is the first trimmed item of `items` with its signature. */
  ghost predicate FirstSpelling(ops: TextOps, items: seq<string>, v: string)
    requires Lawful(ops)
  {
    exists i: nat :: i < |items| && ops.strip(items[i]) == v && NoneLike(ops, items[..i], v)
  }

  ghost predicate NoneLike(ops: TextOps, items: seq<string>, v: string)
    requires Lawful(ops)
  {
    forall j :: 0 <= j < |items| ==> ops.strip(items[j]) == "" || Signature(ops, ops.strip(items[j])) != Signature(ops, v)
  }

  /** What cleaning keeps, item by item: trimmed, not blank, and unlike everything kept before it. */
  ghost function Cleaned(ops: TextOps, items: seq<string>): seq<string>
    requires Lawful(ops)
  {
    if items == [] then
      []
    else
      var kept, value := Cleaned(ops, items[..|items| - 1]), ops.strip(items[|items| - 1]);
      if value == "" || Signature(ops, value) in Signatures(ops, kept) then kept else kept + [value]
  }

  /** Cleaning keeps the member set: the kept items match exactly the cells that all the items did. */
  lemma CleanedMatchesTheSame(ops: TextOps, items: seq<string>)
    requires Lawful(ops)
    ensures MembersOf(ops, Cleaned(ops, items)) == MembersOf(ops, items)
  {
    var _ := CleanedSignatures(ops, items);
  }

  lemma {:induction false} CleanedSignatures(ops: TextOps, items: seq<string>) returns (seen: set<set<Member>>)
    requires Lawful(ops)
    ensures CleanedSoFar(ops, items, Cleaned(ops, items), seen)
  {
    seen := {};
    if items != [] {
      var n := |items| - 1;
      seen := CleanedSignatures(ops, items[..n]);
      assert items == items[..n] + [items[n]];
      seen := SignaturesWith(ops, items[..n], items[n], seen);
    }
  }

  lemma SignaturesWith(ops: TextOps, done: seq<string>, item: string, seen: set<set<Member>>) returns (more: set<set<Member>>)
    requires Lawful(ops) && CleanedSoFar(ops, done, Cleaned(ops, done), seen)
    ensures CleanedSoFar(ops, done + [item], Cleaned(ops, done + [item]), more)
  {
    var kept, value := Cleaned(ops, done), ops.strip(item);
    assert (done + [item])[..|done|] == done;
    assert Signature(ops, value) in seen <==> Signature(ops, value) in Signatures(ops, kept);
    CleanOne(ops, done, item, kept, seen);
    more := if value == "" || Signature(ops, value) in seen then seen else seen + {Signature(ops, value)};
  }

  /** `_clean_items`: trim, drop blanks, keep the first item of each signature. `limit` is the
      configured maximum; a longer submission is refused. The kept items match exactly the same cells. */
  method CleanItems(ops: TextOps, items: seq<string>, limit: nat) returns (r: Result<seq<string>, nat>)
    requires Lawful(ops)
    ensures r.Err? <==> |items| > limit
    ensures r.Err? ==> r.error == |items|
    ensures r.Ok? ==> r.value == Cleaned(ops, items)
    ensures r.Ok? ==> MembersOf(ops, r.value) == MembersOf(ops, items)
    ensures r.Ok? ==> Trimmed(ops, r.value)
    ensures r.Ok? ==> forall k :: 0 <= k < |r.value| ==> FirstSpelling(ops, items, r.value[k])
    ensures r.Ok? ==> forall i, j :: 0 <= i < j < |r.value| ==> Signature(ops, r.value[i]) != Signature(ops, r.value[j])
  {
    if |items| > limit {
      return Err(|items|);
    }
    var kept, seen := CleanAll(ops, items);
    CleaningDone(ops, items, kept, seen);
    r := Ok(kept);
  }

  /** The loop itself. */
  method CleanAll(ops: TextOps, items: seq<string>) returns (kept: seq<string>, seen: set<set<Member>>)
    requires Lawful(ops)
    ensures CleaningState(ops, items, kept, seen)
  {
    kept, seen := [], {};
    CleaningStarts(ops);
    assert items[..0] == [];
    for n := 0 to |items|
      invariant CleaningState(ops, items[..n], kept, seen)
    {
      kept, seen := CleanItem(ops, items[..n], items[n], kept, seen);
      assert items[..n + 1] == items[..n] + [items[n]];
    }
    assert items[..|items|] == items;
  }

  ghost predicate CleaningState(ops: TextOps, done: seq<string>, kept: seq<string>, seen: set<set<Member>>)
    requires Lawful(ops)
  {
    kept == Cleaned(ops, done) && CleanedSoFar(ops, done, kept, seen) && FirstSoFar(ops, done, kept, seen)
  }

  lemma CleaningStarts(ops: TextOps)
    requires Lawful(ops)
    ensures CleaningState(ops, [], [], {})
  {
  }

  lemma CleaningDone(ops: TextOps, items: seq<string>, kept: seq<string>, seen: set<set<Member>>)
    requires Lawful(ops) && CleaningState(ops, items, kept, seen)
    ensures kept == Cleaned(ops, items) && MembersOf(ops, kept) == MembersOf(ops, items) && Trimmed(ops, kept)
    ensures forall k :: 0 <= k < |kept| ==> FirstSpelling(ops, items, kept[k])
    ensures forall i, j :: 0 <= i < j < |kept| ==> Signature(ops, kept[i]) != Signature(ops, kept[j])
  {
    assert forall i :: 0 <= i < |kept| ==> Signatures(ops, kept)[i] == Signature(ops, kept[i]);
  }

  /** One pass of the cleaning loop; `done` is what was already looked at. */
  method CleanItem(ops: TextOps, ghost done: seq<string>, item: string, kept: seq<string>, seen: set<set<Member>>)
    returns (kept': seq<string>, seen': set<set<Member>>)
    requires Lawful(ops) && CleaningState(ops, done, kept, seen)
    ensures CleaningState(ops, done + [item], kept', seen')
  {
    kept', seen' := kept, seen;
    var value := ops.strip(item);
    FirstOne(ops, done, item, kept, seen);
    CleanOne(ops, done, item, kept, seen);
    assert (done + [item])[..|done|] == done;
    if value != "" {
      var signature := Signature(ops, value);
      if signature !in seen {
        seen' := seen + {signature};
        kept' := kept + [value];
      }
    }
  }

  /** The loop's state after `done`: trimmed non-blank items of distinct signatures, matching what `done` matches. */
  ghost predicate CleanedSoFar(ops: TextOps, done: seq<string>, kept: seq<string>, seen: set<set<Member>>)
    requires Lawful(ops)
  {
    Trimmed(ops, kept) && Tracks(seen, Signatures(ops, kept)) && MembersOf(ops, kept) == MembersOf(ops, done)
  }

  lemma CleanOne(ops: TextOps, done: seq<string>, item: string, kept: seq<string>, seen: set<set<Member>>)
    requires Lawful(ops) && CleanedSoFar(ops, done, kept, seen)
    ensures var value := ops.strip(item);
            if value == "" || Signature(ops, value) in seen then CleanedSoFar(ops, done + [item], kept, seen)
            else CleanedSoFar(ops, done + [item], kept + [value], seen + {Signature(ops, value)})
  {
    var value := ops.strip(item);
    AppendedItem(ops, done, item);
    if value != "" {
      if Signature(ops, value) in seen {
        KeptCovers(ops, kept, seen, Signature(ops, value));
      } else {
        KeepOne(ops, kept, seen, value);
        KeptMembers(ops, kept, value);
      }
    }
  }

  /** Every non-blank item is accounted for in `seen`, and everything kept is a first spelling. */
  ghost predicate FirstSoFar(ops: TextOps, done: seq<string>, kept: seq<string>, seen: set<set<Member>>)
    requires Lawful(ops)
  {
    && (forall j :: 0 <= j < |done| ==> ops.strip(done[j]) == "" || Signature(ops, ops.strip(done[j])) in seen)
    && (forall k :: 0 <= k < |kept| ==> FirstSpelling(ops, done, kept[k]))
  }

  lemma FirstOne(ops: TextOps, done: seq<string>, item: string, kept: seq<string>, seen: set<set<Member>>)
    requires Lawful(ops) && FirstSoFar(ops, done, kept, seen)
    ensures var value := ops.strip(item);
            if value == "" || Signature(ops, value) in seen then FirstSoFar(ops, done + [item], kept, seen)
            else FirstSoFar(ops, done + [item], kept + [value], seen + {Signature(ops, value)})
  {
    var value, more := ops.strip(item), done + [item];
    forall k | 0 <= k < |kept| ensures FirstSpelling(ops, more, kept[k]) {
      var i: nat :| i < |done| && ops.strip(done[i]) == kept[k] && NoneLike(ops, done[..i], kept[k]);
      assert more[..i] == done[..i] && more[i] == done[i];
    }
    if value != "" && Signature(ops, value) !in seen {
      assert more[|done|] == item && more[..|done|] == done && NoneLike(ops, done, value);
    }
  }

  lemma AppendedItem(ops: TextOps, done: seq<string>, item: string)
    requires Lawful(ops)
    ensures var value := ops.strip(item);
            MembersOf(ops, done + [item]) == MembersOf(ops, done) + (if value == "" then {} else Signature(ops, value))
  {
    assert (done + [item])[..|done|] == done;
    SignatureOfTrimmed(ops, item);
  }

  ghost function Signatures(ops: TextOps, kept: seq<string>): seq<set<Member>>
    requires Lawful(ops)
  {
    seq(|kept|, i requires 0 <= i < |kept| => Signature(ops, kept[i]))
  }

  /** `seen` holds exactly the elements of `xs`, which are distinct. */
  ghost predicate Tracks<T(!new)>(seen: set<T>, xs: seq<T>)
  {
    (forall x :: x in seen <==> x in xs) && (forall i, j :: 0 <= i < j < |xs| ==> xs[i] != xs[j])
  }

  lemma TrackOne<T(!new)>(seen: set<T>, xs: seq<T>, x: T)
    requires Tracks(seen, xs) && x !in seen
    ensures Tracks(seen + {x}, xs + [x])
  {
  }

  ghost predicate Trimmed(ops: TextOps, kept: seq<string>)
  {
    forall i :: 0 <= i < |kept| ==> kept[i] != "" && ops.strip(kept[i]) == kept[i]
  }

  lemma KeepOne(ops: TextOps, kept: seq<string>, seen: set<set<Member>>, value: string)
    requires Lawful(ops) && Tracks(seen, Signatures(ops, kept))
    requires Signature(ops, value) !in seen
    ensures Tracks(seen + {Signature(ops, value)}, Signatures(ops, kept + [value]))
  {
    TrackOne(seen, Signatures(ops, kept), Signature(ops, value));
    assert (kept + [value])[..|kept|] == kept;
    assert Signatures(ops, kept + [value]) == Signatures(ops, kept) + [Signature(ops, value)];
  }

  lemma KeptMembers(ops: TextOps, kept: seq<string>, value: string)
    requires Lawful(ops) && value != "" && ops.strip(value) == value
    ensures MembersOf(ops, kept + [value]) == MembersOf(ops, kept) + Signature(ops, value)
  {
    assert (kept + [value])[..|kept|] == kept;
    SignatureOfTrimmed(ops, value);
  }

  lemma KeptCovers(ops: TextOps, kept: seq<string>, seen: set<set<Member>>, signature: set<Member>)
    requires Lawful(ops) && Trimmed(ops, kept) && Tracks(seen, Signatures(ops, kept))
    requires signature in seen
    ensures signature <= MembersOf(ops, kept)
  {
    var i: nat :| i < |kept| && Signatures(ops, kept)[i] == signature;
    SignatureOfTrimmed(ops, kept[i]);
    ItemCovered(ops, kept, i);
  }

  lemma ItemCovered(ops: TextOps, items: seq<string>, i: nat)
    requires Lawful(ops) && i < |items|
    ensures ItemMembers(ops, items[i]) <= MembersOf(ops, items)
  {
    forall m | m in ItemMembers(ops, items[i]) ensures m in MembersOf(ops, items) {
      MemberIff(ops, items, m);
    }
  }
}
