/** What is assumed of hashes can be met: definitions, results and texts can be written as texts of two symbols that
    no two of them share. Each code writes its value in front of a rest and can be read back off it. */
module HashLaws {
  import opened Wrappers
  import opened ListMatching
  import opened FlagEngine
  import opened Payloads
  import opened Dismissals
  import opened ChartDefinition

  ghost predicate Binary(s: string) { forall i :: 0 <= i < |s| ==> s[i] == '0' || s[i] == '1' }

  ghost predicate Separates<T>(put: (T, string) -> string, x: T, y: T, s: string, t: string)
  {
    put(x, s) == put(y, t) ==> x == y && s == t
  }

  ghost predicate IsCode<T(!new)>(put: (T, string) -> string)
  {
    && (forall x, y, s, t :: Separates(put, x, y, s, t))
    && (forall x, s :: Binary(s) ==> Binary(put(x, s)))
  }

  // --- numbers and sequences ----------------------------------------------------------

  function PutNat(n: nat, rest: string): string
  {
    if n == 0 then ['0'] + rest else ['1'] + PutNat(n - 1, rest)
  }

  function PutInt(n: int, rest: string): string
  {
    [if n < 0 then '1' else '0'] + PutNat(if n < 0 then -n else n, rest)
  }

  function PutChar(c: char, rest: string): string { PutNat(c as int, rest) }

  function PutSeq<T>(put: (T, string) -> string, xs: seq<T>, rest: string): string
  {
    if xs == [] then ['0'] + rest else ['1'] + put(xs[0], PutSeq(put, xs[1..], rest))
  }

  lemma {:induction false} NatSeparates(m: nat, n: nat, s: string, t: string)
    requires PutNat(m, s) == PutNat(n, t)
    ensures m == n && s == t
  {
    var a, b := PutNat(m, s), PutNat(n, t);
    assert a[1..] == b[1..] && a[0] == b[0];
    if m > 0 && n > 0 {
      NatSeparates(m - 1, n - 1, s, t);
    }
  }

  lemma {:induction false} NatIsBinary(n: nat, s: string)
    requires Binary(s)
    ensures Binary(PutNat(n, s))
  {
    if n > 0 {
      NatIsBinary(n - 1, s);
    }
  }

  lemma IntCode()
    ensures IsCode(PutInt)
  {
    forall m, n, s, t ensures Separates(PutInt, m, n, s, t) {
      if PutInt(m, s) == PutInt(n, t) {
        assert PutInt(m, s)[0] == PutInt(n, t)[0] && PutInt(m, s)[1..] == PutInt(n, t)[1..];
        NatSeparates(if m < 0 then -m else m, if n < 0 then -n else n, s, t);
      }
    }
    forall n, s | Binary(s) ensures Binary(PutInt(n, s)) {
      NatIsBinary(if n < 0 then -n else n, s);
    }
  }

  lemma CharCode()
    ensures IsCode(PutChar)
  {
    forall c, d, s, t ensures Separates(PutChar, c, d, s, t) {
      if PutChar(c, s) == PutChar(d, t) {
        NatSeparates(c as int, d as int, s, t);
      }
    }
    forall c: char, s | Binary(s) ensures Binary(PutChar(c, s)) {
      NatIsBinary(c as int, s);
    }
  }

  lemma {:induction false} SeqSeparates<T(!new)>(put: (T, string) -> string, xs: seq<T>, ys: seq<T>, s: string, t: string)
    requires IsCode(put) && PutSeq(put, xs, s) == PutSeq(put, ys, t)
    ensures xs == ys && s == t
  {
    var a, b := PutSeq(put, xs, s), PutSeq(put, ys, t);
    assert a[0] == b[0] && a[1..] == b[1..];
    if xs != [] && ys != [] {
      assert Separates(put, xs[0], ys[0], PutSeq(put, xs[1..], s), PutSeq(put, ys[1..], t));
      SeqSeparates(put, xs[1..], ys[1..], s, t);
      assert xs == [xs[0]] + xs[1..] && ys == [ys[0]] + ys[1..];
    }
  }

  lemma {:induction false} SeqIsBinary<T(!new)>(put: (T, string) -> string, xs: seq<T>, s: string)
    requires IsCode(put) && Binary(s)
    ensures Binary(PutSeq(put, xs, s))
  {
    if xs != [] {
      SeqIsBinary(put, xs[1..], s);
    }
  }

  // --- ways to combine codes --------------------------------------------------------------

  function SeqOf<T>(put: (T, string) -> string): (seq<T>, string) -> string
  {
    (xs, rest) => PutSeq(put, xs, rest)
  }

  function PairOf<A, B>(one: (A, string) -> string, other: (B, string) -> string): ((A, B), string) -> string
  {
    (p: (A, B), rest) => one(p.0, other(p.1, rest))
  }

  /** A value is written as what `view` sees of it. */
  function Via<R, T>(view: R -> T, put: (T, string) -> string): (R, string) -> string
  {
    (r, rest) => put(view(r), rest)
  }

  ghost predicate SeesAll<R(!new), T>(view: R -> T) { forall x, y :: view(x) == view(y) ==> x == y }

  lemma SeqCode<T(!new)>(put: (T, string) -> string)
    requires IsCode(put)
    ensures IsCode(SeqOf(put))
  {
    forall xs, ys, s, t ensures Separates(SeqOf(put), xs, ys, s, t) {
      if PutSeq(put, xs, s) == PutSeq(put, ys, t) {
        SeqSeparates(put, xs, ys, s, t);
      }
    }
    forall xs, s | Binary(s) ensures Binary(SeqOf(put)(xs, s)) {
      SeqIsBinary(put, xs, s);
    }
  }

  lemma PairCode<A(!new), B(!new)>(one: (A, string) -> string, other: (B, string) -> string)
    requires IsCode(one) && IsCode(other)
    ensures IsCode(PairOf(one, other))
  {
    forall x: (A, B), y: (A, B), s, t ensures Separates(PairOf(one, other), x, y, s, t) {
      assert Separates(one, x.0, y.0, other(x.1, s), other(y.1, t));
      assert Separates(other, x.1, y.1, s, t);
      assert x == (x.0, x.1) && y == (y.0, y.1);
    }
    forall p: (A, B), s | Binary(s) ensures Binary(PairOf(one, other)(p, s)) {
      assert Binary(other(p.1, s));
    }
  }

  lemma ViaCode<R(!new), T(!new)>(view: R -> T, put: (T, string) -> string)
    requires SeesAll(view) && IsCode(put)
    ensures IsCode(Via(view, put))
  {
    forall x, y, s, t ensures Separates(Via(view, put), x, y, s, t) {
      assert Separates(put, view(x), view(y), s, t);
    }
  }

  // --- texts, options and sets -----------------------------------------------------------

  function Texts(): (string, string) -> string { SeqOf(PutChar) }

  function Listed<T>(o: Option<T>): seq<T> { if o.None? then [] else [o.value] }

  function OptionOf<T>(put: (T, string) -> string): (Option<T>, string) -> string { Via(Listed, SeqOf(put)) }

  lemma TextCode()
    ensures IsCode(Texts())
  {
    CharCode();
    SeqCode(PutChar);
  }

  lemma OptionCode<T(!new)>(put: (T, string) -> string)
    requires IsCode(put)
    ensures IsCode(OptionOf(put))
  {
    SeqCode(put);
    forall x: Option<T>, y: Option<T> | Listed(x) == Listed(y) ensures x == y {
      if x.Some? && y.Some? {
        assert Listed(x)[0] == Listed(y)[0];
      }
    }
    ViaCode<Option<T>, seq<T>>(Listed, SeqOf(put));
  }

  /** The elements of a set in some order, the same for the same set. */
  ghost function Arranged(xs: set<string>): (s: seq<string>)
    ensures forall x :: x in s <==> x in xs
  {
    if xs == {} then [] else
    var x :| x in xs;
    [x] + Arranged(xs - {x})
  }

  lemma ArrangedSeesAll()
    ensures SeesAll(Arranged)
  {
    forall x, y | Arranged(x) == Arranged(y) ensures x == y {
      assert forall e :: e in x <==> e in Arranged(x);
      assert forall e :: e in y <==> e in Arranged(y);
    }
  }

  // --- chart definitions --------------------------------------------------------------------

  function OptText(): (Option<string>, string) -> string { OptionOf(Texts()) }

  function ConditionView(c: CanonicalCondition): (string, (string, (Option<string>, (Option<string>, Option<string>))))
  {
    (c.column, (c.operator, (c.value, (c.value2, c.listId))))
  }

  function Conditions(): (CanonicalCondition, string) -> string
  {
    Via(ConditionView, PairOf(Texts(), PairOf(Texts(), PairOf(OptText(), PairOf(OptText(), OptText())))))
  }

  lemma ConditionCode()
    ensures IsCode(Conditions())
  {
    TextCode();
    OptionCode(Texts());
    PairCode(OptText(), OptText());
    PairCode(OptText(), PairOf(OptText(), OptText()));
    PairCode(Texts(), PairOf(OptText(), PairOf(OptText(), OptText())));
    PairCode(Texts(), PairOf(Texts(), PairOf(OptText(), PairOf(OptText(), OptText()))));
    ViaCode(ConditionView, PairOf(Texts(), PairOf(Texts(), PairOf(OptText(), PairOf(OptText(), OptText())))));
  }

  function BoolView(b: bool): int { if b then 1 else 0 }

  function Bools(): (bool, string) -> string { Via(BoolView, PutInt) }

  lemma BoolCode()
    ensures IsCode(Bools())
  {
    IntCode();
    ViaCode(BoolView, PutInt);
  }

  function RuleView(r: CanonicalRule): (string, (string, (bool, seq<CanonicalCondition>)))
  {
    (r.name, (r.severity, (r.enabled, r.conditions)))
  }

  function Rules(): (CanonicalRule, string) -> string
  {
    Via(RuleView, PairOf(Texts(), PairOf(Texts(), PairOf(Bools(), SeqOf(Conditions())))))
  }

  lemma RuleCode()
    ensures IsCode(Rules())
  {
    TextCode();
    BoolCode();
    ConditionCode();
    SeqCode(Conditions());
    PairCode(Bools(), SeqOf(Conditions()));
    PairCode(Texts(), PairOf(Bools(), SeqOf(Conditions())));
    PairCode(Texts(), PairOf(Texts(), PairOf(Bools(), SeqOf(Conditions()))));
    ViaCode(RuleView, PairOf(Texts(), PairOf(Texts(), PairOf(Bools(), SeqOf(Conditions())))));
  }

  function QueryView(q: QueryDefinition): (string, (Option<int>, Option<int>))
  {
    (q.sqlText, (q.rowLimit, q.pollIntervalMs))
  }

  function Queries(): (QueryDefinition, string) -> string
  {
    Via(QueryView, PairOf(Texts(), PairOf(OptionOf(PutInt), OptionOf(PutInt))))
  }

  lemma QueryCode()
    ensures IsCode(Queries())
  {
    TextCode();
    IntCode();
    OptionCode(PutInt);
    PairCode(OptionOf(PutInt), OptionOf(PutInt));
    PairCode(Texts(), PairOf(OptionOf(PutInt), OptionOf(PutInt)));
    ViaCode(QueryView, PairOf(Texts(), PairOf(OptionOf(PutInt), OptionOf(PutInt))));
  }

  function MappingView(m: Mapping): (string, (Option<string>, (Option<string>, (Option<string>, Option<string>))))
  {
    (m.chartType, (m.xField, (m.yField, (m.seriesField, m.surgeThresholdPct))))
  }

  function Mappings(): (Mapping, string) -> string
  {
    Via(MappingView, PairOf(Texts(), PairOf(OptText(), PairOf(OptText(), PairOf(OptText(), OptText())))))
  }

  lemma MappingCode()
    ensures IsCode(Mappings())
  {
    TextCode();
    OptionCode(Texts());
    PairCode(OptText(), OptText());
    PairCode(OptText(), PairOf(OptText(), OptText()));
    PairCode(OptText(), PairOf(OptText(), PairOf(OptText(), OptText())));
    PairCode(Texts(), PairOf(OptText(), PairOf(OptText(), PairOf(OptText(), OptText()))));
    ViaCode(MappingView, PairOf(Texts(), PairOf(OptText(), PairOf(OptText(), PairOf(OptText(), OptText())))));
  }

  function CanonicalView(c: Canonical): (QueryDefinition, (Mapping, seq<CanonicalRule>))
  {
    (c.query, (c.mapping, c.rules))
  }

  function Canonicals(): (Canonical, string) -> string
  {
    Via(CanonicalView, PairOf(Queries(), PairOf(Mappings(), SeqOf(Rules()))))
  }

  lemma CanonicalCode()
    ensures IsCode(Canonicals())
  {
    QueryCode();
    MappingCode();
    RuleCode();
    SeqCode(Rules());
    PairCode(Mappings(), SeqOf(Rules()));
    PairCode(Queries(), PairOf(Mappings(), SeqOf(Rules())));
    ViaCode(CanonicalView, PairOf(Queries(), PairOf(Mappings(), SeqOf(Rules()))));
  }

  /** A collision-free fingerprint exists. */
  lemma CollisionFreeExists()
    ensures exists hash :: CollisionFree(hash)
  {
    CanonicalCode();
    var hash := (c: Canonical) => Canonicals()(c, "");
    forall a, b | hash(a) == hash(b) ensures a == b {
      assert Separates(Canonicals(), a, b, "", "");
    }
    assert CollisionFree(hash);
  }

  // --- results -------------------------------------------------------------------------------

  function ValueView(v: Value): (int, (int, string))
  {
    match v
    case Null => (0, (0, ""))
    case Bool(b) => (1, (BoolView(b), ""))
    case Int(n) => (2, (n, ""))
    case Float(repr) => (3, (0, repr))
    case Text(s) => (4, (0, s))
    case Other(repr) => (5, (0, repr))
  }

  function Values(): (Value, string) -> string { Via(ValueView, PairOf(PutInt, PairOf(PutInt, Texts()))) }

  lemma ValueCode()
    ensures IsCode(Values())
  {
    TextCode();
    IntCode();
    PairCode(PutInt, Texts());
    PairCode(PutInt, PairOf(PutInt, Texts()));
    ViaCode(ValueView, PairOf(PutInt, PairOf(PutInt, Texts())));
  }

  function EntryView(e: FlaggedEntry): (int, (seq<string>, string)) { (e.index, (e.ruleIds, e.fingerprint)) }

  function Entries(): (FlaggedEntry, string) -> string { Via(EntryView, PairOf(PutInt, PairOf(SeqOf(Texts()), Texts()))) }

  lemma EntryCode()
    ensures IsCode(Entries())
  {
    TextCode();
    IntCode();
    SeqCode(Texts());
    PairCode(SeqOf(Texts()), Texts());
    PairCode(PutInt, PairOf(SeqOf(Texts()), Texts()));
    ViaCode(EntryView, PairOf(PutInt, PairOf(SeqOf(Texts()), Texts())));
  }

  function HitView(h: RuleHit): (string, (string, (int, int)))
  {
    (h.id, (h.name, (match h.severity case Low => 0 case Medium => 1 case High => 2, h.matched)))
  }

  function Hits(): (RuleHit, string) -> string
  {
    Via(HitView, PairOf(Texts(), PairOf(Texts(), PairOf(PutInt, PutInt))))
  }

  lemma HitCode()
    ensures IsCode(Hits())
  {
    TextCode();
    IntCode();
    PairCode(PutInt, PutInt);
    PairCode(Texts(), PairOf(PutInt, PutInt));
    PairCode(Texts(), PairOf(Texts(), PairOf(PutInt, PutInt)));
    ViaCode(HitView, PairOf(Texts(), PairOf(Texts(), PairOf(PutInt, PutInt))));
  }

  ghost function WarningView(w: Warning): (int, (string, (seq<string>, Option<string>)))
  {
    match w
    case NoConditions(rule) => (0, (rule, ([], None)))
    case MissingColumns(rule, missing) => (1, (rule, (Arranged(missing), None)))
    case MatchedNothing(rule, neverBoolean) => (2, (rule, ([], neverBoolean)))
  }

  ghost function Warnings(): (Warning, string) -> string
  {
    Via(WarningView, PairOf(PutInt, PairOf(Texts(), PairOf(SeqOf(Texts()), OptText()))))
  }

  lemma WarningCode()
    ensures IsCode(Warnings())
  {
    TextCode();
    IntCode();
    SeqCode(Texts());
    OptionCode(Texts());
    PairCode(SeqOf(Texts()), OptText());
    PairCode(Texts(), PairOf(SeqOf(Texts()), OptText()));
    PairCode(PutInt, PairOf(Texts(), PairOf(SeqOf(Texts()), OptText())));
    ArrangedSeesAll();
    ViaCode(WarningView, PairOf(PutInt, PairOf(Texts(), PairOf(SeqOf(Texts()), OptText()))));
  }

  /** Beside the rows, the rules and the warnings, flags hold two counts. */
  function CountsView(f: Flags): (int, int) { (f.flaggedCount, if f.dismissedCount.None? then -1 else f.dismissedCount.value) }

  ghost function FlagsView(f: Flags): ((int, int), (seq<FlaggedEntry>, (seq<RuleHit>, seq<Warning>)))
  {
    (CountsView(f), (f.rows, (f.rules, f.warnings)))
  }

  ghost function AllFlags(): (Flags, string) -> string
  {
    Via(FlagsView, PairOf(PairOf(PutInt, PutInt), PairOf(SeqOf(Entries()), PairOf(SeqOf(Hits()), SeqOf(Warnings())))))
  }

  lemma FlagsCode()
    ensures IsCode(AllFlags())
  {
    IntCode();
    EntryCode();
    HitCode();
    WarningCode();
    SeqCode(Entries());
    SeqCode(Hits());
    SeqCode(Warnings());
    PairCode(PutInt, PutInt);
    PairCode(SeqOf(Hits()), SeqOf(Warnings()));
    PairCode(SeqOf(Entries()), PairOf(SeqOf(Hits()), SeqOf(Warnings())));
    PairCode(PairOf(PutInt, PutInt), PairOf(SeqOf(Entries()), PairOf(SeqOf(Hits()), SeqOf(Warnings()))));
    ViaCode(FlagsView, PairOf(PairOf(PutInt, PutInt), PairOf(SeqOf(Entries()), PairOf(SeqOf(Hits()), SeqOf(Warnings())))));
  }

  ghost function Contents(): ((seq<string>, (seq<Row>, Flags)), string) -> string
  {
    PairOf(SeqOf(Texts()), PairOf(SeqOf(SeqOf(Values())), AllFlags()))
  }

  lemma ContentCode()
    ensures IsCode(Contents())
  {
    TextCode();
    ValueCode();
    FlagsCode();
    SeqCode(Texts());
    SeqCode(Values());
    SeqCode(SeqOf(Values()));
    PairCode(SeqOf(SeqOf(Values())), AllFlags());
    PairCode(SeqOf(Texts()), PairOf(SeqOf(SeqOf(Values())), AllFlags()));
  }

  ghost function ContentHash(c: seq<string>, r: seq<Row>, f: Flags): string { Contents()((c, (r, f)), "") }

  function TextHash(s: string): string { Texts()(s, "") }

  lemma ContentHashIsLawful()
    ensures forall c, r, f, c', r', f' :: ContentHash(c, r, f) == ContentHash(c', r', f') ==> c == c' && r == r' && f == f'
    ensures forall c, r, f :: Binary(ContentHash(c, r, f))
  {
    ContentCode();
    forall c, r, f, c', r', f' | ContentHash(c, r, f) == ContentHash(c', r', f') ensures c == c' && r == r' && f == f' {
      assert Separates(Contents(), (c, (r, f)), (c', (r', f')), "", "");
    }
  }

  lemma TextHashIsLawful()
    ensures forall s, t :: TextHash(s) == TextHash(t) ==> s == t
    ensures forall s :: Binary(TextHash(s))
  {
    TextCode();
    forall s, t | TextHash(s) == TextHash(t) ensures s == t {
      assert Separates(Texts(), s, t, "", "");
    }
  }

  /** Hashes as the payload and dismissal proofs assume them exist. */
  lemma LawfulHashesExist()
    ensures exists h :: HashesLawful(h)
  {
    ContentHashIsLawful();
    TextHashIsLawful();
    var h := Hashes(ContentHash, TextHash, Arranged);
    forall c, r, f ensures '+' !in h.canonical(c, r, f) && '|' !in h.canonical(c, r, f) {
      assert Binary(ContentHash(c, r, f));
    }
    forall s ensures '|' !in h.digest(s) {
      assert Binary(TextHash(s));
    }
    assert HashesLawful(h);
  }
}
