/** Dismissing flagged rows, filtering a served payload by them, and the hash a client polls with.
    Hashing and the canonical encoders are injective uninterpreted functions. */
module Dismissals {
  import opened Wrappers
  import opened Strings
  import opened ListMatching
  import opened FlagConditions
  import opened FlagEngine
  import opened Payloads

  /** `canonical` hashes a payload's columns, rows and flags; `digest` hashes a text; `ordered` sorts a set. */
  datatype Hashes = Hashes(
    canonical: (seq<string>, seq<Row>, Flags) -> string,
    digest: string -> string,
    ordered: set<string> -> seq<string>)

  /** Hashes do not collide and are hexadecimal text, so they hold neither separator the service uses. */
  ghost predicate HashesLawful(h: Hashes)
  {
    && (forall c, r, f, c', r', f' :: h.canonical(c, r, f) == h.canonical(c', r', f') ==> c == c' && r == r' && f == f')
    && (forall c, r, f :: '+' !in h.canonical(c, r, f) && '|' !in h.canonical(c, r, f))
    && (forall s, t :: h.digest(s) == h.digest(t) ==> s == t)
    && (forall s :: '|' !in h.digest(s))
    && (forall s, x :: x in h.ordered(s) <==> x in s)
  }

  /** Fingerprints are hexadecimal digests, so the join of a dismissal set can be split again. */
  ghost predicate CommaFree(dismissed: set<string>) { forall f :: f in dismissed ==> ',' !in f }

  // --- serving ---------------------------------------------------------------------

  function Stamp(h: Hashes, dismissed: set<string>): string
  {
    h.digest(Join(h.ordered(dismissed), ','))
  }

  function Kept(rows: seq<FlaggedEntry>, dismissed: set<string>): (kept: seq<FlaggedEntry>)
    ensures |kept| <= |rows|
    ensures |kept| == |rows| ==> kept == rows
    ensures forall e :: e in kept <==> e in rows && e.fingerprint !in dismissed
  {
    if rows == [] then []
    else if rows[0].fingerprint in dismissed then Kept(rows[1..], dismissed)
    else [rows[0]] + Kept(rows[1..], dismissed)
  }

  function MatchedAmong(rows: seq<FlaggedEntry>, id: string): nat
  {
    if rows == [] then 0 else (if id in rows[0].ruleIds then 1 else 0) + MatchedAmong(rows[1..], id)
  }

  function Recounted(rules: seq<RuleHit>, kept: seq<FlaggedEntry>): seq<RuleHit>
  {
    seq(|rules|, i requires 0 <= i < |rules| => rules[i].(matched := MatchedAmong(kept, rules[i].id)))
  }

  /** `apply_dismissals`: drop the dismissed rows and mix the dismissal set into the hash. A payload no dismissal
      touches is served as it is. */
  function Served(h: Hashes, p: Payload, dismissed: set<string>): Payload
  {
    var rows := p.flags.rows;
    var kept := Kept(rows, dismissed);
    if dismissed == {} || rows == [] || |kept| == |rows| then
      p
    else
      p.(dataHash := p.dataHash + (['+'] + (['d'] + Stamp(h, dismissed))),
         flags := p.flags.(rows := kept, flaggedCount := |kept|, dismissedCount := Some(|rows| - |kept|),
                           rules := Recounted(p.flags.rules, kept)))
  }

  // --- what a caller sees of a payload ------------------------------------------------

  /** How many of the entries the caller has not dismissed. */
  function Left(rows: seq<FlaggedEntry>, dismissed: set<string>): nat
  {
    if rows == [] then 0
    else Left(rows[..|rows| - 1], dismissed) + (if rows[|rows| - 1].fingerprint in dismissed then 0 else 1)
  }

  /** `kept` is the entries not dismissed, in their order: each stands where the number of those before it says. */
  ghost predicate KeepsUndismissed(rows: seq<FlaggedEntry>, dismissed: set<string>, kept: seq<FlaggedEntry>)
  {
    |kept| == Left(rows, dismissed) && forall i :: 0 <= i < |rows| ==> StandsInPlace(rows, dismissed, kept, i)
  }

  ghost predicate StandsInPlace(rows: seq<FlaggedEntry>, dismissed: set<string>, kept: seq<FlaggedEntry>, i: nat)
    requires i < |rows|
  {
    var place := Left(rows[..i], dismissed);
    rows[i].fingerprint in dismissed || (place < |kept| && kept[place] == rows[i])
  }

  /** How many of these entries list a rule. */
  ghost function Listing(rows: seq<FlaggedEntry>, id: string): nat
  {
    |ListingIn(rows, id)|
  }

  ghost function ListingIn(rows: seq<FlaggedEntry>, id: string): set<int>
  {
    set i | 0 <= i < |rows| && id in rows[i].ruleIds
  }

  /** `s` is what somebody who dismissed these sees of `p`: the entries not dismissed, counted again for every rule,
      under a hash that names the dismissals; or `p` itself when none of its entries was dismissed. */
  ghost predicate Shows(h: Hashes, p: Payload, dismissed: set<string>, s: Payload)
  {
    && KeepsUndismissed(p.flags.rows, dismissed, s.flags.rows)
    && s.dataHash == SeenHash(h, p, dismissed)
    && (|s.flags.rows| == |p.flags.rows| ==> s == p)
    && (|s.flags.rows| != |p.flags.rows| ==>
          && s == p.(dataHash := s.dataHash, flags := s.flags)
          && s.flags.flaggedCount == |s.flags.rows|
          && s.flags.dismissedCount == Some(|p.flags.rows| - |s.flags.rows|)
          && s.flags.warnings == p.flags.warnings
          && |s.flags.rules| == |p.flags.rules|
          && forall k :: 0 <= k < |p.flags.rules| ==>
               s.flags.rules[k] == p.flags.rules[k].(matched := Listing(s.flags.rows, p.flags.rules[k].id)))
  }

  /** The payload's own hash, with the dismissals mixed in when one of its entries is dismissed. */
  ghost function SeenHash(h: Hashes, p: Payload, dismissed: set<string>): string
  {
    if exists e :: e in p.flags.rows && e.fingerprint in dismissed
    then p.dataHash + "+d" + h.digest(Join(h.ordered(dismissed), ',')) else p.dataHash
  }

  lemma {:induction false} KeptOneMore(rows: seq<FlaggedEntry>, e: FlaggedEntry, dismissed: set<string>)
    ensures Kept(rows + [e], dismissed) == Kept(rows, dismissed) + (if e.fingerprint in dismissed then [] else [e])
  {
    if rows == [] {
      assert rows + [e] == [e] && [e][1..] == [];
    } else {
      assert (rows + [e])[0] == rows[0] && (rows + [e])[1..] == rows[1..] + [e];
      KeptOneMore(rows[1..], e, dismissed);
    }
  }

  lemma KeepsOneMore(rows: seq<FlaggedEntry>, e: FlaggedEntry, dismissed: set<string>, kept: seq<FlaggedEntry>)
    requires KeepsUndismissed(rows, dismissed, kept)
    ensures KeepsUndismissed(rows + [e], dismissed, kept + (if e.fingerprint in dismissed then [] else [e]))
  {
    var more, now := rows + [e], kept + (if e.fingerprint in dismissed then [] else [e]);
    assert more[..|more| - 1] == rows;
    forall i | 0 <= i < |more| ensures StandsInPlace(more, dismissed, now, i) {
      if i < |rows| {
        assert StandsInPlace(rows, dismissed, kept, i);
        assert more[..i] == rows[..i];
      }
    }
  }

  lemma {:induction false} KeptIsUndismissed(rows: seq<FlaggedEntry>, dismissed: set<string>)
    ensures KeepsUndismissed(rows, dismissed, Kept(rows, dismissed))
  {
    if rows != [] {
      var n := |rows| - 1;
      KeptIsUndismissed(rows[..n], dismissed);
      KeptOneMore(rows[..n], rows[n], dismissed);
      KeepsOneMore(rows[..n], rows[n], dismissed, Kept(rows[..n], dismissed));
      assert rows == rows[..n] + [rows[n]];
    }
  }

  lemma {:induction false} MatchedOneMore(rows: seq<FlaggedEntry>, e: FlaggedEntry, id: string)
    ensures MatchedAmong(rows + [e], id) == MatchedAmong(rows, id) + (if id in e.ruleIds then 1 else 0)
  {
    if rows == [] {
      assert rows + [e] == [e] && [e][1..] == [];
    } else {
      assert (rows + [e])[0] == rows[0] && (rows + [e])[1..] == rows[1..] + [e];
      MatchedOneMore(rows[1..], e, id);
    }
  }

  lemma ListingOneMore(rows: seq<FlaggedEntry>, e: FlaggedEntry, id: string)
    ensures Listing(rows + [e], id) == Listing(rows, id) + (if id in e.ruleIds then 1 else 0)
  {
    assert ListingIn(rows + [e], id) == ListingIn(rows, id) + (if id in e.ruleIds then {|rows|} else {});
  }

  lemma {:induction false} MatchedIsListing(rows: seq<FlaggedEntry>, id: string)
    ensures MatchedAmong(rows, id) == Listing(rows, id)
  {
    if rows != [] {
      var n := |rows| - 1;
      MatchedIsListing(rows[..n], id);
      MatchedOneMore(rows[..n], rows[n], id);
      ListingOneMore(rows[..n], rows[n], id);
      assert rows == rows[..n] + [rows[n]];
    }
  }

  lemma SeenHashIsServed(h: Hashes, p: Payload, dismissed: set<string>)
    ensures Served(h, p, dismissed).dataHash == SeenHash(h, p, dismissed)
  {
    var rows, kept := p.flags.rows, Kept(p.flags.rows, dismissed);
    if e :| e in rows && e.fingerprint in dismissed {
      assert e !in kept;
      assert |kept| != |rows|;
      assert p.dataHash + (['+'] + (['d'] + Stamp(h, dismissed))) == p.dataHash + "+d" + Stamp(h, dismissed);
    } else {
      KeepingAll(rows, dismissed);
    }
  }

  lemma {:induction false} KeepingAll(rows: seq<FlaggedEntry>, dismissed: set<string>)
    requires forall e :: e in rows ==> e.fingerprint !in dismissed
    ensures Kept(rows, dismissed) == rows
  {
    if rows != [] {
      assert rows[0] in rows;
      forall e | e in rows[1..] ensures e.fingerprint !in dismissed {
        assert e in rows;
      }
      KeepingAll(rows[1..], dismissed);
    }
  }

  /** Serving shows exactly that. */
  lemma ServedShows(h: Hashes, p: Payload, dismissed: set<string>)
    ensures Shows(h, p, dismissed, Served(h, p, dismissed))
  {
    var rows, s := p.flags.rows, Served(h, p, dismissed);
    KeptIsUndismissed(rows, dismissed);
    SeenHashIsServed(h, p, dismissed);
    if dismissed == {} || rows == [] {
      KeepingAll(rows, dismissed);
    }
    assert s.flags.rows == Kept(rows, dismissed);
    forall k | 0 <= k < |p.flags.rules| ensures MatchedAmong(s.flags.rows, p.flags.rules[k].id) == Listing(s.flags.rows, p.flags.rules[k].id) {
      MatchedIsListing(s.flags.rows, p.flags.rules[k].id);
    }
  }

  // --- the hash as a witness of what was served ------------------------------------------

  /** The payload's hash is the hash of what it says, as every execution computes it. */
  ghost predicate Hashed(h: Hashes, p: Payload)
  {
    p.dataHash == h.canonical(p.columns, p.rows, p.flags)
  }

  lemma StampInjective(h: Hashes, a: set<string>, b: set<string>)
    requires HashesLawful(h) && CommaFree(a) && CommaFree(b) && a != {} && b != {}
    requires Stamp(h, a) == Stamp(h, b)
    ensures a == b
  {
    var x, y := h.ordered(a), h.ordered(b);
    assert Join(x, ',') == Join(y, ',');
    var p :| p in a;
    var q :| q in b;
    assert p in x && q in y;
    SplitOnJoin(x, ',');
    SplitOnJoin(y, ',');
    assert forall e :: e in a <==> e in x;
    assert forall e :: e in b <==> e in y;
  }

  /** The hash with its stamp can be taken apart: base hash, and whether and by what it was stamped. */
  lemma ServedHashParts(h: Hashes, p: Payload, dismissed: set<string>, p': Payload, dismissed': set<string>)
    requires HashesLawful(h) && Hashed(h, p) && Hashed(h, p') && CommaFree(dismissed) && CommaFree(dismissed')
    requires Served(h, p, dismissed).dataHash == Served(h, p', dismissed').dataHash
    ensures p.dataHash == p'.dataHash
    ensures Served(h, p, dismissed) != p && Served(h, p', dismissed') != p' ==> dismissed == dismissed'
    ensures Served(h, p, dismissed) == p <==> Served(h, p', dismissed') == p'
  {
    var s, s' := Served(h, p, dismissed), Served(h, p', dismissed');
    var tail, tail' := ['d'] + Stamp(h, dismissed), ['d'] + Stamp(h, dismissed');
    StampGrows(h, p, dismissed);
    StampGrows(h, p', dismissed');
    if s != p && s' != p' {
      assert p.dataHash + ['+'] + tail == s.dataHash == p'.dataHash + ['+'] + tail';
      SplitAtSeparator(p.dataHash, tail, p'.dataHash, tail', '+');
      assert tail[1..] == Stamp(h, dismissed) && tail'[1..] == Stamp(h, dismissed');
      StampInjective(h, dismissed, dismissed');
    }
  }

  lemma StampGrows(h: Hashes, p: Payload, dismissed: set<string>)
    requires HashesLawful(h) && Hashed(h, p)
    ensures var s := Served(h, p, dismissed);
            && '+' !in p.dataHash
            && (s != p ==> s.dataHash == p.dataHash + ['+'] + (['d'] + Stamp(h, dismissed)))
            && (s != p <==> '+' in s.dataHash)
            && (s != p ==> dismissed != {})
  {
  }

  /** Equal served hashes mean equal served content, whatever was dismissed and by whom. */
  lemma EqualHashEqualContent(h: Hashes, p: Payload, dismissed: set<string>, p': Payload, dismissed': set<string>)
    requires HashesLawful(h) && Hashed(h, p) && Hashed(h, p') && CommaFree(dismissed) && CommaFree(dismissed')
    requires Served(h, p, dismissed).dataHash == Served(h, p', dismissed').dataHash
    ensures var s, s' := Served(h, p, dismissed), Served(h, p', dismissed');
            s.columns == s'.columns && s.rows == s'.rows && s.flags == s'.flags
  {
    ServedHashParts(h, p, dismissed, p', dismissed');
  }

  /** Dismissing a row that is flagged always changes the served hash, so the next poll is not told "unchanged". */
  lemma DismissingChangesTheHash(h: Hashes, p: Payload, dismissed: set<string>, f: string)
    requires HashesLawful(h) && Hashed(h, p) && CommaFree(dismissed) && ',' !in f
    requires f !in dismissed && exists e :: e in p.flags.rows && e.fingerprint == f
    ensures Served(h, p, dismissed).dataHash != Served(h, p, dismissed + {f}).dataHash
  {
    var e :| e in p.flags.rows && e.fingerprint == f;
    var more := dismissed + {f};
    assert e in Kept(p.flags.rows, dismissed) && e !in Kept(p.flags.rows, more);
    assert Served(h, p, more) != p by { assert Kept(p.flags.rows, more) != p.flags.rows; }
    if Served(h, p, dismissed).dataHash == Served(h, p, more).dataHash {
      EqualHashEqualContent(h, p, dismissed, p, more);
      ServedHashParts(h, p, dismissed, p, more);
      assert false;
    }
  }

  // --- storing dismissals ------------------------------------------------------------

  /** What the caller newly dismisses: asked for, actually a finding of the query, and not dismissed yet. */
  function NewlyDismissed(stored: set<(string, string)>, user: string, fingerprints: seq<string>,
                          findings: set<string>): set<string>
  {
    set f | f in fingerprints && f in findings && (user, f) !in stored
  }

  function AfterDismiss(stored: set<(string, string)>, user: string, fingerprints: seq<string>,
                        findings: set<string>): set<(string, string)>
  {
    stored + set f | f in NewlyDismissed(stored, user, fingerprints, findings) :: (user, f)
  }

  function AfterRestore(stored: set<(string, string)>, user: string, fingerprints: Option<seq<string>>): set<(string, string)>
  {
    set d | d in stored && (d.0 != user || (fingerprints.Some? && d.1 !in fingerprints.value))
  }

  function DismissedBy(stored: set<(string, string)>, user: string): set<string>
  {
    set d | d in stored && d.0 == user :: d.1
  }

  /** The dismissals of one query: who dismissed which fingerprint. */
  class Dismissed {
    var stored: set<(string, string)>

    constructor ()
      ensures stored == {}
    {
      stored := {};
    }

    /** `dismiss`: record the caller's dismissals of stored findings, and report how many are new. */
    method Dismiss(user: string, fingerprints: seq<string>, findings: set<string>) returns (count: nat)
      modifies this
      ensures forall u, f :: (u, f) in stored <==>
                (u, f) in old(stored) || (u == user && f in fingerprints && f in findings)
      ensures stored == AfterDismiss(old(stored), user, fingerprints, findings)
      ensures count == |NewlyDismissed(old(stored), user, fingerprints, findings)|
    {
      var newly: set<string> := {};
      for n := 0 to |fingerprints|
        invariant stored == old(stored)
        invariant newly == NewlyDismissed(stored, user, fingerprints[..n], findings)
      {
        var f := fingerprints[n];
        if f in findings && (user, f) !in stored {
          newly := newly + {f};
        }
      }
      assert fingerprints[..|fingerprints|] == fingerprints;
      count := |newly|;
      stored := stored + set f | f in newly :: (user, f);
    }

    /** `restore`: undo the caller's own dismissals, the named ones or all of them, and report how many of those were
        there. Nobody else's are touched, and naming none undoes none. */
    method Restore(user: string, fingerprints: Option<seq<string>>) returns (removed: nat)
      modifies this
      ensures forall u, f :: (u, f) in stored <==>
                (u, f) in old(stored) && (u != user || (fingerprints.Some? && f !in fingerprints.value))
      ensures removed == |set f | f in DismissedBy(old(stored), user) && (fingerprints.None? || f in fingerprints.value)|
      ensures stored == AfterRestore(old(stored), user, fingerprints)
    {
      var doomed := DismissedBy(stored, user);
      if fingerprints.Some? {
        if fingerprints.value == [] {
          assert (set f | f in DismissedBy(stored, user) && (fingerprints.None? || f in fingerprints.value)) == {};
          return 0;
        }
        doomed := set f | f in DismissedBy(stored, user) && f in fingerprints.value;
      }
      assert doomed == set f | f in DismissedBy(stored, user) && (fingerprints.None? || f in fingerprints.value);
      stored := stored - set f | f in doomed :: (user, f);
      removed := |doomed|;
    }
  }

  /** Restoring exactly what was newly dismissed gives back the stored set, and neither step touches anybody else. */
  lemma RestoreUndoesDismiss(stored: set<(string, string)>, user: string, fingerprints: seq<string>,
                             findings: set<string>, undo: seq<string>, other: string)
    requires forall f :: f in undo <==> f in NewlyDismissed(stored, user, fingerprints, findings)
    ensures AfterRestore(AfterDismiss(stored, user, fingerprints, findings), user, Some(undo)) == stored
    ensures other != user ==>
              && DismissedBy(AfterDismiss(stored, user, fingerprints, findings), other) == DismissedBy(stored, other)
              && DismissedBy(AfterRestore(stored, user, Some(undo)), other) == DismissedBy(stored, other)
  {
  }
}
