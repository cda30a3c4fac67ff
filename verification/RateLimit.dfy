/** Fixed-window request budgets, against the full history of requests they summarise. */
module RateLimit {

  const WINDOW_SECONDS: int := 60
  const PRUNE_ABOVE: nat := 10_000

  /** Which minute a moment falls in. */
  function WindowOf(now: real): int { (now / 60.0).Floor }

  /** Whole seconds to wait before the window is over. */
  function ResetIn(now: real): int { WINDOW_SECONDS - (now - 60.0 * WindowOf(now) as real).Floor }

  lemma WindowBounds(now: real)
    ensures 60.0 * WindowOf(now) as real <= now < 60.0 * (WindowOf(now) + 1) as real
  {
  }

  lemma WindowIs(now: real, w: int)
    requires 60.0 * w as real <= now < 60.0 * (w + 1) as real
    ensures WindowOf(now) == w
  {
  }

  /** Waiting `reset_in` seconds lands in the next window, and one second less does not. */
  lemma ResetLandsInNextWindow(now: real)
    ensures 1 <= ResetIn(now) <= 60
    ensures WindowOf(now + ResetIn(now) as real) == WindowOf(now) + 1
    ensures WindowOf(now + (ResetIn(now) - 1) as real) == WindowOf(now)
  {
  }

  lemma LaterWindow(a: real, b: real)
    requires a <= b
    ensures WindowOf(a) <= WindowOf(b)
  {
  }

  // --- history -----------------------------------------------------------------

  datatype Request = Request(key: string, now: real)

  /** How many requests by a key fell in a window. */
  function CountIn(history: seq<Request>, key: string, w: int): nat
  {
    if history == [] then 0
    else
      var last := history[|history| - 1];
      CountIn(history[..|history| - 1], key, w) + (if last.key == key && WindowOf(last.now) == w then 1 else 0)
  }

  ghost predicate Forward(history: seq<Request>)
  {
    forall i, j :: 0 <= i < j < |history| ==> history[i].now <= history[j].now
  }

  lemma {:induction false} NothingInLaterWindow(history: seq<Request>, key: string, w: int)
    requires forall i :: 0 <= i < |history| ==> WindowOf(history[i].now) < w
    ensures CountIn(history, key, w) == 0
  {
    if history != [] {
      NothingInLaterWindow(history[..|history| - 1], key, w);
    }
  }

  /** What the counters record of a history whose last request fell in window w: a key's count if it was seen in
      that window, something older, or nothing at all. */
  ghost predicate Summarises(counts: map<string, (int, int)>, history: seq<Request>, w: int)
  {
    && (forall i :: 0 <= i < |history| ==> WindowOf(history[i].now) <= w)
    && (forall k :: k in counts ==> counts[k].0 <= w)
    && (forall k :: CountIn(history, k, w) == if k in counts && counts[k].0 == w then counts[k].1 else 0)
  }

  function Bumped(counts: map<string, (int, int)>, key: string, w: int): map<string, (int, int)>
  {
    counts[key := (w, if key in counts && counts[key].0 == w then counts[key].1 + 1 else 1)]
  }

  function Pruned(counts: map<string, (int, int)>, w: int): map<string, (int, int)>
  {
    if |counts| > PRUNE_ABOVE then map k | k in counts && counts[k].0 == w :: counts[k] else counts
  }

  lemma CatchUp(counts: map<string, (int, int)>, history: seq<Request>, w: int, w': int)
    requires Summarises(counts, history, w) && w <= w'
    ensures Summarises(counts, history, w')
  {
    if w < w' {
      forall k ensures CountIn(history, k, w') == if k in counts && counts[k].0 == w' then counts[k].1 else 0 {
        NothingInLaterWindow(history, k, w');
      }
    }
  }

  lemma CountInOneMore(history: seq<Request>, r: Request, key: string, w: int)
    ensures CountIn(history + [r], key, w) == CountIn(history, key, w) + (if r.key == key && WindowOf(r.now) == w then 1 else 0)
  {
    assert (history + [r])[..|history|] == history;
  }

  lemma BumpCounts(counts: map<string, (int, int)>, history: seq<Request>, key: string, w: int)
    requires Summarises(counts, history, w)
    ensures Bumped(counts, key, w)[key] == (w, CountIn(history, key, w) + 1)
  {
  }

  lemma BumpSummarises(counts: map<string, (int, int)>, history: seq<Request>, key: string, now: real)
    requires Summarises(counts, history, WindowOf(now))
    ensures Summarises(Bumped(counts, key, WindowOf(now)), history + [Request(key, now)], WindowOf(now))
  {
    var w, r := WindowOf(now), Request(key, now);
    var bumped := Bumped(counts, key, w);
    forall k ensures CountIn(history + [r], k, w) == if k in bumped && bumped[k].0 == w then bumped[k].1 else 0 {
      CountInOneMore(history, r, k, w);
      BumpCounts(counts, history, key, w);
    }
  }

  /** Forgetting counters of past windows changes no answer. */
  lemma PruneSummarises(counts: map<string, (int, int)>, history: seq<Request>, w: int)
    requires Summarises(counts, history, w)
    ensures Summarises(Pruned(counts, w), history, w)
  {
  }

  ghost predicate OfWindow(counts: map<string, (int, int)>, w: int) { forall k :: k in counts ==> counts[k].0 == w }

  /** Beyond ten thousand keys only those of the current window are kept. */
  lemma PrunedIsBounded(counts: map<string, (int, int)>, w: int)
    ensures |Pruned(counts, w)| > 10_000 ==> OfWindow(Pruned(counts, w), w)
  {
  }

  class Window {
    var counts: map<string, (int, int)>
    ghost var history: seq<Request>

    ghost predicate Valid()
      reads this
    {
      && Forward(history)
      && if history == [] then counts == map[]
         else Summarises(counts, history, WindowOf(history[|history| - 1].now))
    }

    constructor ()
      ensures Valid() && history == []
    {
      counts, history := map[], [];
    }

    /** `hit`, for requests that arrive in order: allowed exactly when fewer than `limit` earlier requests by
        the key fell in the same window, whatever was pruned on the way. */
    method Hit(key: string, limit: int, now: real) returns (allowed: bool, resetIn: int)
      requires Valid() && (history != [] ==> history[|history| - 1].now <= now)
      modifies this
      ensures Valid() && history == old(history) + [Request(key, now)]
      ensures allowed <==> CountIn(old(history), key, WindowOf(now)) < limit
      ensures resetIn == ResetIn(now)
      ensures |counts| > 10_000 ==> OfWindow(counts, WindowOf(now))
    {
      var window := WindowOf(now);
      resetIn := ResetIn(now);
      SummariesSoFar(counts, history, now);
      BumpCounts(counts, history, key, window);
      HitSummarises(counts, history, key, now);
      var count;
      counts, count := Count(counts, key, window);
      history := history + [Request(key, now)];
      allowed := count <= limit;
    }
  }

  /** The locked section: count the request, and forget other windows' keys when there are too many. */
  method Count(counts: map<string, (int, int)>, key: string, window: int) returns (after: map<string, (int, int)>, count: int)
    ensures after == Pruned(Bumped(counts, key, window), window) && count == Bumped(counts, key, window)[key].1
    ensures |after| > 10_000 ==> OfWindow(after, window)
  {
    var (current, earlier) := if key in counts then counts[key] else (window, 0);
    if current != window {
      current, earlier := window, 0;
    }
    count := earlier + 1;
    after := counts[key := (current, count)];
    PrunedIsBounded(after, window);
    if |after| > PRUNE_ABOVE {
      after := map k | k in after && after[k].0 == window :: after[k];
    }
  }

  lemma HitSummarises(counts: map<string, (int, int)>, history: seq<Request>, key: string, now: real)
    requires Forward(history) && Summarises(counts, history, WindowOf(now))
    requires history != [] ==> history[|history| - 1].now <= now
    ensures Forward(history + [Request(key, now)])
    ensures Summarises(Pruned(Bumped(counts, key, WindowOf(now)), WindowOf(now)), history + [Request(key, now)], WindowOf(now))
  {
    BumpSummarises(counts, history, key, now);
    PruneSummarises(Bumped(counts, key, WindowOf(now)), history + [Request(key, now)], WindowOf(now));
  }

  lemma SummariesSoFar(counts: map<string, (int, int)>, history: seq<Request>, now: real)
    requires history == [] ==> counts == map[]
    requires history != [] ==> Summarises(counts, history, WindowOf(history[|history| - 1].now))
    requires history != [] ==> history[|history| - 1].now <= now
    ensures Summarises(counts, history, WindowOf(now))
  {
    if history != [] {
      LaterWindow(history[|history| - 1].now, now);
      CatchUp(counts, history, WindowOf(history[|history| - 1].now), WindowOf(now));
    }
  }

  // --- how much gets through ---------------------------------------------------------

  /** Request i of the history was allowed. */
  ghost predicate Allowed(history: seq<Request>, limit: int, i: nat)
    requires i < |history|
  {
    CountIn(history[..i], history[i].key, WindowOf(history[i].now)) < limit
  }

  ghost function AllowedInWindow(history: seq<Request>, key: string, limit: int, w: int): nat
  {
    if history == [] then 0
    else
      var n := |history| - 1;
      AllowedInWindow(history[..n], key, limit, w)
      + (if history[n].key == key && WindowOf(history[n].now) == w && Allowed(history, limit, n) then 1 else 0)
  }

  ghost function AllowedBetween(history: seq<Request>, key: string, limit: int, from: real, to: real): nat
  {
    if history == [] then 0
    else
      var n := |history| - 1;
      AllowedBetween(history[..n], key, limit, from, to)
      + (if history[n].key == key && from <= history[n].now <= to && Allowed(history, limit, n) then 1 else 0)
  }

  /** One window lets through the first `limit` requests of a key and no more. */
  lemma {:induction false} WindowBudget(history: seq<Request>, key: string, limit: int, w: int)
    requires limit >= 0
    ensures AllowedInWindow(history, key, limit, w)
            == if CountIn(history, key, w) < limit then CountIn(history, key, w) else limit
  {
    if history != [] {
      WindowBudget(history[..|history| - 1], key, limit, w);
    }
  }

  /** No span of a minute meets more than two windows. */
  lemma {:induction false} SpanMeetsTwoWindows(history: seq<Request>, key: string, limit: int, from: real)
    ensures AllowedBetween(history, key, limit, from, from + 60.0)
            <= AllowedInWindow(history, key, limit, WindowOf(from)) + AllowedInWindow(history, key, limit, WindowOf(from) + 1)
  {
    if history != [] {
      var last := history[|history| - 1];
      SpanMeetsTwoWindows(history[..|history| - 1], key, limit, from);
      if from <= last.now <= from + 60.0 {
        LaterWindow(from, last.now);
        LaterWindow(last.now, from + 60.0);
        WindowBounds(from);
        WindowIs(from + 60.0, WindowOf(from) + 1);
      }
    }
  }

  /** At most twice the limit gets through in any 60 seconds. */
  lemma TwiceTheLimitPerMinute(history: seq<Request>, key: string, limit: int, from: real)
    requires limit >= 0
    ensures AllowedBetween(history, key, limit, from, from + 60.0) <= 2 * limit
  {
    SpanMeetsTwoWindows(history, key, limit, from);
    WindowBudget(history, key, limit, WindowOf(from));
    WindowBudget(history, key, limit, WindowOf(from) + 1);
  }

  /** Order matters: when a clock steps back, a key's count in the later window is forgotten. */
  lemma SteppingBackForgets(key: string)
    ensures var history := [Request(key, 61.0), Request(key, 0.0)];
            var counts := Bumped(Bumped(map[], key, WindowOf(61.0)), key, WindowOf(0.0));
            CountIn(history, key, WindowOf(61.0)) == 1 && Bumped(counts, key, WindowOf(61.0))[key].1 == 1
  {
    WindowIs(61.0, 1);
    WindowIs(0.0, 0);
    var history := [Request(key, 61.0), Request(key, 0.0)];
    assert history[..1] == [Request(key, 61.0)] && history[..1][..0] == [];
    assert CountIn(history[..1], key, 1) == 1;
  }
}
