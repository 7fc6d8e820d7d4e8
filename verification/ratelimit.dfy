/** `RateLimiter` and `AsyncRateLimiter` (medkit/utils.py): at most
    `calls` admissions within a rolling window of `period` ticks, and
    `paginate`.

    Time is a parameter.  One evaluation of `wait()` reads the clock once
    (`now`) and, if it admits, once more for the stamp it records
    (`later`).  Instead of sleeping, an evaluation that cannot admit
    returns how long it would sleep before evaluating again.
 */
module RateLimit {
  import opened Wrappers

  datatype Limiter = Limiter(calls: int, period: int, stamps: seq<int>)

  /** The constructor as written: nothing is checked. */
  function NewLimiter(calls: int, period: int): (l: Limiter)
    ensures l.calls == calls && l.period == period && l.stamps == []
  {
    Limiter(calls, period, [])
  }

  predicate Ascending(s: seq<int>) {
    forall i, j :: 0 <= i < j < |s| ==> s[i] <= s[j]
  }

  /** The synchronous variant's list comprehension: keep the stamps still
      inside the window, in order. */
  function Prune(stamps: seq<int>, now: int, period: int): (r: seq<int>)
    ensures forall t :: t in r <==> t in stamps && now - t < period
    ensures |r| <= |stamps|
    ensures Ascending(stamps) ==> Ascending(r)
  {
    if |stamps| == 0 then []
    else
      var rest := Prune(stamps[1..], now, period);
      assert forall t :: t in stamps[1..] ==> t in stamps;
      assert Ascending(stamps) ==> forall i :: 0 <= i < |rest| ==> stamps[0] <= rest[i] by {
        if Ascending(stamps) {
          forall i | 0 <= i < |rest| ensures stamps[0] <= rest[i] {
            assert rest[i] in stamps[1..];
            var k :| 0 <= k < |stamps[1..]| && stamps[1..][k] == rest[i];
            assert stamps[k + 1] == rest[i];
          }
        }
      }
      if now - stamps[0] < period then [stamps[0]] + rest else rest
  }

  /** The asynchronous variant's loop: pop from the front while the front
      stamp has left the window. */
  function PopExpired(stamps: seq<int>, now: int, period: int): (r: seq<int>)
    ensures |r| <= |stamps| && r == stamps[|stamps| - |r|..]
    ensures |r| > 0 ==> now - r[0] < period
    ensures forall i :: 0 <= i < |stamps| - |r| ==> now - stamps[i] >= period
  {
    if |stamps| > 0 && now - stamps[0] >= period then
      var r := PopExpired(stamps[1..], now, period);
      assert forall i :: 1 <= i < |stamps| ==> stamps[i] == stamps[1..][i - 1];
      r
    else stamps
  }

  /** One stamp is kept exactly when it is still inside the window. */
  lemma PruneSingle(t: int, now: int, period: int)
    ensures Prune([t], now, period) == if now - t < period then [t] else []
  {
    assert [t][1..] == [];
  }

  /** Pruning works stamp by stamp: pruning a concatenation prunes each
      part, so copies and order survive exactly as they were. */
  lemma {:induction false} PruneConcat(a: seq<int>, b: seq<int>, now: int, period: int)
    ensures Prune(a + b, now, period) == Prune(a, now, period) + Prune(b, now, period)
    decreases |a|
  {
    if |a| == 0 {
      assert a + b == b;
    } else {
      assert (a + b)[1..] == a[1..] + b;
      PruneConcat(a[1..], b, now, period);
    }
  }

  /** A window whose every stamp is young is kept whole. */
  lemma {:induction false} PruneKeepsYoung(stamps: seq<int>, now: int, period: int)
    requires forall i :: 0 <= i < |stamps| ==> now - stamps[i] < period
    ensures Prune(stamps, now, period) == stamps
  {
    if |stamps| > 0 {
      PruneKeepsYoung(stamps[1..], now, period);
    }
  }

  /** On ascending stamps the two pruning strategies keep the same list. */
  lemma {:induction false} PruningAgrees(stamps: seq<int>, now: int, period: int)
    requires Ascending(stamps)
    ensures PopExpired(stamps, now, period) == Prune(stamps, now, period)
  {
    if |stamps| > 0 {
      if now - stamps[0] >= period {
        PruningAgrees(stamps[1..], now, period);
      } else {
        PruneKeepsYoung(stamps[1..], now, period);
      }
    }
  }

  /** The outcome of one evaluation of `wait()`. */
  datatype Step =
    | Admitted(lim: Limiter)                 // a stamp was recorded
    | Recheck(lim: Limiter, sleep: int)      // sleep this long, then evaluate again
    | Crash(error: PyError)                  // `self.timestamps[0]` of an empty window

  /** The decision both variants take on a pruned window. */
  function Decide(calls: int, period: int, window: seq<int>, now: int, later: int): (s: Step)
    ensures s.Admitted? <==> |window| < calls
    ensures s.Admitted? ==> s.lim == Limiter(calls, period, window + [later])
    ensures s.Crash? <==> calls <= 0 && |window| == 0
    ensures s.Crash? ==> s.error == IndexError
    // a wait lasts until the oldest stamp leaves the window
    ensures s.Recheck? ==> s.lim == Limiter(calls, period, window) && |window| > 0
                           && s.sleep == if period - (now - window[0]) > 0 then period - (now - window[0]) else 0
  {
    if |window| >= calls then
      if |window| == 0 then Crash(IndexError)
      else
        var d := period - (now - window[0]);
        Recheck(Limiter(calls, period, window), if d > 0 then d else 0)
    else Admitted(Limiter(calls, period, window + [later]))
  }

  /** `RateLimiter.wait`, one evaluation. */
  function SyncStep(lim: Limiter, now: int, later: int): (s: Step)
    ensures s.Admitted? <==> |Prune(lim.stamps, now, lim.period)| < lim.calls
    ensures s.Admitted? ==> s.lim.stamps == Prune(lim.stamps, now, lim.period) + [later]
    // the sleep is always positive: the oldest surviving stamp is still in the window
    ensures s.Recheck? ==> s.lim.stamps == Prune(lim.stamps, now, lim.period) && s.sleep > 0
    ensures !s.Crash? ==> s.lim.calls == lim.calls && s.lim.period == lim.period
  {
    var w := Prune(lim.stamps, now, lim.period);
    assert |w| > 0 ==> w[0] in lim.stamps && now - w[0] < lim.period;
    Decide(lim.calls, lim.period, w, now, later)
  }

  /** `AsyncRateLimiter.wait`, one evaluation. */
  function AsyncStep(lim: Limiter, now: int, later: int): (s: Step)
    ensures s.Admitted? <==> |PopExpired(lim.stamps, now, lim.period)| < lim.calls
    ensures s.Recheck? ==> s.lim.stamps == PopExpired(lim.stamps, now, lim.period) && s.sleep > 0
  {
    Decide(lim.calls, lim.period, PopExpired(lim.stamps, now, lim.period), now, later)
  }

  /** Both variants take identical decisions on ascending stamps. */
  lemma VariantsAgree(lim: Limiter, now: int, later: int)
    requires Ascending(lim.stamps)
    ensures SyncStep(lim, now, later) == AsyncStep(lim, now, later)
  {
    PruningAgrees(lim.stamps, now, lim.period);
  }

  /** The state a limiter with `calls >= 1` keeps under a monotone clock. */
  predicate Good(lim: Limiter, now: int) {
    lim.calls >= 1 && Ascending(lim.stamps) && |lim.stamps| <= lim.calls
    && forall i :: 0 <= i < |lim.stamps| ==> lim.stamps[i] <= now
  }

  /** With `calls >= 1` and a clock that does not run backwards, no
      evaluation crashes, the window stays ascending and never holds more
      than `calls` stamps. */
  lemma StepKeepsGood(lim: Limiter, now: int, later: int)
    requires Good(lim, now) && now <= later
    ensures !SyncStep(lim, now, later).Crash?
    ensures Good(SyncStep(lim, now, later).lim, later)
  {
    var w := Prune(lim.stamps, now, lim.period);
    assert forall t :: t in w ==> t <= now by {
      forall t | t in w ensures t <= now {
        var i :| 0 <= i < |lim.stamps| && lim.stamps[i] == t;
      }
    }
    assert forall i :: 0 <= i < |w| ==> w[i] in w;
    var s := SyncStep(lim, now, later);
    if s.Admitted? {
      assert s.lim.stamps == w + [later];
    }
  }

  /** Sleeping the returned duration is enough: the next evaluation, at any
      time no earlier than the sleep's end, admits. */
  lemma OneSleepSuffices(lim: Limiter, now: int, later: int, now2: int, later2: int)
    requires Good(lim, now) && now <= later
    requires SyncStep(lim, now, later).Recheck?
    requires now2 >= now + SyncStep(lim, now, later).sleep
    ensures SyncStep(SyncStep(lim, now, later).lim, now2, later2).Admitted?
  {
    var s := SyncStep(lim, now, later);
    var w := s.lim.stamps;
    assert |w| <= lim.calls;
    var w2 := Prune(w, now2, lim.period);
    assert w[0] !in w2 by {
      assert Ascending(w);
    }
    assert w[0] in w;
    PruneMissesOne(w, now2, lim.period);
  }

  /** When the first stamp is pruned the window shrinks. */
  lemma PruneMissesOne(stamps: seq<int>, now: int, period: int)
    requires |stamps| > 0 && now - stamps[0] >= period
    ensures |Prune(stamps, now, period)| < |stamps|
  {
    assert Prune(stamps, now, period) == Prune(stamps[1..], now, period);
  }

  lemma FirstCallAdmitted()
    ensures SyncStep(NewLimiter(2, 1000), 0, 0) == Admitted(Limiter(2, 1000, [0]))
  {
    assert Prune([], 0, 1000) == [];
  }

  lemma SecondCallAdmitted()
    ensures SyncStep(Limiter(2, 1000, [0]), 100, 100) == Admitted(Limiter(2, 1000, [0, 100]))
  {
    PruneKeepsYoung([0], 100, 1000);
    assert Prune([0], 100, 1000) == [0];
  }

  lemma ThirdCallHeld(t: int)
    requires 200 <= t < 1000
    ensures SyncStep(Limiter(2, 1000, [0, 100]), t, t) == Recheck(Limiter(2, 1000, [0, 100]), 1000 - t)
  {
    PruneKeepsYoung([0, 100], t, 1000);
    assert Prune([0, 100], t, 1000) == [0, 100];
  }

  lemma ThirdCallAtExpiry()
    ensures SyncStep(Limiter(2, 1000, [0, 100]), 1000, 1000) == Admitted(Limiter(2, 1000, [100, 1000]))
  {
    assert [0, 100][1..] == [100];
    PruneKeepsYoung([100], 1000, 1000);
    assert Prune([0, 100], 1000, 1000) == [100];
  }

  /** Two admissions at 0 and 100 with two calls per 1000 ticks: a third
      call is held until tick 1000, when the stamp from tick 0 leaves. */
  lemma ThirdCallWaitsForFirstToExpire(t: int)
    requires 200 <= t < 1000
    ensures SyncStep(NewLimiter(2, 1000), 0, 0) == Admitted(Limiter(2, 1000, [0]))
    ensures SyncStep(Limiter(2, 1000, [0]), 100, 100) == Admitted(Limiter(2, 1000, [0, 100]))
    ensures SyncStep(Limiter(2, 1000, [0, 100]), t, t) == Recheck(Limiter(2, 1000, [0, 100]), 1000 - t)
    ensures SyncStep(Limiter(2, 1000, [0, 100]), 1000, 1000) == Admitted(Limiter(2, 1000, [100, 1000]))
  {
    FirstCallAdmitted();
    SecondCallAdmitted();
    ThirdCallHeld(t);
    ThirdCallAtExpiry();
  }

  // ---------------------------------------------------------------------
  // Finding: `calls <= 0` is accepted and then crashes

  /** A limiter built with no calls allowed indexes an empty window on its
      first evaluation. */
  lemma ZeroCallsCrashes(period: int, now: int, later: int)
    ensures SyncStep(NewLimiter(0, period), now, later) == Crash(IndexError)
  {
  }

  /** The intended constructor: a limiter that could never admit is
      refused. */
  function CheckedLimiter(calls: int, period: int): (r: Result<Limiter>)
    ensures r.Err? <==> calls <= 0
    ensures r.Err? ==> r.error.ValueError?
    ensures r.Ok? ==> r.value == NewLimiter(calls, period) && Good(r.value, 0)
  {
    if calls <= 0 then Err(ValueError("calls must be positive"))
    else Ok(NewLimiter(calls, period))
  }

  /** A limiter that allows at least one call never crashes, in either
      variant, whatever its window and the clock. */
  lemma PositiveCallsNeverCrash(lim: Limiter, now: int, later: int)
    requires lim.calls > 0
    ensures !SyncStep(lim, now, later).Crash? && !AsyncStep(lim, now, later).Crash?
  {
  }

  /** Successive evaluations of `RateLimiter.wait`, the `i`-th at
      `clock[i].0` stamping `clock[i].1` if admitted; the first crash ends
      the run. */
  function RunSync(lim: Limiter, clock: seq<(int, int)>): Result<Limiter>
    decreases |clock|
  {
    if |clock| == 0 then Ok(lim)
    else
      match SyncStep(lim, clock[0].0, clock[0].1)
      case Crash(e) => Err(e)
      case Admitted(next) => RunSync(next, clock[1..])
      case Recheck(next, _) => RunSync(next, clock[1..])
  }

  /** The same for `AsyncRateLimiter.wait`. */
  function RunAsync(lim: Limiter, clock: seq<(int, int)>): Result<Limiter>
    decreases |clock|
  {
    if |clock| == 0 then Ok(lim)
    else
      match AsyncStep(lim, clock[0].0, clock[0].1)
      case Crash(e) => Err(e)
      case Admitted(next) => RunAsync(next, clock[1..])
      case Recheck(next, _) => RunAsync(next, clock[1..])
  }

  /** With `calls >= 1`, no run of either variant crashes, and the limit
      and period never change. */
  lemma {:induction false} PositiveCallsRunsNeverCrash(lim: Limiter, clock: seq<(int, int)>)
    requires lim.calls > 0
    ensures RunSync(lim, clock).Ok? && RunSync(lim, clock).value.calls == lim.calls
    ensures RunSync(lim, clock).value.period == lim.period
    ensures RunAsync(lim, clock).Ok? && RunAsync(lim, clock).value.calls == lim.calls
    ensures RunAsync(lim, clock).value.period == lim.period
    decreases |clock|
  {
    if |clock| > 0 {
      var now, later := clock[0].0, clock[0].1;
      PositiveCallsNeverCrash(lim, now, later);
      var s, a := SyncStep(lim, now, later), AsyncStep(lim, now, later);
      assert s.lim.calls == lim.calls && s.lim.period == lim.period;
      assert a.lim.calls == lim.calls && a.lim.period == lim.period;
      PositiveCallsRunsNeverCrash(s.lim, clock[1..]);
      PositiveCallsRunsNeverCrash(a.lim, clock[1..]);
    }
  }

  /** A limiter from the checked constructor admits its first call at any
      time, and no later sequence of evaluations of either variant, at any
      times, crashes. */
  lemma CheckedLimiterNeverCrashes(calls: int, period: int, now: int, later: int, clock: seq<(int, int)>)
    requires CheckedLimiter(calls, period).Ok?
    ensures SyncStep(CheckedLimiter(calls, period).value, now, later).Admitted?
    ensures RunSync(CheckedLimiter(calls, period).value, clock).Ok?
    ensures RunAsync(CheckedLimiter(calls, period).value, clock).Ok?
  {
    PositiveCallsRunsNeverCrash(CheckedLimiter(calls, period).value, clock);
  }

  // ---------------------------------------------------------------------
  // paginate

  /** Pages `0 .. n-1` concatenated. */
  function Flatten<T>(fetch: nat -> seq<T>, n: nat): seq<T> {
    if n == 0 then [] else Flatten(fetch, n - 1) + fetch(n - 1)
  }

  /** The first page index from `p` on that is empty, or `maxPages`. */
  function StopPage<T>(fetch: nat -> seq<T>, maxPages: nat, p: nat): (q: nat)
    requires p <= maxPages
    ensures p <= q <= maxPages
    ensures forall k :: p <= k < q ==> fetch(k) != []
    ensures q < maxPages ==> fetch(q) == []
    decreases maxPages - p
  {
    if p == maxPages || fetch(p) == [] then p else StopPage(fetch, maxPages, p + 1)
  }

  function Max0(n: int): nat { if n < 0 then 0 else n }

  /** `paginate(fetch_page, max_pages)`; also returns how many pages were
      fetched. */
  method Paginate<T>(fetch: nat -> seq<T>, maxPages: int) returns (r: seq<T>, fetched: nat)
    // the pages before the first empty one, in order, and no further
    ensures r == Flatten(fetch, StopPage(fetch, Max0(maxPages), 0))
    // the empty page that ends the loop is fetched too
    ensures fetched == if StopPage(fetch, Max0(maxPages), 0) < Max0(maxPages)
                       then StopPage(fetch, Max0(maxPages), 0) + 1 else Max0(maxPages)
    ensures maxPages <= 0 ==> r == [] && fetched == 0
  {
    var n := Max0(maxPages);
    r := [];
    var page: nat := 0;
    fetched := 0;
    while page < n
      invariant page <= StopPage(fetch, n, 0) <= n
      invariant forall k :: 0 <= k < page ==> fetch(k) != []
      invariant r == Flatten(fetch, page)
      invariant fetched == page
      decreases n - page
    {
      var items := fetch(page);
      fetched := fetched + 1;
      if items == [] {
        StopPageIsFirstEmpty(fetch, n, page);
        return;
      }
      r := r + items;
      page := page + 1;
      StopPageAfter(fetch, n, page);
    }
  }

  /** The stop page is the first empty page. */
  lemma StopPageIsFirstEmpty<T>(fetch: nat -> seq<T>, maxPages: nat, p: nat)
    requires p < maxPages && fetch(p) == []
    requires forall k :: 0 <= k < p ==> fetch(k) != []
    ensures StopPage(fetch, maxPages, 0) == p
  {
  }

  lemma StopPageAfter<T>(fetch: nat -> seq<T>, maxPages: nat, p: nat)
    requires p <= maxPages
    requires forall k :: 0 <= k < p ==> fetch(k) != []
    ensures p <= StopPage(fetch, maxPages, 0)
  {
  }

  /** Page contents are kept: with every page non-empty the result is all
      `max_pages` pages. */
  lemma {:induction false} FullPagesAllTaken<T>(fetch: nat -> seq<T>, maxPages: nat, p: nat)
    requires p <= maxPages
    requires forall k :: p <= k < maxPages ==> fetch(k) != []
    ensures StopPage(fetch, maxPages, p) == maxPages
    decreases maxPages - p
  {
    if p < maxPages {
      FullPagesAllTaken(fetch, maxPages, p + 1);
    }
  }
}
