/** The breaker against its event history, under any interleaving of the proxy's requests. */
module BreakerHistory {
  import opened Breaker

  /** The breaker's mutex puts all calls in one order. */
  datatype Event = Asked(now: int) | Succeeded | Failed(now: int)

  function Next(st: Settings, b: Breaker, e: Event): Breaker {
    match e
    case Asked(now) => Ask(st, b, now)
    case Succeeded => Succeed(b)
    case Failed(now) => Fail(st, b, now)
  }

  function Run(st: Settings, h: seq<Event>): Breaker {
    if h == [] then Initial() else Next(st, Run(st, h[..|h| - 1]), h[|h| - 1])
  }

  /** Failures since the last success, counted in the history alone. */
  function TrailingFailures(h: seq<Event>): nat {
    if h == [] then 0
    else match h[|h| - 1]
      case Asked(_) => TrailingFailures(h[..|h| - 1])
      case Succeeded => 0
      case Failed(_) => TrailingFailures(h[..|h| - 1]) + 1
  }

  /** The failure that trips a closed breaker is the threshold-th; any threshold below 1 acts as 1. */
  function TripCount(st: Settings): int {
    if st.threshold < 1 then 1 else st.threshold
  }

  /** The last success or failure in the history is a success that met a half-open breaker. */
  ghost predicate SuccessPending(st: Settings, h: seq<Event>) {
    exists u :: 0 <= u < |h| && h[u].Succeeded? && Run(st, h[..u]).phase == HalfOpen && OnlyAsks(h, u + 1)
  }

  ghost predicate OnlyAsks(h: seq<Event>, from: nat) {
    forall v :: from <= v < |h| ==> h[v].Asked?
  }

  /** The counters are what the history says. */
  ghost predicate CountersMatch(st: Settings, h: seq<Event>) {
    var b := Run(st, h);
    && (b.phase == Closed ==> b.failures == TrailingFailures(h) && b.failures < TripCount(st))
    && (b.phase != HalfOpen ==> b.successes == 0)
    && (b.phase == HalfOpen ==> b.successes == if SuccessPending(st, h) then 1 else 0)
    && b.failures >= 0
  }

  lemma PendingStep(st: Settings, h: seq<Event>, e: Event)
    ensures SuccessPending(st, h + [e]) <==>
              (e.Asked? && SuccessPending(st, h)) || (e.Succeeded? && Run(st, h).phase == HalfOpen)
  {
    var more := h + [e];
    if SuccessPending(st, more) {
      var u :| 0 <= u < |more| && more[u].Succeeded? && Run(st, more[..u]).phase == HalfOpen && OnlyAsks(more, u + 1);
      assert more[..u] == h[..u];
      if u < |h| {
        assert more[|h|].Asked?;
        assert OnlyAsks(h, u + 1) by {
          assert forall v :: u + 1 <= v < |h| ==> more[v] == h[v];
        }
      } else {
        assert h[..u] == h;
      }
    }
    if e.Asked? && SuccessPending(st, h) {
      var u :| 0 <= u < |h| && h[u].Succeeded? && Run(st, h[..u]).phase == HalfOpen && OnlyAsks(h, u + 1);
      assert more[..u] == h[..u] && OnlyAsks(more, u + 1);
    }
    if e.Succeeded? && Run(st, h).phase == HalfOpen {
      assert more[..|h|] == h && OnlyAsks(more, |h| + 1) && more[|h|].Succeeded?;
    }
  }

  lemma {:induction false} OpenForgetsPending(st: Settings, h: seq<Event>)
    requires SuccessPending(st, h)
    ensures Run(st, h).phase != Open
  {
    if h == [] {
    } else {
      var init, e := h[..|h| - 1], h[|h| - 1];
      assert h == init + [e];
      PendingStep(st, init, e);
      if e.Asked? {
        OpenForgetsPending(st, init);
      }
    }
  }

  /** The breaker refines its history, whatever the interleaving: closed, it counts exactly the failures since
      the last success, and fewer than the threshold; half-open, it counts the success still pending; and
      outside half-open it counts no successes. */
  lemma {:induction false} CountersAlwaysMatch(st: Settings, h: seq<Event>)
    ensures CountersMatch(st, h)
  {
    if h == [] {
    } else {
      var init, e := h[..|h| - 1], h[|h| - 1];
      assert h == init + [e];
      CountersAlwaysMatch(st, init);
      PendingStep(st, init, e);
      if SuccessPending(st, init) && Run(st, init).phase == Open {
        OpenForgetsPending(st, init);
      }
    }
  }

  /** A closed breaker leaves CLOSED only by opening, exactly on the failure that completes the run. */
  lemma TripsExactlyOnTheThreshold(st: Settings, h: seq<Event>, e: Event)
    requires Run(st, h).phase == Closed
    ensures Run(st, h + [e]).phase == Open <==> e.Failed? && TrailingFailures(h + [e]) == TripCount(st)
    ensures Run(st, h + [e]).phase != Open ==> Run(st, h + [e]).phase == Closed
  {
    assert (h + [e])[..|h|] == h;
    CountersAlwaysMatch(st, h);
  }

  /** The breaker closes exactly on the second of two half-open successes with no failure between them. */
  lemma ClosesExactlyOnTwoSuccesses(st: Settings, h: seq<Event>, e: Event)
    requires Run(st, h).phase != Closed
    ensures Run(st, h + [e]).phase == Closed
       <==> e.Succeeded? && Run(st, h).phase == HalfOpen && SuccessPending(st, h)
  {
    assert (h + [e])[..|h|] == h;
    CountersAlwaysMatch(st, h);
  }

  // ---- What each event does ----------------------------------------------------------------------

  /** The clock of the last failure, read from the history alone. */
  function LastFailed(h: seq<Event>): int {
    if h == [] then 0
    else if h[|h| - 1].Failed? then h[|h| - 1].now
    else LastFailed(h[..|h| - 1])
  }

  /** The failures since the count was last cleared: by a success outside HALF_OPEN, or by one that closed. */
  ghost function FailuresKept(st: Settings, h: seq<Event>): nat {
    if h == [] then 0
    else
      var init := h[..|h| - 1];
      match h[|h| - 1]
      case Asked(_) => FailuresKept(st, init)
      case Succeeded =>
        if Run(st, init).phase == HalfOpen && !SuccessPending(st, init) then FailuresKept(st, init) else 0
      case Failed(_) => FailuresKept(st, init) + 1
  }

  lemma {:induction false} FieldsFromHistory(st: Settings, h: seq<Event>)
    ensures Run(st, h).lastFailure == LastFailed(h)
    ensures Run(st, h).failures == FailuresKept(st, h)
  {
    if h == [] {
    } else {
      FieldsFromHistory(st, h[..|h| - 1]);
      CountersAlwaysMatch(st, h[..|h| - 1]);
    }
  }

  /** A call is let through exactly when the breaker is not open or more than the timeout has passed since the last
      failure, however long ago that was. It moves an open breaker to half-open and changes nothing else. */
  lemma AskingExactly(st: Settings, h: seq<Event>, now: int)
    ensures Granted(st, Run(st, h), now) <==> Run(st, h).phase != Open || now - LastFailed(h) > st.timeout
    ensures Run(st, h + [Asked(now)])
         == if Run(st, h).phase == Open && now - LastFailed(h) > st.timeout then Run(st, h).(phase := HalfOpen)
            else Run(st, h)
  {
    assert (h + [Asked(now)])[..|h|] == h;
    FieldsFromHistory(st, h);
  }

  /** A success outside HALF_OPEN clears the failure count and nothing else. In HALF_OPEN the first is remembered and
      the second closes the breaker with every counter at 0. */
  lemma SucceedingExactly(st: Settings, h: seq<Event>)
    ensures Run(st, h + [Succeeded])
         == if Run(st, h).phase != HalfOpen then Run(st, h).(failures := 0)
            else if SuccessPending(st, h) then Breaker(Closed, 0, 0, LastFailed(h))
            else Breaker(HalfOpen, FailuresKept(st, h), 1, LastFailed(h))
  {
    assert (h + [Succeeded])[..|h|] == h;
    FieldsFromHistory(st, h);
    CountersAlwaysMatch(st, h);
  }

  /** A failure opens the breaker exactly when it brings the failures kept to the threshold, in whatever state. */
  lemma FailingExactly(st: Settings, h: seq<Event>, now: int)
    ensures Run(st, h + [Failed(now)])
         == Breaker(if FailuresKept(st, h) + 1 >= st.threshold then Open else Run(st, h).phase,
                    FailuresKept(st, h) + 1, 0, now)
  {
    assert (h + [Failed(now)])[..|h|] == h;
    FieldsFromHistory(st, h);
  }

  /** Recovery: from any open state two successful probes, the first at any moment past the timeout, close the
      breaker. */
  lemma TwoProbesRecover(st: Settings, h: seq<Event>, now: int, later: int)
    requires Run(st, h).phase == Open && now - LastFailed(h) > st.timeout
    ensures var after := h + [Asked(now)] + [Succeeded] + [Asked(later)] + [Succeeded];
            Run(st, after) == Breaker(Closed, 0, 0, LastFailed(h))
  {
    var asked := h + [Asked(now)];
    var once := asked + [Succeeded];
    var again := once + [Asked(later)];
    CountersAlwaysMatch(st, h);
    AskingExactly(st, h, now);
    PendingStep(st, h, Asked(now));
    if SuccessPending(st, h) {
      OpenForgetsPending(st, h);
    }
    SucceedingExactly(st, asked);
    PendingStep(st, asked, Succeeded);
    AskingExactly(st, once, later);
    PendingStep(st, once, Asked(later));
    SucceedingExactly(st, again);
    assert LastFailed(again) == LastFailed(h) by {
      assert again[..|once|] == once && once[..|asked|] == asked && asked[..|h|] == h;
    }
  }

  // ---- Half-open failures under interleaving -----------------------------------------------------

  /** Granted calls whose outcome has not been recorded yet. */
  function InFlight(st: Settings, h: seq<Event>): int {
    if h == [] then 0
    else
      var init := h[..|h| - 1];
      match h[|h| - 1]
      case Asked(now) => InFlight(st, init) + (if Granted(st, Run(st, init), now) then 1 else 0)
      case Succeeded => InFlight(st, init) - 1
      case Failed(_) => InFlight(st, init) - 1
  }

  predicate NotBefore(h: seq<Event>, now: int) {
    forall i :: 0 <= i < |h| && !h[i].Succeeded? ==> h[i].now <= now
  }

  /** What the proxy can do next with at most `limit` calls in flight: an outcome is always that of a granted
      call, and the clock does not run backwards. */
  predicate CanFollow(st: Settings, limit: int, h: seq<Event>, e: Event) {
    match e
    case Asked(now) => NotBefore(h, now) && (Granted(st, Run(st, h), now) ==> InFlight(st, h) < limit)
    case Succeeded => InFlight(st, h) > 0
    case Failed(now) => NotBefore(h, now) && InFlight(st, h) > 0
  }

  /** The histories that proxied requests leave behind. */
  predicate Proxied(st: Settings, limit: int, h: seq<Event>) {
    h == [] || (Proxied(st, limit, h[..|h| - 1]) && CanFollow(st, limit, h[..|h| - 1], h[|h| - 1]))
  }

  lemma Follow(st: Settings, limit: int, h: seq<Event>, e: Event)
    requires Proxied(st, limit, h) && CanFollow(st, limit, h, e)
    ensures Proxied(st, limit, h + [e])
    ensures Run(st, h + [e]) == Next(st, Run(st, h), e)
    ensures InFlight(st, h + [e]) == InFlight(st, h)
            + (if !e.Asked? then -1 else if Granted(st, Run(st, h), e.now) then 1 else 0)
  {
    assert (h + [e])[..|h|] == h;
  }

  /** Every half-open failure of a proxied request reopens the breaker. */
  ghost predicate HalfOpenFailuresReopen(st: Settings, limit: int) {
    forall h: seq<Event>, now: int | Proxied(st, limit, h + [Failed(now)]) && Run(st, h).phase == HalfOpen ::
      Run(st, h + [Failed(now)]).phase == Open
  }

  /** One call is granted before the breaker trips and stays in flight while `n` others fail. */
  function Straggler(n: nat): seq<Event> {
    if n == 0 then [Asked(0)] else Straggler(n - 1) + [Asked(0)] + [Failed(0)]
  }

  /** After `n` failures at clock 0, with one call still in flight. */
  ghost predicate Strained(st: Settings, limit: int, h: seq<Event>, n: nat) {
    && Proxied(st, limit, h) && InFlight(st, h) == 1
    && NotBefore(h, 0)
    && Run(st, h).failures == n
    && Run(st, h).phase == (if n > 0 && n >= st.threshold then Open else Closed)
    && (n > 0 ==> Run(st, h).lastFailure == 0)
  }

  lemma OneMoreFailure(st: Settings, limit: int, h: seq<Event>, n: nat)
    requires Strained(st, limit, h, n) && n < st.threshold && limit >= 2
    ensures Strained(st, limit, h + [Asked(0)] + [Failed(0)], n + 1)
  {
    hide Proxied, InFlight, Run;
    Follow(st, limit, h, Asked(0));
    Follow(st, limit, h + [Asked(0)], Failed(0));
  }

  lemma {:induction false} StragglerInFlight(st: Settings, limit: int, n: nat)
    requires n <= st.threshold && limit >= 2
    ensures Strained(st, limit, Straggler(n), n)
  {
    if n == 0 {
      Follow(st, limit, [], Asked(0));
      assert Straggler(0) == [] + [Asked(0)];
    } else {
      StragglerInFlight(st, limit, n - 1);
      OneMoreFailure(st, limit, Straggler(n - 1), n - 1);
    }
  }

  /** The straggler succeeds while the breaker is open and wipes the failure count; the failure of the next
      probe then leaves the breaker half-open. Two calls in flight are enough. */
  lemma LateSuccessDefeatsReopening(st: Settings, limit: int) returns (h: seq<Event>, now: int)
    requires st.threshold >= 2 && limit >= 2
    ensures Proxied(st, limit, h + [Failed(now)])
    ensures Run(st, h).phase == HalfOpen && Run(st, h + [Failed(now)]).phase == HalfOpen
  {
    hide Proxied, InFlight, Run;
    var open := Straggler(st.threshold);
    StragglerInFlight(st, limit, st.threshold);
    Follow(st, limit, open, Succeeded);
    now := if st.timeout < 0 then 0 else st.timeout + 1;
    Follow(st, limit, open + [Succeeded], Asked(now));
    h := open + [Succeeded] + [Asked(now)];
    Follow(st, limit, h, Failed(now));
  }

  /** With one call in flight at most, none is in flight while the breaker is open, and it remembers the
      failures that opened it until it closes. */
  lemma {:induction false} OneInFlightRemembers(st: Settings, limit: int, h: seq<Event>)
    requires limit <= 1 && Proxied(st, limit, h)
    ensures 0 <= InFlight(st, h) <= 1
    ensures Run(st, h).phase == Open ==> InFlight(st, h) == 0
    ensures Run(st, h).phase != Closed ==> Run(st, h).failures >= st.threshold
  {
    if h == [] {
    } else {
      OneInFlightRemembers(st, limit, h[..|h| - 1]);
    }
  }

  lemma {:induction false} FailuresNonnegative(st: Settings, h: seq<Event>)
    ensures Run(st, h).failures >= 0
  {
    if h == [] {
    } else {
      FailuresNonnegative(st, h[..|h| - 1]);
    }
  }

  /** The promise "a half-open failure reopens" holds exactly when a single failure trips the breaker or no
      two calls are ever in flight together. */
  lemma ReopeningIsSequential(st: Settings, limit: int)
    ensures HalfOpenFailuresReopen(st, limit) <==> st.threshold <= 1 || limit <= 1
  {
    if st.threshold >= 2 && limit >= 2 {
      var h, now := LateSuccessDefeatsReopening(st, limit);
      assert Run(st, h + [Failed(now)]).phase != Open;
    } else {
      forall h: seq<Event>, now: int | Proxied(st, limit, h + [Failed(now)]) && Run(st, h).phase == HalfOpen
        ensures Run(st, h + [Failed(now)]).phase == Open
      {
        assert (h + [Failed(now)])[..|h|] == h;
        FailuresNonnegative(st, h);
        if limit <= 1 {
          OneInFlightRemembers(st, limit, h);
        }
      }
    }
  }
}
