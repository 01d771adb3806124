/** Sequential runs through the proxy, one request in flight at a time, as the shipped client makes them. */
module BreakerRuns {
  import opened Breaker
  import opened BreakerHistory
  import BreakerConcurrent

  datatype Request = Request(askAt: int, backendOk: bool, recordAt: int)

  function Serve(st: Settings, b: Breaker, r: Request): Breaker {
    if !Granted(st, b, r.askAt) then b
    else if r.backendOk then Succeed(Ask(st, b, r.askAt))
    else Fail(st, Ask(st, b, r.askAt), r.recordAt)
  }

  function ServeAll(st: Settings, b: Breaker, rs: seq<Request>): Breaker {
    if rs == [] then b else Serve(st, ServeAll(st, b, rs[..|rs| - 1]), rs[|rs| - 1])
  }

  /** How many of the requests reach the backend. */
  function Calls(st: Settings, b: Breaker, rs: seq<Request>): nat {
    if rs == [] then 0
    else Calls(st, b, rs[..|rs| - 1])
         + (if Granted(st, ServeAll(st, b, rs[..|rs| - 1]), rs[|rs| - 1].askAt) then 1 else 0)
  }

  // ---- Sequential runs are histories -------------------------------------------------------------

  /** The history of a request after `h`: the ask, and the outcome if the call is granted. */
  function AfterRequest(st: Settings, h: seq<Event>, r: Request): seq<Event> {
    var asked := h + [Asked(r.askAt)];
    if !Granted(st, Run(st, h), r.askAt) then asked
    else asked + [if r.backendOk then Succeeded else Failed(r.recordAt)]
  }

  /** The events a sequential run leaves in the breaker's history. */
  function EventsOf(st: Settings, rs: seq<Request>): seq<Event> {
    if rs == [] then [] else AfterRequest(st, EventsOf(st, rs[..|rs| - 1]), rs[|rs| - 1])
  }

  /** One request in flight, on a clock that does not run backwards. */
  predicate InOrder(rs: seq<Request>) {
    && (forall i :: 0 <= i < |rs| ==> rs[i].askAt <= rs[i].recordAt)
    && (forall i :: 0 < i < |rs| ==> rs[i - 1].recordAt <= rs[i].askAt)
  }

  lemma OrderedPrefix(rs: seq<Request>)
    requires |rs| > 0 && InOrder(rs)
    ensures InOrder(rs[..|rs| - 1])
  {
  }

  /** Between requests: proxied one at a time, with nothing in flight, up to clock `now`. */
  ghost predicate Between(st: Settings, h: seq<Event>, now: int) {
    Proxied(st, 1, h) && InFlight(st, h) == 0 && NotBefore(h, now)
  }

  lemma OneMoreRequest(st: Settings, h: seq<Event>, r: Request)
    requires Between(st, h, r.askAt) && r.askAt <= r.recordAt
    ensures Between(st, AfterRequest(st, h, r), r.recordAt)
  {
    hide Proxied, InFlight, Run;
    Follow(st, 1, h, Asked(r.askAt));
    if Granted(st, Run(st, h), r.askAt) {
      Follow(st, 1, h + [Asked(r.askAt)], if r.backendOk then Succeeded else Failed(r.recordAt));
    }
  }

  lemma RunOfRequest(st: Settings, h: seq<Event>, r: Request)
    ensures Serve(st, Run(st, h), r) == Run(st, AfterRequest(st, h, r))
  {
    var asked := h + [Asked(r.askAt)];
    assert asked[..|h|] == h;
    assert (asked + [if r.backendOk then Succeeded else Failed(r.recordAt)])[..|asked|] == asked;
  }

  /** A sequential run from a new breaker is one of the interleavings, one that never has two calls in flight. */
  lemma {:induction false} SequentialRunIsHistory(st: Settings, rs: seq<Request>)
    ensures Run(st, EventsOf(st, rs)) == ServeAll(st, Initial(), rs)
    ensures InOrder(rs) ==> forall now | rs != [] ==> rs[|rs| - 1].recordAt <= now :: Between(st, EventsOf(st, rs), now)
  {
    if rs == [] {
    } else {
      hide Proxied, InFlight, Run, Granted, Serve;
      var init, r := rs[..|rs| - 1], rs[|rs| - 1];
      SequentialRunIsHistory(st, init);
      RunOfRequest(st, EventsOf(st, init), r);
      if InOrder(rs) {
        OneMoreRequest(st, EventsOf(st, init), r);
      }
    }
  }

  lemma CallsOfRequest(st: Settings, h: seq<Event>, r: Request)
    ensures var asked := h + [Asked(r.askAt)];
            var e := if r.backendOk then Succeeded else Failed(r.recordAt);
            && BreakerConcurrent.Calls(st, asked)
               == BreakerConcurrent.Calls(st, h) + (if Granted(st, Run(st, h), r.askAt) then 1 else 0)
            && BreakerConcurrent.Calls(st, asked + [e]) == BreakerConcurrent.Calls(st, asked)
  {
    hide Run, Granted;
    var asked := h + [Asked(r.askAt)];
    assert asked[..|h|] == h;
    assert (asked + [if r.backendOk then Succeeded else Failed(r.recordAt)])[..|asked|] == asked;
  }

  /** The calls counted over the requests are the granted asks of the history. */
  lemma {:induction false} CallsInHistory(st: Settings, rs: seq<Request>)
    ensures Calls(st, Initial(), rs) == BreakerConcurrent.Calls(st, EventsOf(st, rs))
  {
    hide Run, Granted, ServeAll, BreakerConcurrent.Calls;
    if rs == [] {
      NoCalls(st);
    } else {
      var init := rs[..|rs| - 1];
      CallsInHistory(st, init);
      SequentialRunIsHistory(st, init);
      CallsOfRequest(st, EventsOf(st, init), rs[|rs| - 1]);
    }
  }

  lemma NoCalls(st: Settings)
    ensures BreakerConcurrent.Calls(st, []) == 0
  {
  }

  /** Between two sequential requests: a breaker that is not closed remembers at least `threshold` failures,
      and one left half-open has exactly one success behind it. */
  ghost predicate Settled(st: Settings, b: Breaker) {
    && b.failures >= 0
    && (b.phase == Closed ==> b.successes == 0 && b.failures < TripCount(st))
    && (b.phase == Open ==> b.successes == 0 && b.failures >= st.threshold)
    && (b.phase == HalfOpen ==> b.successes == 1 && b.failures >= st.threshold)
  }

  lemma {:induction false} AlwaysSettled(st: Settings, b: Breaker, rs: seq<Request>)
    requires Settled(st, b)
    ensures Settled(st, ServeAll(st, b, rs))
  {
    if rs == [] {
    } else {
      AlwaysSettled(st, b, rs[..|rs| - 1]);
    }
  }

  /** In a sequential run every failure met while probing reopens the breaker, for every threshold. */
  lemma ProbeFailureReopens(st: Settings, rs: seq<Request>, r: Request)
    requires ServeAll(st, Initial(), rs).phase != Closed
    requires Granted(st, ServeAll(st, Initial(), rs), r.askAt) && !r.backendOk
    ensures ServeAll(st, Initial(), rs + [r]).phase == Open
  {
    AlwaysSettled(st, Initial(), rs);
    assert (rs + [r])[..|rs|] == rs;
  }

  /** Recovery: two successful requests, the first at any moment past the timeout, close an open breaker. */
  lemma TwoRequestsRecover(st: Settings, rs: seq<Request>, r: Request, s: Request)
    requires ServeAll(st, Initial(), rs).phase == Open
    requires r.backendOk && r.askAt - LastFailed(EventsOf(st, rs)) > st.timeout && s.backendOk
    ensures var after := ServeAll(st, Initial(), rs + [r] + [s]);
            after.phase == Closed && after.failures == 0 && after.successes == 0
  {
    AlwaysSettled(st, Initial(), rs);
    SequentialRunIsHistory(st, rs);
    FieldsFromHistory(st, EventsOf(st, rs));
    assert (rs + [r])[..|rs|] == rs && (rs + [r] + [s])[..|rs| + 1] == rs + [r];
  }

  // ---- How often a dead backend is called --------------------------------------------------------

  predicate AllFail(rs: seq<Request>) {
    forall i :: 0 <= i < |rs| ==> !rs[i].backendOk
  }

  /** When the run opened the breaker; for one that was open already, its last failure. */
  function TripTime(st: Settings, b: Breaker, rs: seq<Request>): int {
    if rs == [] then b.lastFailure
    else if ServeAll(st, b, rs[..|rs| - 1]).phase != Open then rs[|rs| - 1].recordAt
    else TripTime(st, b, rs[..|rs| - 1])
  }

  /** The failing calls a breaker takes until it is open. */
  function Allowance(st: Settings, b: Breaker): int {
    match b.phase
    case Closed => TripCount(st) - b.failures
    case HalfOpen => 1
    case Open => 0
  }

  /** The state of the accounts after a run against a dead backend. */
  ghost predicate Accounts(st: Settings, b: Breaker, rs: seq<Request>) {
    var a, calls := ServeAll(st, b, rs), Calls(st, b, rs);
    && (a.phase != Open ==> a.phase == b.phase && a.failures == b.failures + calls && calls < Allowance(st, b))
    && (a.phase == Open ==>
          var probes := calls - Allowance(st, b);
          && probes >= 0
          && (probes == 0 ==> a.lastFailure == TripTime(st, b, rs))
          && (probes > 0 ==> probes * st.timeout < a.lastFailure - TripTime(st, b, rs)))
  }

  lemma OneMoreProbe(probes: int, timeout: int, trip: int, last: int, now: int)
    requires probes >= 0 && (probes == 0 ==> last == trip) && (probes > 0 ==> probes * timeout < last - trip)
    requires now - last > timeout
    ensures (probes + 1) * timeout < now - trip
  {
    assert (probes + 1) * timeout == probes * timeout + timeout;
  }

  lemma {:induction false} DeadBackendAccounts(st: Settings, b: Breaker, rs: seq<Request>)
    requires Settled(st, b) && AllFail(rs) && InOrder(rs)
    ensures Accounts(st, b, rs)
  {
    if rs == [] {
    } else {
      var init, r := rs[..|rs| - 1], rs[|rs| - 1];
      OrderedPrefix(rs);
      DeadBackendAccounts(st, b, init);
      var a := ServeAll(st, b, init);
      AlwaysSettled(st, b, init);
      if a.phase == Open && Granted(st, a, r.askAt) {
        OneMoreProbe(Calls(st, b, init) - Allowance(st, b), st.timeout, TripTime(st, b, init), a.lastFailure, r.askAt);
      }
    }
  }

  /** Backend protection, from any state a sequential run can leave the breaker in: a dead backend is called
      until the allowance is used up, which opens the breaker, and then k more times, where k recovery timeouts
      fit strictly into the time since it opened. With allowance left the breaker stays as it was. */
  lemma DeadBackendIsProtected(st: Settings, b: Breaker, rs: seq<Request>, now: int)
    requires Settled(st, b) && AllFail(rs) && InOrder(rs)
    requires rs != [] ==> rs[|rs| - 1].recordAt <= now
    ensures var k := Calls(st, b, rs) - Allowance(st, b);
            && (ServeAll(st, b, rs).phase == if k < 0 then b.phase else Open)
            && (k > 0 ==> k * st.timeout < now - TripTime(st, b, rs))
  {
    DeadBackendAccounts(st, b, rs);
    if Calls(st, b, rs) > 0 {
      LastFailureByNow(st, b, rs, now);
    }
  }

  lemma {:induction false} LastFailureByNow(st: Settings, b: Breaker, rs: seq<Request>, now: int)
    requires AllFail(rs) && InOrder(rs) && Calls(st, b, rs) > 0
    requires rs != [] ==> rs[|rs| - 1].recordAt <= now
    ensures ServeAll(st, b, rs).lastFailure <= now
  {
    var init, r := rs[..|rs| - 1], rs[|rs| - 1];
    OrderedPrefix(rs);
    if Granted(st, ServeAll(st, b, init), r.askAt) {
    } else {
      LastFailureByNow(st, b, init, now);
    }
  }

  /** Against a dead backend a breaker that is not closed never closes again. */
  lemma {:induction false} DeadBackendNeverCloses(st: Settings, b: Breaker, rs: seq<Request>)
    requires Settled(st, b) && b.phase != Closed && AllFail(rs)
    ensures ServeAll(st, b, rs).phase != Closed
  {
    if rs == [] {
    } else {
      DeadBackendNeverCloses(st, b, rs[..|rs| - 1]);
    }
  }
}
