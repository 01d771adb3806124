/** The crashing server behind the breaker. */
module CrashLoop {
  import opened Breaker
  import opened BreakerHistory
  import opened BreakerRuns

  const CRASH_THRESHOLD: nat := 50

  /** The middleware in front of every route. */
  class CrashingServer {
    var requestCount: nat
    var crashed: bool

    constructor ()
      ensures requestCount == 0 && !crashed
    {
      requestCount, crashed := 0, false;
    }

    method Admit() returns (passes: bool)
      modifies this
      ensures requestCount == old(requestCount) + 1
      ensures passes <==> requestCount <= 50
      ensures crashed <==> old(crashed) || !passes
    {
      requestCount := requestCount + 1;
      var count := requestCount;
      if count <= 30 {
        return true;
      }
      if count <= CRASH_THRESHOLD {
        return true;
      }
      crashed := true;
      passes := false;
    }
  }

  // ---- The middleware under any interleaving -----------------------------------------------------

  /** Counting and flagging take the lock separately, so other requests may come in between. */
  datatype ServerStep = Arrive | FlagCrash(request: nat)

  /** `tickets[i]` is the count that request `i` drew. */
  datatype Server = Server(tickets: seq<nat>, count: nat, crashed: bool)

  function ServerNext(s: Server, step: ServerStep): Server {
    match step
    case Arrive => s.(tickets := s.tickets + [s.count + 1], count := s.count + 1)
    case FlagCrash(i) =>
      if i < |s.tickets| && s.tickets[i] > CRASH_THRESHOLD then s.(crashed := true) else s
  }

  function ServerRun(steps: seq<ServerStep>): Server {
    if steps == [] then Server([], 0, false)
    else ServerNext(ServerRun(steps[..|steps| - 1]), steps[|steps| - 1])
  }

  /** Which requests pass, in the order in which they drew their count. */
  function Passing(s: Server): set<nat> {
    set i: nat | i < |s.tickets| && s.tickets[i] <= CRASH_THRESHOLD
  }

  function Arrivals(steps: seq<ServerStep>): nat {
    if steps == [] then 0 else Arrivals(steps[..|steps| - 1]) + (if steps[|steps| - 1].Arrive? then 1 else 0)
  }

  /** A request past the fiftieth came and raised the flag. */
  ghost predicate Flagged(steps: seq<ServerStep>, i: nat)
    requires i < |steps|
  {
    steps[i].FlagCrash? && 50 <= steps[i].request < Arrivals(steps[..i])
  }

  ghost predicate Raised(steps: seq<ServerStep>) {
    exists i :: 0 <= i < |steps| && Flagged(steps, i)
  }

  lemma FlaggedStep(steps: seq<ServerStep>)
    requires steps != []
    ensures Raised(steps) <==> Raised(steps[..|steps| - 1]) || Flagged(steps, |steps| - 1)
  {
    var init := steps[..|steps| - 1];
    forall i | 0 <= i < |init|
      ensures Flagged(steps, i) <==> Flagged(init, i)
    {
      assert steps[..i] == init[..i];
    }
  }

  /** Under any interleaving exactly the first fifty requests pass, and the crash flag is up exactly when a later one
      raised it. */
  lemma {:induction false} FirstFiftyPass(steps: seq<ServerStep>)
    ensures var s := ServerRun(steps);
            && |s.tickets| == s.count == Arrivals(steps)
            && (forall i :: 0 <= i < |s.tickets| ==> s.tickets[i] == i + 1)
            && (forall i: nat :: i in Passing(s) <==> i < s.count && i < 50)
            && (s.crashed <==> Raised(steps))
  {
    if steps == [] {
    } else {
      var init := steps[..|steps| - 1];
      FirstFiftyPass(init);
      FlaggedStep(steps);
    }
  }

  // ---- Breaker and server together ---------------------------------------------------------------

  /** A call through the proxy. `others` requests reach the server by other ways before it; a request the
      network loses is a backend error, whether or not the server counted it. */
  datatype Call = Call(askAt: int, recordAt: int, others: nat, lost: bool, counted: bool)

  datatype System = System(breaker: Breaker, count: nat)

  /** What the backend answers the next forwarded call with: below 500 only while the server still passes
      requests. */
  function Answer(s: System, call: Call): bool {
    !call.lost && s.count + call.others + 1 <= CRASH_THRESHOLD
  }

  function AsRequest(s: System, call: Call): Request {
    Request(call.askAt, Answer(s, call), call.recordAt)
  }

  function Forward(st: Settings, s: System, call: Call): System {
    var r := AsRequest(s, call);
    var reached := if Granted(st, s.breaker, call.askAt) && (!call.lost || call.counted) then 1 else 0;
    System(Serve(st, s.breaker, r), s.count + call.others + reached)
  }

  function ForwardAll(st: Settings, s: System, calls: seq<Call>): System {
    if calls == [] then s else Forward(st, ForwardAll(st, s, calls[..|calls| - 1]), calls[|calls| - 1])
  }

  /** The same run as the breaker saw it. */
  function Requests(st: Settings, s: System, calls: seq<Call>): seq<Request> {
    if calls == [] then []
    else
      var init, call := calls[..|calls| - 1], calls[|calls| - 1];
      Requests(st, s, init) + [AsRequest(ForwardAll(st, s, init), call)]
  }

  lemma {:induction false} SystemIsBreakerRun(st: Settings, s: System, calls: seq<Call>)
    ensures |Requests(st, s, calls)| == |calls|
    ensures forall i :: 0 <= i < |calls| ==> Requests(st, s, calls)[i].askAt == calls[i].askAt
                                             && Requests(st, s, calls)[i].recordAt == calls[i].recordAt
    ensures ForwardAll(st, s, calls).breaker == ServeAll(st, s.breaker, Requests(st, s, calls))
    ensures ForwardAll(st, s, calls).count >= s.count
  {
    if calls == [] {
    } else {
      var init, call := calls[..|calls| - 1], calls[|calls| - 1];
      SystemIsBreakerRun(st, s, init);
      var rs := Requests(st, s, init);
      assert (rs + [AsRequest(ForwardAll(st, s, init), call)])[..|rs|] == rs;
    }
  }

  /** The requests that the server has counted. */
  function Arrived(st: Settings, s: System, calls: seq<Call>): nat {
    if calls == [] then 0
    else
      var init, call := calls[..|calls| - 1], calls[|calls| - 1];
      var reached := Granted(st, ForwardAll(st, s, init).breaker, call.askAt) && (!call.lost || call.counted);
      Arrived(st, s, init) + call.others + (if reached then 1 else 0)
  }

  /** The `n`-th call finds the server with fewer than fifty requests. */
  predicate InTime(st: Settings, s: System, calls: seq<Call>, n: nat)
    requires n < |calls|
  {
    s.count + Arrived(st, s, calls[..n]) + calls[n].others < 50
  }

  lemma {:induction false} CountIsArrivals(st: Settings, s: System, calls: seq<Call>)
    ensures |Requests(st, s, calls)| == |calls|
    ensures ForwardAll(st, s, calls).count == s.count + Arrived(st, s, calls)
  {
    if calls == [] {
    } else {
      CountIsArrivals(st, s, calls[..|calls| - 1]);
    }
  }

  /** A forwarded call succeeds exactly when it is not lost and is among the first fifty requests. */
  lemma {:induction false} FirstFiftySucceed(st: Settings, s: System, calls: seq<Call>, n: nat)
    requires n < |calls|
    ensures |Requests(st, s, calls)| == |calls|
    ensures Requests(st, s, calls)[n].backendOk <==> !calls[n].lost && InTime(st, s, calls, n)
  {
    hide Forward, Arrived;
    var init := calls[..|calls| - 1];
    CountIsArrivals(st, s, init);
    if n == |init| {
      assert calls[..n] == init;
    } else {
      FirstFiftySucceed(st, s, init, n);
      assert calls[..n] == init[..n];
    }
  }

  /** Fifty calls from a client on its own, none lost, all reach the server and succeed; the breaker is as new. */
  lemma {:induction false} HealthyForFifty(st: Settings, calls: seq<Call>)
    requires |calls| <= 50
    requires forall n :: 0 <= n < |calls| ==> !calls[n].lost && calls[n].others == 0
    ensures ForwardAll(st, System(Initial(), 0), calls) == System(Initial(), |calls|)
    ensures |Requests(st, System(Initial(), 0), calls)| == |calls|
    ensures forall n :: 0 <= n < |calls| ==> Requests(st, System(Initial(), 0), calls)[n].backendOk
  {
    if calls == [] {
    } else {
      HealthyForFifty(st, calls[..|calls| - 1]);
    }
  }

  /** After fifty requests every forwarded call fails. */
  lemma {:induction false} CrashedServerFailsAll(st: Settings, s: System, calls: seq<Call>)
    requires s.count >= 50
    ensures AllFail(Requests(st, s, calls))
  {
    if calls == [] {
    } else {
      CrashedServerFailsAll(st, s, calls[..|calls| - 1]);
      SystemIsBreakerRun(st, s, calls[..|calls| - 1]);
    }
  }

  predicate Ordered(calls: seq<Call>) {
    && (forall i :: 0 <= i < |calls| ==> calls[i].askAt <= calls[i].recordAt)
    && (forall i :: 0 < i < |calls| ==> calls[i - 1].recordAt <= calls[i].askAt)
  }

  /** The closed loop after the crash, from whatever state a sequential run has left the breaker in: the server
      takes the breaker's remaining allowance of calls, which opens it, and is then probed no faster than the
      recovery timeout permits. A breaker that is not closed never closes again. */
  lemma {:induction false} NoRecoveryAfterCrash(st: Settings, rs: seq<Request>, count: nat, calls: seq<Call>, now: int)
    requires count >= 50 && Ordered(calls)
    requires calls != [] ==> calls[|calls| - 1].recordAt <= now
    ensures var b := ServeAll(st, Initial(), rs);
            var after := Requests(st, System(b, count), calls);
            var k := Calls(st, b, after) - Allowance(st, b);
            && (if b.phase == Open then Allowance(st, b) == 0 else 1 <= Allowance(st, b) <= TripCount(st))
            && (ForwardAll(st, System(b, count), calls).breaker.phase == if k < 0 then b.phase else Open)
            && (k > 0 ==> k * st.timeout < now - TripTime(st, b, after))
  {
    var b := ServeAll(st, Initial(), rs);
    var s := System(b, count);
    AlwaysSettled(st, Initial(), rs);
    SystemIsBreakerRun(st, s, calls);
    CrashedServerFailsAll(st, s, calls);
    DeadBackendIsProtected(st, b, Requests(st, s, calls), now);
  }
}
