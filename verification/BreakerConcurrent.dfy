/** A dead backend behind the breaker with several calls in flight: how often it is called, exactly. */
module BreakerConcurrent {
  import opened Breaker
  import opened BreakerHistory

  /** Every outcome in the history is a failure. */
  predicate AllFail(h: seq<Event>) {
    forall i :: 0 <= i < |h| ==> !h[i].Succeeded?
  }

  /** How many calls reached the backend. */
  function Calls(st: Settings, h: seq<Event>): nat {
    if h == [] then 0
    else
      var init, e := h[..|h| - 1], h[|h| - 1];
      Calls(st, init) + (if e.Asked? && Granted(st, Run(st, init), e.now) then 1 else 0)
  }

  /** How often the breaker turned half-open. */
  function Windows(st: Settings, h: seq<Event>): nat {
    if h == [] then 0
    else
      var init := h[..|h| - 1];
      Windows(st, init) + (if Run(st, init).phase == Open && Run(st, h).phase == HalfOpen then 1 else 0)
  }

  /** When the breaker first left CLOSED. */
  function TripTime(st: Settings, h: seq<Event>): int {
    if h == [] then 0
    else
      var init, e := h[..|h| - 1], h[|h| - 1];
      if Run(st, init).phase == Closed && e.Failed? then e.now else TripTime(st, init)
  }

  /** The most calls that `windows` half-open phases allow. */
  function Bound(st: Settings, limit: nat, windows: nat): int {
    TripCount(st) - 1 + limit + limit * windows
  }

  lemma OneMoreWindow(st: Settings, limit: nat, windows: nat)
    ensures Bound(st, limit, windows + 1) == Bound(st, limit, windows) + limit
  {
    assert limit * (windows + 1) == limit * windows + limit;
  }

  /** The accounts against a dead backend. In a half-open phase the calls made in it are still in flight. */
  ghost predicate Accounts(st: Settings, limit: nat, h: seq<Event>) {
    var b, inFlight, windows := Run(st, h), InFlight(st, h), Windows(st, h);
    && 0 <= inFlight <= limit && b.failures >= 0
    && (b.phase == Closed ==> windows == 0 && Calls(st, h) == b.failures + inFlight && b.failures < TripCount(st))
    && (b.phase != Closed ==> b.failures >= TripCount(st))
    && (b.phase == Open ==> Calls(st, h) <= Bound(st, limit, windows))
    && (b.phase == HalfOpen ==> windows > 0 && Calls(st, h) <= Bound(st, limit, windows - 1) + inFlight)
  }

  /** The shortest time between the last failure and a half-open phase, in ticks of the clock. */
  function Wait(st: Settings): nat {
    if st.timeout < 0 then 0 else st.timeout + 1
  }

  /** Each half-open phase lies that long behind the failure before it. */
  ghost predicate Spaced(st: Settings, h: seq<Event>) {
    var b, windows := Run(st, h), Windows(st, h);
    b.phase != Closed ==>
      && h != [] && !h[|h| - 1].Succeeded?
      && TripTime(st, h) <= b.lastFailure <= h[|h| - 1].now
      && windows * Wait(st) <= h[|h| - 1].now - TripTime(st, h)
      && (b.phase == Open ==> windows * Wait(st) <= b.lastFailure - TripTime(st, h))
  }

  lemma AccountsStep(st: Settings, limit: nat, h: seq<Event>)
    requires h != [] && Proxied(st, limit, h) && AllFail(h) && Accounts(st, limit, h[..|h| - 1])
    ensures Accounts(st, limit, h)
  {
    var init := h[..|h| - 1];
    if Run(st, init).phase != Closed {
      OneMoreWindow(st, limit, Windows(st, init));
      if Windows(st, init) > 0 {
        OneMoreWindow(st, limit, Windows(st, init) - 1);
      }
    }
  }

  lemma LaterWindow(st: Settings, windows: nat, trip: int, last: int, now: int)
    requires windows * Wait(st) <= last - trip
    requires now - last > st.timeout && now >= last
    ensures (windows + 1) * Wait(st) <= now - trip
  {
    assert (windows + 1) * Wait(st) == windows * Wait(st) + Wait(st);
  }

  lemma SpacedStep(st: Settings, limit: nat, h: seq<Event>)
    requires h != [] && Proxied(st, limit, h) && AllFail(h) && Spaced(st, h[..|h| - 1])
    requires Accounts(st, limit, h[..|h| - 1])
    ensures Spaced(st, h)
  {
    var init, e := h[..|h| - 1], h[|h| - 1];
    var b := Run(st, init);
    if b.phase != Closed {
      assert init[|init| - 1].now <= e.now;
      if e.Asked? && b.phase == Open && Granted(st, b, e.now) {
        LaterWindow(st, Windows(st, init), TripTime(st, init), b.lastFailure, e.now);
      }
    }
  }

  lemma {:induction false} DeadBackendAccounts(st: Settings, limit: nat, h: seq<Event>)
    requires Proxied(st, limit, h) && AllFail(h)
    ensures Accounts(st, limit, h) && Spaced(st, h)
  {
    if h == [] {
    } else {
      assert AllFail(h[..|h| - 1]);
      DeadBackendAccounts(st, limit, h[..|h| - 1]);
      AccountsStep(st, limit, h);
      SpacedStep(st, limit, h);
    }
  }

  lemma {:induction false} NeverClosesAgain(st: Settings, h: seq<Event>, n: nat)
    requires AllFail(h) && n <= |h| && Run(st, h[..n]).phase != Closed
    ensures Run(st, h).phase != Closed
  {
    if n == |h| {
      assert h[..n] == h;
    } else {
      assert h[..|h| - 1][..n] == h[..n];
      NeverClosesAgain(st, h[..|h| - 1], n);
    }
  }

  /** Backend protection with at most `limit` calls in flight: the backend has been called at most `limit` times
      beyond threshold - 1, plus `limit` times for every half-open phase so far, and k phases take k waits, each longer
      than the timeout. */
  lemma DeadBackendIsProtected(st: Settings, limit: nat, h: seq<Event>)
    requires Proxied(st, limit, h) && AllFail(h)
    ensures Calls(st, h) <= Bound(st, limit, Windows(st, h))
    ensures Run(st, h).phase == Closed ==> Windows(st, h) == 0
    ensures Run(st, h).phase != Closed ==>
              h != [] && !h[|h| - 1].Succeeded?
              && Windows(st, h) * Wait(st) <= h[|h| - 1].now - TripTime(st, h)
  {
    DeadBackendAccounts(st, limit, h);
    if Run(st, h).phase == HalfOpen {
      OneMoreWindow(st, limit, Windows(st, h) - 1);
    }
  }

  // ---- The bound is attained ---------------------------------------------------------------------

  datatype Account = Account(breaker: Breaker, inFlight: int, calls: nat, windows: nat, tripTime: int)

  function AccountOf(st: Settings, h: seq<Event>): Account {
    Account(Run(st, h), InFlight(st, h), Calls(st, h), Windows(st, h), TripTime(st, h))
  }

  /** What one more call, or one more failure, does to the account. */
  function NextAccount(st: Settings, a: Account, e: Event): Account
    requires !e.Succeeded?
  {
    var b := Next(st, a.breaker, e);
    if e.Failed? then
      a.(breaker := b, inFlight := a.inFlight - 1,
         tripTime := if a.breaker.phase == Closed then e.now else a.tripTime)
    else if Granted(st, a.breaker, e.now) then
      a.(breaker := b, inFlight := a.inFlight + 1, calls := a.calls + 1,
         windows := a.windows + if a.breaker.phase == Open then 1 else 0)
    else a
  }

  /** A history that proxied calls to a dead backend leave, with this account, at clock `now` at the latest. */
  ghost predicate Leaves(st: Settings, limit: nat, h: seq<Event>, now: int, a: Account) {
    Proxied(st, limit, h) && AllFail(h) && NotBefore(h, now) && AccountOf(st, h) == a
  }

  lemma Extend(st: Settings, limit: nat, h: seq<Event>, now: int, a: Account, e: Event)
    requires Leaves(st, limit, h, now, a) && !e.Succeeded? && now <= e.now
    requires if e.Failed? then a.inFlight > 0 else Granted(st, a.breaker, e.now) && a.inFlight < limit
    ensures Leaves(st, limit, h + [e], e.now, NextAccount(st, a, e))
  {
    Follow(st, limit, h, e);
    assert (h + [e])[..|h|] == h;
  }

  /** `k` calls in a row while the breaker is not open. */
  lemma {:induction false} Burst(st: Settings, limit: nat, h: seq<Event>, now: int, a: Account, k: nat)
    returns (more: seq<Event>)
    requires Leaves(st, limit, h, now, a) && a.breaker.phase != Open && a.inFlight + k <= limit
    ensures Leaves(st, limit, more, now, a.(inFlight := a.inFlight + k, calls := a.calls + k))
    decreases k
  {
    hide Leaves;
    if k == 0 {
      more := h;
    } else {
      Extend(st, limit, h, now, a, Asked(now));
      more := Burst(st, limit, h + [Asked(now)], now, NextAccount(st, a, Asked(now)), k - 1);
    }
  }

  /** All calls in flight fail, the breaker being at or past its threshold with the first of them. */
  lemma {:induction false} Drain(st: Settings, limit: nat, h: seq<Event>, now: int, a: Account)
    returns (more: seq<Event>, b: Account)
    requires Leaves(st, limit, h, now, a) && a.inFlight > 0 && a.breaker.failures + 1 >= TripCount(st)
    ensures Leaves(st, limit, more, now, b)
    ensures b.breaker.phase == Open && b.breaker.lastFailure == now && b.breaker.failures >= TripCount(st)
    ensures b.inFlight == 0 && b.calls == a.calls && b.windows == a.windows
    ensures b.tripTime == if a.breaker.phase == Closed then now else a.tripTime
    decreases a.inFlight
  {
    hide Leaves;
    Extend(st, limit, h, now, a, Failed(now));
    more, b := h + [Failed(now)], NextAccount(st, a, Failed(now));
    if b.inFlight == 0 {
    } else {
      more, b := Drain(st, limit, more, now, b);
    }
  }

  /** `n` calls one after the other, short of the threshold. */
  lemma {:induction false} Worn(st: Settings, limit: nat, n: nat) returns (h: seq<Event>, a: Account)
    requires limit > 0 && n < TripCount(st)
    ensures Leaves(st, limit, h, 0, a)
    ensures a.breaker.phase == Closed && a.breaker.failures == n && a.inFlight == 0 && a.calls == n && a.windows == 0
  {
    if n == 0 {
      h, a := [], AccountOf(st, []);
    } else {
      hide Leaves;
      h, a := Worn(st, limit, n - 1);
      Extend(st, limit, h, 0, a, Asked(0));
      var asked := NextAccount(st, a, Asked(0));
      Extend(st, limit, h + [Asked(0)], 0, asked, Failed(0));
      h, a := h + [Asked(0)] + [Failed(0)], NextAccount(st, asked, Failed(0));
    }
  }

  /** Both bounds are exact, for every threshold, timeout, limit and number of half-open phases: `limit` calls at once
      when one failure is missing, and again after each wait. */
  lemma {:induction false} BoundIsAttained(st: Settings, limit: nat, windows: nat) returns (h: seq<Event>, a: Account)
    requires limit > 0
    ensures Leaves(st, limit, h, windows * Wait(st), a)
    ensures a.windows == windows && a.calls == Bound(st, limit, windows) && a.tripTime == 0
    ensures a.breaker.phase == Open && a.breaker.lastFailure == windows * Wait(st) && a.inFlight == 0
    ensures a.breaker.failures >= TripCount(st)
  {
    hide Leaves;
    if windows == 0 {
      h, a := Worn(st, limit, TripCount(st) - 1);
      h := Burst(st, limit, h, 0, a, limit);
      h, a := Drain(st, limit, h, 0, a.(inFlight := a.inFlight + limit, calls := a.calls + limit));
    } else {
      h, a := BoundIsAttained(st, limit, windows - 1);
      OneMoreWindow(st, limit, windows - 1);
      var before, now := (windows - 1) * Wait(st), windows * Wait(st);
      assert now == before + Wait(st);
      Extend(st, limit, h, before, a, Asked(now));
      h, a := h + [Asked(now)], NextAccount(st, a, Asked(now));
      h := Burst(st, limit, h, now, a, limit - 1);
      h, a := Drain(st, limit, h, now, a.(inFlight := a.inFlight + limit - 1, calls := a.calls + limit - 1));
    }
  }
}
