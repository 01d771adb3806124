/** The circuit breaker: its states, its three operations, and the class the proxy shares. */
module Breaker {
  datatype Phase = Closed | Open | HalfOpen

  /** `threshold` and `timeout` are whatever the constructor was given. */
  datatype Settings = Settings(threshold: int, timeout: int)

  datatype Breaker = Breaker(phase: Phase, failures: int, successes: int, lastFailure: int)

  function Initial(): Breaker {
    Breaker(Closed, 0, 0, 0)
  }

  predicate Granted(st: Settings, b: Breaker, now: int) {
    b.phase != Open || now - b.lastFailure > st.timeout
  }

  function Ask(st: Settings, b: Breaker, now: int): Breaker {
    if b.phase == Open && Granted(st, b, now) then b.(phase := HalfOpen) else b
  }

  function Succeed(b: Breaker): Breaker {
    if b.phase != HalfOpen then b.(failures := 0)
    else if b.successes + 1 >= 2 then b.(phase := Closed, failures := 0, successes := 0)
    else b.(successes := b.successes + 1)
  }

  function Fail(st: Settings, b: Breaker, now: int): Breaker {
    Breaker(if b.failures + 1 >= st.threshold then Open else b.phase, b.failures + 1, 0, now)
  }

  class CircuitBreaker {
    var state: Phase
    var failureCount: int
    var successCount: int
    const failureThreshold: int
    const recoveryTimeout: int
    var lastFailureTime: int

    ghost function View(): Breaker
      reads this
    {
      Breaker(state, failureCount, successCount, lastFailureTime)
    }

    ghost function Config(): Settings {
      Settings(failureThreshold, recoveryTimeout)
    }

    constructor (failureThreshold: int, recoveryTimeout: int)
      ensures View() == Initial() && Config() == Settings(failureThreshold, recoveryTimeout)
    {
      this.failureThreshold, this.recoveryTimeout := failureThreshold, recoveryTimeout;
      state, failureCount, successCount, lastFailureTime := Closed, 0, 0, 0;
    }

    method CanRequest(now: int) returns (granted: bool)
      modifies this`state
      ensures granted <==> Granted(Config(), old(View()), now)
      ensures View() == Ask(Config(), old(View()), now)
    {
      match state
      case Closed =>
        granted := true;
      case Open =>
        granted := now - lastFailureTime > recoveryTimeout;
        if granted {
          state := HalfOpen;
        }
      case HalfOpen =>
        granted := true;
    }

    method RecordSuccess()
      modifies this`state, this`failureCount, this`successCount
      ensures View() == Succeed(old(View()))
    {
      if state == HalfOpen {
        successCount := successCount + 1;
        if successCount >= 2 {
          state := Closed;
          failureCount := 0;
          successCount := 0;
        }
      } else {
        failureCount := 0;
      }
    }

    method RecordFailure(now: int)
      modifies this
      ensures View() == Fail(Config(), old(View()), now)
    {
      failureCount := failureCount + 1;
      lastFailureTime := now;
      successCount := 0;
      if failureCount >= failureThreshold {
        state := Open;
      }
    }
  }

  /** What one call through the proxy does: refused without touching the backend, or forwarded and recorded. */
  method ProxyRequest(cb: CircuitBreaker, askAt: int, backendOk: bool, recordAt: int)
    returns (called: bool, fallback: bool)
    modifies cb
    ensures called <==> Granted(cb.Config(), old(cb.View()), askAt)
    ensures fallback <==> !called || !backendOk
    ensures !called ==> cb.View() == old(cb.View())
    ensures called ==>
              var asked := Ask(cb.Config(), old(cb.View()), askAt);
              cb.View() == if backendOk then Succeed(asked) else Fail(cb.Config(), asked, recordAt)
  {
    called := cb.CanRequest(askAt);
    if !called {
      return false, true;
    }
    if !backendOk {
      cb.RecordFailure(recordAt);
      return true, true;
    }
    cb.RecordSuccess();
    fallback := false;
  }
}
