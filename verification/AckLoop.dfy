/** The coordinator's wait on the acknowledgement channel: early exit in leader mode, full count in leaderless mode. */
module AckLoop {
  /** How many of the replies are positive. */
  function Acks(replies: seq<bool>): (n: nat)
    ensures n <= |replies|
  {
    if replies == [] then 0
    else Acks(replies[..|replies| - 1]) + (if replies[|replies| - 1] then 1 else 0)
  }

  /** The loop leaves after this prefix: every follower replied, or its last reply reached the quorum,
      or its last reply was the failure that made the quorum impossible. */
  predicate Leaves(prefix: seq<bool>, needed: int, total: nat) {
    |prefix| == total
    || (prefix != []
        && if prefix[|prefix| - 1] then Acks(prefix) >= needed
           else |prefix| - Acks(prefix) > total - needed)
  }

  /** The loop consumes exactly the first `k` replies. */
  ghost predicate Consumes(replies: seq<bool>, k: nat, needed: int, total: nat) {
    && k <= |replies|
    && Leaves(replies[..k], needed, total)
    && forall j :: 0 <= j < k ==> !Leaves(replies[..j], needed, total)
  }

  lemma {:induction false} AcksOfPrefix(replies: seq<bool>, k: nat)
    requires k <= |replies|
    ensures Acks(replies[..k]) <= Acks(replies) <= Acks(replies[..k]) + (|replies| - k)
  {
    if k < |replies| {
      var init := replies[..|replies| - 1];
      AcksOfPrefix(init, k);
      assert init[..k] == replies[..k];
    } else {
      assert replies[..k] == replies;
    }
  }

  lemma {:induction false} AllPositiveMeansAll(replies: seq<bool>, i: nat)
    requires Acks(replies) == |replies| && i < |replies|
    ensures replies[i]
  {
    var init := replies[..|replies| - 1];
    assert Acks(init) <= |init|;
    if i == |init| {
    } else {
      AllPositiveMeansAll(init, i);
      assert init[i] == replies[i];
    }
  }

  /** Leaving early never changes the verdict: whatever the order of arrival and whatever the replies
      still to come, the count so far meets the quorum exactly when the full count does. */
  lemma EarlyExitIsExact(soFar: seq<bool>, k: nat, all: seq<bool>, needed: int)
    requires needed > 0
    requires soFar <= all
    requires Consumes(soFar, k, needed, |all|)
    ensures Acks(soFar[..k]) >= needed <==> Acks(all) >= needed
  {
    var prefix := soFar[..k];
    assert prefix == all[..k];
    AcksOfPrefix(all, k);
  }

  /** The loop never needs more replies than there are followers, and it has one point of exit. */
  lemma LoopLeavesOnce(all: seq<bool>, needed: int)
    ensures exists k :: Consumes(all, k, needed, |all|)
    ensures forall k, l :: Consumes(all, k, needed, |all|) && Consumes(all, l, needed, |all|) ==> k == l
  {
    var k := 0;
    while k < |all| && !Leaves(all[..k], needed, |all|)
      invariant 0 <= k <= |all|
      invariant forall j :: 0 <= j < k ==> !Leaves(all[..j], needed, |all|)
    {
      k := k + 1;
    }
    assert Consumes(all, k, needed, |all|);
  }

  /** The positive replies, by their places. */
  function Positives(replies: seq<bool>): set<nat> {
    set x: nat | x < |replies| && replies[x]
  }

  lemma {:induction false} AcksCountsPositives(replies: seq<bool>)
    ensures Acks(replies) == |Positives(replies)|
  {
    if replies == [] {
    } else {
      var init := replies[..|replies| - 1];
      AcksCountsPositives(init);
      assert Positives(replies) == Positives(init) + (if replies[|init|] then {|init|} else {});
    }
  }

  // ---- When the verdict is fixed -----------------------------------------------------------------

  /** Whatever replies are still to come, the verdict is the same. */
  ghost predicate Decided(prefix: seq<bool>, needed: int, total: nat) {
    forall rest: seq<bool>, other: seq<bool> | |prefix + rest| == total == |prefix + other| ::
      Acks(prefix + rest) >= needed <==> Acks(prefix + other) >= needed
  }

  lemma {:induction false} AcksOfAll(prefix: seq<bool>, n: nat, ok: bool)
    ensures Acks(prefix + seq(n, _ => ok)) == Acks(prefix) + (if ok then n else 0)
  {
    if n == 0 {
      assert prefix + seq(n, _ => ok) == prefix;
    } else {
      assert (prefix + seq(n, _ => ok))[..|prefix| + n - 1] == prefix + seq(n - 1, _ => ok);
      AcksOfAll(prefix, n - 1, ok);
    }
  }

  lemma DecidedExactly(prefix: seq<bool>, needed: int, total: nat)
    requires |prefix| <= total
    ensures Decided(prefix, needed, total)
       <==> Acks(prefix) >= needed || |prefix| - Acks(prefix) > total - needed
  {
    var left := total - |prefix|;
    var allOk, noneOk := seq(left, _ => true), seq(left, _ => false);
    AcksOfAll(prefix, left, true);
    AcksOfAll(prefix, left, false);
    assert |prefix + allOk| == total == |prefix + noneOk|;
    forall rest: seq<bool> | |prefix + rest| == total
      ensures Acks(prefix) <= Acks(prefix + rest) <= Acks(prefix) + left
    {
      AcksOfPrefix(prefix + rest, |prefix|);
      assert (prefix + rest)[..|prefix|] == prefix;
    }
  }

  /** The loop leaves at the first reply after which the verdict is fixed. A quorum larger than the followers is
      out of reach from the start; the loop then leaves at the first failure. */
  lemma ExitIsEarliest(replies: seq<bool>, k: nat, needed: int)
    requires needed > 0 && Consumes(replies, k, needed, |replies|)
    ensures needed <= |replies| ==> forall j :: 0 <= j <= k ==> (Decided(replies[..j], needed, |replies|) <==> j == k)
    ensures needed > |replies| ==>
              (forall j :: 0 <= j < k - 1 ==> replies[j]) && (k < |replies| ==> k > 0 && !replies[k - 1])
  {
    forall j | 0 <= j <= k && needed <= |replies|
      ensures Decided(replies[..j], needed, |replies|) <==> j == k
    {
      DecidedExactly(replies[..j], needed, |replies|);
      if j < k {
        NotYetDecided(replies, k, needed, j);
      }
    }
    if needed > |replies| {
      forall j | 0 <= j < k - 1
        ensures replies[j]
      {
        assert !Leaves(replies[..j + 1], needed, |replies|);
        assert Acks(replies[..j + 1]) <= j + 1;
      }
      assert k > 0 && replies[k - 1] && k < |replies| ==> Acks(replies[..k]) <= k < needed;
    }
  }

  lemma {:induction false} NotYetDecided(replies: seq<bool>, k: nat, needed: int, j: nat)
    requires 0 < needed <= |replies| && Consumes(replies, k, needed, |replies|) && j < k
    ensures Acks(replies[..j]) < needed && j - Acks(replies[..j]) <= |replies| - needed
  {
    if j == 0 {
    } else {
      NotYetDecided(replies, k, needed, j - 1);
      assert replies[..j][..j - 1] == replies[..j - 1];
      assert !Leaves(replies[..j], needed, |replies|);
    }
  }

  /** As soon as the replies in the channel fix the verdict the loop has left, without waiting for the others. */
  lemma LeavesOnceDecided(replies: seq<bool>, needed: int, total: nat) returns (k: nat)
    requires needed > 0 && |replies| <= total
    requires Acks(replies) >= needed || (|replies| > Acks(replies) && |replies| - Acks(replies) > total - needed)
    ensures Consumes(replies, k, needed, total)
    ensures Acks(replies[..k]) >= needed <==> Acks(replies) >= needed
  {
    k := 0;
    while k < |replies| && !Leaves(replies[..k], needed, total)
      invariant 0 <= k <= |replies|
      invariant forall j :: 0 <= j < k ==> !Leaves(replies[..j], needed, total)
    {
      k := k + 1;
    }
    if !Leaves(replies[..k], needed, total) {
      NothingFixedYet(replies, k, needed, total);
      assert replies[..k] == replies;
    }
    AcksOfPrefix(replies, k);
  }

  lemma {:induction false} NothingFixedYet(replies: seq<bool>, k: nat, needed: int, total: nat)
    requires needed > 0 && k <= |replies| && forall j :: 0 <= j <= k ==> !Leaves(replies[..j], needed, total)
    ensures Acks(replies[..k]) < needed
    ensures k == Acks(replies[..k]) || k - Acks(replies[..k]) <= total - needed
  {
    if k == 0 {
    } else {
      NothingFixedYet(replies, k - 1, needed, total);
      assert replies[..k][..k - 1] == replies[..k - 1];
      assert !Leaves(replies[..k], needed, total);
    }
  }

  /** The leader's loop over the buffered channel. `replies` is what the followers send, in order of arrival;
      one goroutine per follower sends once, so a full channel holds `|replies|` values and no sender blocks. */
  method AwaitQuorum(replies: seq<bool>, needed: int) returns (acks: nat, consumed: nat)
    requires needed > 0
    ensures Consumes(replies, consumed, needed, |replies|)
    ensures acks == Acks(replies[..consumed])
    ensures acks >= needed <==> |Positives(replies)| >= needed
  {
    acks := 0;
    var failures := 0;
    consumed := 0;
    while consumed < |replies|
      invariant 0 <= consumed <= |replies|
      invariant acks == Acks(replies[..consumed])
      invariant failures == consumed - acks
      invariant forall j :: 0 <= j < consumed ==> !Leaves(replies[..j], needed, |replies|)
      invariant |replies| > 0 && consumed < |replies| ==> !Leaves(replies[..consumed], needed, |replies|)
    {
      var reply := replies[consumed];
      assert replies[..consumed + 1][..consumed] == replies[..consumed];
      consumed := consumed + 1;
      if reply {
        acks := acks + 1;
        if acks >= needed {
          break;
        }
      } else {
        failures := failures + 1;
        if failures > |replies| - needed {
          break;
        }
      }
    }
    EarlyExitIsExact(replies, consumed, replies, needed);
    AcksCountsPositives(replies);
  }

  /** The leaderless coordinator's loop: it always drains the channel. */
  method AwaitAll(replies: seq<bool>) returns (acks: nat)
    ensures acks == |Positives(replies)|
  {
    acks := 0;
    var failures := 0;
    for i := 0 to |replies|
      invariant acks == Acks(replies[..i])
      invariant failures == i - acks
    {
      assert replies[..i + 1][..i] == replies[..i];
      if replies[i] {
        acks := acks + 1;
      } else {
        failures := failures + 1;
      }
    }
    assert replies[..|replies|] == replies;
    AcksCountsPositives(replies);
  }
}
