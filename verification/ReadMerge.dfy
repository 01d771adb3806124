/** The leader's read: its own entry merged with the follower replies that arrive before the quorum is met. */
module ReadMerge {
  import opened Options
  import opened Replica

  /** A follower's reply on the channel: its entry, or None when it had none or could not be reached. */
  type Reply = Option<Entry>

  function Found(replies: seq<Reply>): (n: nat)
    ensures n <= |replies|
  {
    if replies == [] then 0
    else Found(replies[..|replies| - 1]) + (if replies[|replies| - 1].Some? then 1 else 0)
  }

  /** The loop leaves after this prefix: every follower replied, or a reply has come in and the
      positive ones are enough. */
  predicate Leaves(prefix: seq<Reply>, needed: int, total: nat) {
    |prefix| == total || (prefix != [] && Found(prefix) >= needed)
  }

  ghost predicate Consumes(replies: seq<Reply>, k: nat, needed: int, total: nat) {
    && k <= |replies|
    && Leaves(replies[..k], needed, total)
    && forall j :: 0 <= j < k ==> !Leaves(replies[..j], needed, total)
  }

  /** The followers' entries among the first `k` replies, by their places. */
  function Positives(replies: seq<Reply>, k: nat): set<nat>
    requires k <= |replies|
  {
    set x: nat | x < k && replies[x].Some?
  }

  /** The read takes replies until `needed` of them are entries, or all `total` are in. */
  ghost predicate TakesQuorum(replies: seq<Reply>, k: nat, needed: int, total: nat) {
    && k <= |replies|
    && (k == total || |Positives(replies, k)| == needed)
    && forall j :: 0 <= j < k ==> |Positives(replies, j)| < needed
  }

  lemma {:induction false} FoundCountsPositives(replies: seq<Reply>, k: nat)
    requires k <= |replies|
    ensures Found(replies[..k]) == |Positives(replies, k)|
  {
    if k == 0 {
    } else {
      FoundCountsPositives(replies, k - 1);
      assert replies[..k][..k - 1] == replies[..k - 1];
      assert Positives(replies, k) == Positives(replies, k - 1) + (if replies[k - 1].Some? then {k - 1} else {});
    }
  }

  lemma {:induction false} FoundClimbs(replies: seq<Reply>, k: nat)
    requires 0 < k <= |replies|
    ensures Found(replies[..k]) <= Found(replies[..k - 1]) + 1
  {
    assert replies[..k][..k - 1] == replies[..k - 1];
  }

  /** The loop takes exactly the quorum of replies. */
  lemma ConsumesTakesQuorum(replies: seq<Reply>, k: nat, needed: int, total: nat)
    requires needed > 0 && |replies| <= total
    ensures Consumes(replies, k, needed, total) <==> TakesQuorum(replies, k, needed, total)
  {
    if k <= |replies| {
      FoundCountsPositives(replies, k);
      forall j | 0 <= j < k
        ensures Leaves(replies[..j], needed, total) <==> |Positives(replies, j)| >= needed
      {
        FoundCountsPositives(replies, j);
      }
      if k > 0 {
        FoundClimbs(replies, k);
        FoundCountsPositives(replies, k - 1);
      }
    }
  }

  /** Some prefix of a full channel makes the loop leave. */
  lemma LoopLeaves(replies: seq<Reply>, needed: int) returns (k: nat)
    ensures Consumes(replies, k, needed, |replies|)
  {
    k := 0;
    while k < |replies| && !Leaves(replies[..k], needed, |replies|)
      invariant 0 <= k <= |replies|
      invariant forall j :: 0 <= j < k ==> !Leaves(replies[..j], needed, |replies|)
    {
      k := k + 1;
    }
  }

  /** With enough entries in the channel the loop has left, without waiting for the other replies. */
  lemma LeavesOnceMet(replies: seq<Reply>, needed: int, total: nat) returns (k: nat)
    requires 0 < needed <= |Positives(replies, |replies|)| && |replies| <= total
    ensures Consumes(replies, k, needed, total)
  {
    FoundCountsPositives(replies, |replies|);
    assert replies[..|replies|] == replies;
    k := 0;
    while k < |replies| && !Leaves(replies[..k], needed, total)
      invariant 0 <= k <= |replies|
      invariant forall j :: 0 <= j < k ==> !Leaves(replies[..j], needed, total)
    {
      k := k + 1;
    }
  }

  /** The merge, one reply at a time; an equal version does not displace the entry already held. */
  function Merged(local: Reply, replies: seq<Reply>): Reply {
    if replies == [] then local
    else
      var best := Merged(local, replies[..|replies| - 1]);
      var reply := replies[|replies| - 1];
      if reply.None? then best
      else if reply.value.version > (if best.Some? then best.value.version else 0) then reply
      else if best.Some? then best
      else Some(Entry("", 0))
  }

  /** `best` is the leader's own entry or one of the first `k` replies, no other is newer, and those before it are
      older. */
  ghost predicate FirstNewest(local: Entry, replies: seq<Reply>, k: nat, best: Entry)
    requires k <= |replies|
  {
    && best.version >= local.version
    && (forall x :: 0 <= x < k && replies[x].Some? ==> best.version >= replies[x].value.version)
    && (best != local ==>
          && best.version > local.version
          && exists x :: 0 <= x < k && replies[x] == Some(best)
                    && forall y :: 0 <= y < x && replies[y].Some? ==> replies[y].value.version < best.version)
  }

  /** What a merge of well-formed replies means: the newest of everything seen, and the leader's own
      entry when nothing is newer. */
  lemma {:induction false} MergedIsNewest(local: Reply, replies: seq<Reply>)
    requires local.Some? ==> local.value.version > 0
    requires forall r :: r in replies && r.Some? ==> r.value.version > 0
    ensures Merged(local, replies) == local || Merged(local, replies) in replies
    ensures Merged(local, replies).None? <==> local.None? && forall r :: r in replies ==> r.None?
    ensures local.Some? ==> Merged(local, replies).value.version >= local.value.version
    ensures forall r :: r in replies && r.Some? ==> Merged(local, replies).value.version >= r.value.version
    ensures Merged(local, replies).Some? ==> Merged(local, replies).value.version > 0
    ensures Merged(local, replies) != local && local.Some?
            ==> Merged(local, replies).value.version > local.value.version
  {
    if replies == [] {
    } else {
      MergedIsNewest(local, replies[..|replies| - 1]);
      assert replies == replies[..|replies| - 1] + [replies[|replies| - 1]];
    }
  }

  lemma {:induction false} MergedIsFirstNewest(local: Entry, localOk: bool, replies: seq<Reply>, k: nat)
    requires k <= |replies| && (!localOk ==> local == Entry("", 0))
    ensures var best := Merged(if localOk then Some(local) else None, replies[..k]);
            && (best.Some? <==> localOk || Positives(replies, k) != {})
            && FirstNewest(local, replies, k, if best.Some? then best.value else local)
  {
    if k == 0 {
    } else {
      MergedIsFirstNewest(local, localOk, replies, k - 1);
      assert replies[..k][..k - 1] == replies[..k - 1];
      if replies[k - 1].Some? {
        assert k - 1 in Positives(replies, k);
      } else {
        assert Positives(replies, k) == Positives(replies, k - 1);
      }
    }
  }

  /** The leader's read loop; a 404 is `found == false`. The answer is the first of the newest among the leader's own
      entry and the entries taken. */
  method MergeReplies(local: Entry, localOk: bool, replies: seq<Reply>, needed: int)
    returns (best: Entry, found: bool, consumed: nat)
    requires !localOk ==> local == Entry("", 0)
    requires needed > 0
    ensures TakesQuorum(replies, consumed, needed, |replies|)
    ensures found <==> localOk || Positives(replies, consumed) != {}
    ensures FirstNewest(local, replies, consumed, best)
    ensures (if found then Some(best) else None)
            == Merged(if localOk then Some(local) else None, replies[..consumed])
  {
    best, found := local, localOk;
    var got := 0;
    var i := 0;
    while i < |replies|
      invariant 0 <= i <= |replies|
      invariant got == Found(replies[..i])
      invariant !found ==> best == Entry("", 0)
      invariant (if found then Some(best) else None)
                == Merged(if localOk then Some(local) else None, replies[..i])
      invariant forall j :: 0 <= j < i ==> !Leaves(replies[..j], needed, |replies|)
      invariant i < |replies| ==> !Leaves(replies[..i], needed, |replies|)
    {
      var reply := replies[i];
      assert replies[..i + 1][..i] == replies[..i];
      i := i + 1;
      if reply.Some? {
        got := got + 1;
        found := true;
        if reply.value.version > best.version {
          best := reply.value;
        }
      }
      if got >= needed {
        break;
      }
    }
    consumed := i;
    ConsumesTakesQuorum(replies, consumed, needed, |replies|);
    MergedIsFirstNewest(local, localOk, replies, consumed);
  }
}
