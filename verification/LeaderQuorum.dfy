/** Quorums, convergence and the acknowledgement channel of the leader protocol. */
module LeaderQuorum {
  import opened Basics
  import opened Options
  import opened Channel
  import opened Replica
  import opened WriteLog
  import opened LeaderProtocol
  import opened LeaderInvariant
  import opened LeaderTheorems
  import AckLoop
  import ReadMerge

  ghost predicate CreatedBy(c: Config, steps: seq<Step>, i: nat, w: nat) {
    && i <= |steps|
    && w < |At(c, steps, i).log|
    && At(c, steps, i).progress[w].status.Responded?
    && At(c, steps, i).progress[w].status.created
  }

  /** How many replicas a 201 accounts for: W, and the leader alone for any W below 1. */
  function Quorum(c: Config): (n: nat) {
    if c.w < 1 then 1 else c.w
  }

  /** The replicas that hold a version of the key at least `v`. */
  ghost function Holders(stores: seq<Store>, key: string, v: int): set<nat> {
    set n: nat | n < |stores| && Ver(stores[n], key) >= v
  }

  // ---- The channel and the verdict ---------------------------------------------------------------

  /** The channel has one place per follower: whoever has not replied yet finds room in it, even after
      the leader stopped reading, so no replication goroutine blocks for ever. */
  lemma NoSenderBlocks(c: Config, steps: seq<Step>, i: nat, w: nat, n: nat)
    requires i <= |steps| && w < |At(c, steps, i).log| && IsFollower(c, n)
    requires forall a :: a in At(c, steps, i).progress[w].acks ==> a.node != n
    ensures |At(c, steps, i).progress[w].acks| < c.followers
  {
    hide Apply;
    InvAlways(c, steps, i);
    assert ChannelInv(c, At(c, steps, i).progress[w]);
    RoomForReply(c, At(c, steps, i).progress[w], n);
  }

  lemma RoomForReply(c: Config, p: Progress, n: nat)
    requires ChannelInv(c, p) && IsFollower(c, n) && forall a :: a in p.acks ==> a.node != n
    ensures |p.acks| < c.followers
  {
    var nodes := RepliersCounted(p.acks);
    forall m | m in nodes
      ensures IsFollower(c, m)
    {
      var a :| a in p.acks && a.node == m;
      var x :| 0 <= x < |p.acks| && p.acks[x] == a;
    }
    assert n !in nodes;
    SubsetSize(nodes + {n}, Below(c.followers + 1) - {0});
  }

  /** The response is the one a leader that waited for every follower would have given. */
  lemma ResponseMatchesFullCount(c: Config, steps: seq<Step>, i: nat, w: nat)
    requires i <= |steps| && w < |At(c, steps, i).log| && c.w > 1
    requires At(c, steps, i).progress[w].status.Responded?
    requires |At(c, steps, i).progress[w].acks| == c.followers
    ensures At(c, steps, i).progress[w].status.created
            <==> AckLoop.Acks(Oks(At(c, steps, i).progress[w].acks)) >= c.w - 1
  {
    hide Apply;
    InvAlways(c, steps, i);
    var p := At(c, steps, i).progress[w];
    assert ChannelInv(c, p);
    AckLoop.EarlyExitIsExact(Oks(p.acks), p.status.consumed, Oks(p.acks), c.w - 1);
  }

  // ---- Durability --------------------------------------------------------------------------------

  lemma AckersHold(c: Config, stores: seq<Store>, put: Put, p: Progress)
    requires c.w > 1 && AppliedInv(c, stores, put, p) && ChannelInv(c, p)
    requires p.status.Responded? && p.status.created
    requires Ver(stores[0], put.key) >= put.version
    ensures |Holders(stores, put.key, put.version)| >= c.w
  {
    var holders := Holders(stores, put.key, put.version);
    var prefix := p.acks[..p.status.consumed];
    assert Oks(prefix) == Oks(p.acks)[..p.status.consumed];
    var nodes := AckersCounted(prefix);
    forall n | n in nodes
      ensures n in holders && n != 0
    {
      var a :| 0 <= a < |prefix| && prefix[a] == Ack(n, true);
      assert p.acks[a] == Ack(n, true);
    }
    SubsetSize(nodes + {0}, holders);
  }

  lemma LeaderHoldsEveryWrite(c: Config, s: Cluster, w: nat)
    requires Inv(c, s) && w < |s.log|
    ensures 1 <= s.log[w].version <= Ver(s.stores[0], s.log[w].key)
  {
    var put := s.log[w];
    assert FromLog(s.log, put.key, Entry(put.value, put.version));
    KnownVersions(s.log, put.key, Entry(put.value, put.version));
    assert Ver(s.stores[0], put.key) == Count(s.log, put.key);
  }

  lemma CreatedIsHeld(c: Config, s: Cluster, w: nat)
    requires Inv(c, s) && w < |s.log|
    requires s.progress[w].status.Responded? && s.progress[w].status.created
    ensures |Holders(s.stores, s.log[w].key, s.log[w].version)| >= Quorum(c)
  {
    LeaderHoldsEveryWrite(c, s, w);
    assert AppliedInv(c, s.stores, s.log[w], s.progress[w]) && ChannelInv(c, s.progress[w]);
    if c.w > 1 {
      AckersHold(c, s.stores, s.log[w], s.progress[w]);
    } else {
      SubsetSize({0}, Holders(s.stores, s.log[w].key, s.log[w].version));
    }
  }

  lemma HoldersStay(s: seq<Store>, t: seq<Store>, key: string, v: int)
    requires |s| == |t| && forall n :: 0 <= n < |s| ==> StoreGrows(s[n], t[n])
    requires v >= 1
    ensures Holders(s, key, v) <= Holders(t, key, v)
  {
    forall n | n in Holders(s, key, v)
      ensures n in Holders(t, key, v)
    {
      assert StoreGrows(s[n], t[n]);
    }
  }

  /** After a 201 for version v, at least W replicas (one for any W below 1) hold version v or newer, then and
      ever after. */
  lemma {:induction false} QuorumIsDurable(c: Config, steps: seq<Step>, i: nat, j: nat, w: nat)
    requires CreatedBy(c, steps, i, w) && i <= j <= |steps|
    ensures |Holders(At(c, steps, j).stores, At(c, steps, i).log[w].key, At(c, steps, i).log[w].version)| >= Quorum(c)
    ensures 0 in Holders(At(c, steps, i).stores, At(c, steps, i).log[w].key, At(c, steps, i).log[w].version)
    ensures Holders(At(c, steps, i).stores, At(c, steps, i).log[w].key, At(c, steps, i).log[w].version)
         <= Holders(At(c, steps, j).stores, At(c, steps, i).log[w].key, At(c, steps, i).log[w].version)
  {
    hide Apply;
    var s, t := At(c, steps, i), At(c, steps, j);
    InvAlways(c, steps, i);
    NothingIsTakenBack(c, steps, i, j);
    CreatedIsHeld(c, s, w);
    LeaderHoldsEveryWrite(c, s, w);
    var put := s.log[w];
    HoldersStay(s.stores, t.stores, put.key, put.version);
    SubsetSize(Holders(s.stores, put.key, put.version), Holders(t.stores, put.key, put.version));
  }

  /** The replicas a read asked, one reply each, at moments of their own choosing after moment `i`. */
  ghost predicate Answers(c: Config, steps: seq<Step>, i: nat, key: string,
                          nodes: seq<nat>, moments: seq<nat>, replies: seq<Option<Entry>>) {
    && |nodes| == |moments| == |replies|
    && (forall x, y :: 0 <= x < y < |nodes| ==> nodes[x] != nodes[y])
    && forall x :: 0 <= x < |nodes| ==>
         nodes[x] <= c.followers && i <= moments[x] <= |steps|
         && replies[x] == Lookup(At(c, steps, moments[x]).stores[nodes[x]], key)
  }

  lemma AnswersPositive(c: Config, steps: seq<Step>, i: nat, key: string,
                        nodes: seq<nat>, moments: seq<nat>, replies: seq<Option<Entry>>)
    requires Answers(c, steps, i, key, nodes, moments, replies)
    ensures forall r :: r in replies && r.Some? ==> r.value.version > 0
  {
    forall r | r in replies && r.Some?
      ensures r.value.version > 0
    {
      var y :| 0 <= y < |replies| && replies[y] == r;
      NoReplicaIsAhead(c, steps, moments[y], nodes[y], key);
    }
  }

  /** One of the replicas asked held the write when it was acknowledged, and so still does when it answers. */
  lemma AskedHolder(c: Config, steps: seq<Step>, i: nat, w: nat,
                    nodes: seq<nat>, moments: seq<nat>, replies: seq<Option<Entry>>) returns (x: nat)
    requires CreatedBy(c, steps, i, w)
    requires Answers(c, steps, i, At(c, steps, i).log[w].key, nodes, moments, replies)
    requires Quorum(c) + |nodes| > c.followers + 1
    ensures x < |replies| && replies[x].Some? && replies[x].value.version >= At(c, steps, i).log[w].version
  {
    hide Apply;
    var put := At(c, steps, i).log[w];
    var holders := Holders(At(c, steps, i).stores, put.key, put.version);
    assert |holders| >= Quorum(c) by {
      QuorumIsDurable(c, steps, i, i, w);
    }
    DistinctCounted(nodes);
    GroupsMeet(c.followers + 1, holders, Members(nodes));
    var n :| n in holders && n in nodes;
    x :| 0 <= x < |nodes| && nodes[x] == n;
    assert n in Holders(At(c, steps, moments[x]).stores, put.key, put.version) by {
      QuorumIsDurable(c, steps, i, moments[x], w);
    }
    assert put.version >= 1 by {
      VersionsPositive(c, steps, i, w);
    }
  }

  /** Quorum intersection: with W plus the number of replicas read above N, merging their replies, taken
      whenever, yields the acknowledged version or a newer one. */
  lemma QuorumReadSeesWrite(c: Config, steps: seq<Step>, i: nat, w: nat,
                            nodes: seq<nat>, moments: seq<nat>, replies: seq<Option<Entry>>)
    requires CreatedBy(c, steps, i, w)
    requires Answers(c, steps, i, At(c, steps, i).log[w].key, nodes, moments, replies)
    requires Quorum(c) + |nodes| > c.followers + 1
    ensures ReadMerge.Merged(None, replies).Some?
    ensures ReadMerge.Merged(None, replies).value.version >= At(c, steps, i).log[w].version
  {
    var x := AskedHolder(c, steps, i, w, nodes, moments, replies);
    AnswersPositive(c, steps, i, At(c, steps, i).log[w].key, nodes, moments, replies);
    assert replies[x] in replies;
    ReadMerge.MergedIsNewest(None, replies);
  }

  lemma VersionsPositive(c: Config, steps: seq<Step>, i: nat, w: nat)
    requires i <= |steps| && w < |At(c, steps, i).log|
    ensures At(c, steps, i).log[w].version >= 1
  {
    InvAlways(c, steps, i);
    LeaderHoldsEveryWrite(c, At(c, steps, i), w);
  }

  /** No replica is ahead of the leader. */
  lemma NoReplicaIsAhead(c: Config, steps: seq<Step>, i: nat, n: nat, key: string)
    requires i <= |steps| && n <= c.followers
    requires key in At(c, steps, i).stores[n]
    ensures 1 <= At(c, steps, i).stores[n][key].version <= Ver(At(c, steps, i).stores[0], key)
  {
    InvAlways(c, steps, i);
    var s := At(c, steps, i);
    assert StoreKnown(s.log, s.stores[n]);
    KnownVersions(s.log, key, s.stores[n][key]);
    assert Ver(s.stores[0], key) == Count(s.log, key);
  }

  /** Two replicas that hold the same version of a key hold the same value, at every moment. */
  lemma ReplicasNeverConflict(c: Config, steps: seq<Step>, i: nat, m: nat, n: nat, key: string)
    requires i <= |steps| && m <= c.followers && n <= c.followers
    requires key in At(c, steps, i).stores[m] && key in At(c, steps, i).stores[n]
    requires At(c, steps, i).stores[m][key].version == At(c, steps, i).stores[n][key].version
    ensures At(c, steps, i).stores[m][key] == At(c, steps, i).stores[n][key]
  {
    hide Apply;
    InvAlways(c, steps, i);
    var s := At(c, steps, i);
    assert StoreKnown(s.log, s.stores[m]) && StoreKnown(s.log, s.stores[n]);
    SameVersionSameEntry(s.log, key, s.stores[m][key], s.stores[n][key]);
  }

  // ---- Follower reads ----------------------------------------------------------------------------

  lemma ServeReadsStore(c: Config, s: Cluster, step: Step, g: nat)
    requires Shape(c, s) && g < |s.gets| && s.gets[g].node != 0
    requires s.gets[g].outcome.Pending? && Apply(c, s, step).gets[g].outcome.Answered?
    ensures Apply(c, s, step).gets[g].outcome.entry == Lookup(s.stores[s.gets[g].node], s.gets[g].key)
  {
  }

  lemma PendingJustBegun(c: Config, steps: seq<Step>, i: nat, g: nat)
    requires Begins(c, steps, i, g)
    ensures !AnsweredBy(c, steps, i + 1, g)
  {
  }

  lemma SameReadLater(c: Config, steps: seq<Step>, i: nat, k: nat, g: nat)
    requires Begins(c, steps, i, g) && i < k <= |steps|
    ensures g < |At(c, steps, k).gets|
    ensures At(c, steps, k).gets[g].node == steps[i].node && At(c, steps, k).gets[g].key == steps[i].key
  {
    hide Apply;
    BegunGet(c, steps, i, g);
    NothingIsTakenBack(c, steps, i + 1, k);
    assert GetGrows(At(c, steps, i + 1).gets[g], At(c, steps, k).gets[g]);
  }

  lemma AnswerStays(c: Config, steps: seq<Step>, j: nat, k: nat, g: nat)
    requires AnsweredBy(c, steps, j, g) && j <= k <= |steps|
    ensures AnsweredBy(c, steps, k, g)
    ensures At(c, steps, k).gets[g].outcome == At(c, steps, j).gets[g].outcome
  {
    hide Apply;
    NothingIsTakenBack(c, steps, j, k);
    assert GetGrows(At(c, steps, j).gets[g], At(c, steps, k).gets[g]);
  }

  lemma AnsweredInOneStep(c: Config, steps: seq<Step>, i: nat, m: nat, g: nat)
    requires Begins(c, steps, i, g) && i < m < |steps| && steps[i].node != 0
    requires !AnsweredBy(c, steps, m, g) && AnsweredBy(c, steps, m + 1, g)
    ensures At(c, steps, m + 1).gets[g].outcome.entry
         == Lookup(At(c, steps, m).stores[steps[i].node], steps[i].key)
  {
    SameReadLater(c, steps, i, m, g);
    ServeReadsStore(c, At(c, steps, m), steps[m], g);
  }

  /** A follower's answer is its store at one moment of the call. */
  lemma {:induction false} FollowerReadIsSnapshot(c: Config, steps: seq<Step>, i: nat, j: nat, g: nat) returns (m: nat)
    requires Begins(c, steps, i, g) && AnsweredBy(c, steps, j, g) && steps[i].node != 0
    ensures i < m < j
    ensures At(c, steps, j).gets[g].outcome.entry == Lookup(At(c, steps, m).stores[steps[i].node], steps[i].key)
  {
    BeginsBeforeAnswer(c, steps, i, j, g);
    PendingJustBegun(c, steps, i, g);
    m := StepThatEstablishes((k: nat) => AnsweredBy(c, steps, k, g), i + 1, j);
    AnsweredInOneStep(c, steps, i, m, g);
    AnswerStays(c, steps, m + 1, j, g);
  }

  /** With W = N every follower read that begins after a 201 is fresh: never 404, never older. */
  lemma {:induction false} FollowerFreshWhenAllAck(c: Config, steps: seq<Step>, i: nat, w: nat, k: nat, j: nat, g: nat)
    requires c.w > c.followers && CreatedBy(c, steps, i, w)
    requires i <= k && Begins(c, steps, k, g) && AnsweredBy(c, steps, j, g) && steps[k].node != 0
    requires steps[k].key == At(c, steps, i).log[w].key
    ensures At(c, steps, j).gets[g].outcome.entry.Some?
    ensures At(c, steps, j).gets[g].outcome.entry.value.version >= At(c, steps, i).log[w].version
  {
    hide Apply;
    var m := FollowerReadIsSnapshot(c, steps, k, j, g);
    var put := At(c, steps, i).log[w];
    VersionsPositive(c, steps, i, w);
    QuorumIsDurable(c, steps, i, m, w);
    var holders := Holders(At(c, steps, m).stores, put.key, put.version);
    GroupsMeet(c.followers + 1, holders, {steps[k].node});
    assert steps[k].node in holders;
  }

  // ---- Convergence -------------------------------------------------------------------------------

  ghost predicate AllDelivered(c: Config, s: Cluster)
    requires Shape(c, s)
  {
    forall w, n :: 0 <= w < |s.log| && IsFollower(c, n) ==> n in s.progress[w].applied
  }

  /** Once every message has been delivered, in whatever order and however often, every follower holds
      exactly what the leader holds. */
  lemma DeliveredMeansConverged(c: Config, steps: seq<Step>, i: nat, n: nat)
    requires i <= |steps| && n <= c.followers
    requires AllDelivered(c, At(c, steps, i))
    ensures At(c, steps, i).stores[n] == At(c, steps, i).stores[0]
  {
    hide Apply;
    InvAlways(c, steps, i);
    var s := At(c, steps, i);
    forall key
      ensures Lookup(s.stores[n], key) == Lookup(s.stores[0], key)
    {
      SameEntryEverywhere(c, s, n, key);
    }
    SameLookups(s.stores[n], s.stores[0]);
  }

  lemma SameEntryEverywhere(c: Config, s: Cluster, n: nat, key: string)
    requires Inv(c, s) && n <= c.followers && AllDelivered(c, s)
    ensures Lookup(s.stores[n], key) == Lookup(s.stores[0], key)
  {
    assert StoreKnown(s.log, s.stores[n]) && StoreKnown(s.log, s.stores[0]);
    assert Ver(s.stores[0], key) == Count(s.log, key);
    if n != 0 && key in s.stores[n] {
      KnownVersions(s.log, key, s.stores[n][key]);
    }
    if n != 0 && key in s.stores[0] {
      HoldsAtLeast(c, s, n, key);
      SameVersionSameEntry(s.log, key, s.stores[n][key], s.stores[0][key]);
    }
  }

  /** A follower to which everything was delivered is not behind the leader, nor ahead of it. */
  lemma HoldsAtLeast(c: Config, s: Cluster, n: nat, key: string)
    requires Inv(c, s) && IsFollower(c, n) && AllDelivered(c, s) && key in s.stores[0]
    ensures key in s.stores[n] && s.stores[n][key].version == s.stores[0][key].version
  {
    var e := s.stores[0][key];
    assert FromLog(s.log, key, e) by {
      assert StoreKnown(s.log, s.stores[0]);
    }
    KnownVersions(s.log, key, e);
    var w :| 0 <= w < |s.log| && s.log[w] == Put(key, e.value, e.version);
    assert AppliedInv(c, s.stores, s.log[w], s.progress[w]);
    assert IsFollower(c, n) && n in s.progress[w].applied;
    assert Ver(s.stores[0], key) == Count(s.log, key);
    assert StoreKnown(s.log, s.stores[n]);
    KnownVersions(s.log, key, s.stores[n][key]);
  }

  /** With W = 1 nothing is replicated: no follower ever holds anything. */
  lemma {:induction false} WriteOneReplicatesNothing(c: Config, steps: seq<Step>, i: nat, n: nat)
    requires c.w <= 1 && i <= |steps| && IsFollower(c, n)
    ensures At(c, steps, i).stores[n] == map[]
  {
    if i == 0 {
    } else {
      WriteOneReplicatesNothing(c, steps, i - 1, n);
    }
  }
}
