/** What an answered write promises to what follows it, exactly: when a later write can tie with it, and when a
    later read can miss it. */
module LeaderlessTies {
  import opened Channel
  import opened Replica
  import opened WriteLog
  import opened LeaderlessProtocol
  import opened LeaderlessInvariant
  import opened LeaderlessTheorems
  import AckLoop
  import Tracker

  /** Write `w` was answered, 201 or not, before the write of step `j` started; the two have the same key and
      version and different values. */
  ghost predicate TiesWithAnswered(c: Config, steps: seq<Step>, j: nat, w: nat, created: bool) {
    && Starts(c, steps, j)
    && w < |At(c, steps, j).log| && At(c, steps, j).log[w].key == steps[j].key
    && At(c, steps, j).progress[w].status == Responded(created)
    && At(c, steps, j).log[w].version == VersionGiven(c, steps, j)
    && At(c, steps, j).log[w].value != steps[j].value
  }

  ghost predicate CanTie(c: Config, created: bool) {
    exists steps: seq<Step>, j: nat, w: nat :: TiesWithAnswered(c, steps, j, w, created)
  }

  /** Write `w` was answered 201, and node `n` still answers `/get` with an older version of its key. */
  ghost predicate Misses(c: Config, s: Cluster, w: nat, n: nat)
    requires Shape(c, s)
  {
    && IsCreated(s, w) && n < c.nodes
    && s.log[w].key in s.stores[n] && s.stores[n][s.log[w].key].version < s.log[w].version
  }

  ghost predicate CanMiss(c: Config) {
    exists s: Cluster, w: nat, n: nat :: Reachable(c, s) && Shape(c, s) && Misses(c, s, w, n)
  }

  // ---- What rules them out -----------------------------------------------------------------------

  /** A coordinator numbers its own writes upwards. */
  lemma OwnWritesClimb(c: Config, s: Cluster, w: nat)
    requires Inv(c, s) && w < |s.log|
    ensures s.progress[w].coordinator < c.nodes
    ensures NextVersion(s.stores[s.progress[w].coordinator], s.log[w].key) > s.log[w].version
    ensures Ver(s.stores[s.progress[w].coordinator], s.log[w].key) >= s.log[w].version
  {
    assert WriteInv(c, s.stores, s.log, s.progress, w);
  }

  lemma VerdictCounts(c: Config, s: Cluster, w: nat)
    requires Inv(c, s) && w < |s.log| && s.progress[w].status == Responded(false)
    ensures c.n >= 2
  {
    assert WriteInv(c, s.stores, s.log, s.progress, w);
  }

  lemma TieNeedsNodes(c: Config, steps: seq<Step>, j: nat, w: nat, created: bool)
    requires TiesWithAnswered(c, steps, j, w, created)
    ensures c.nodes >= 2 && if created then c.n < c.nodes else c.n >= 2
  {
    hide Apply, At, Inv;
    InvAlways(c, steps, j);
    OwnWritesClimb(c, At(c, steps, j), w);
    if created {
      if c.n >= c.nodes {
        EqualVersionMeansNotCreated(c, steps, j, w);
      }
    } else {
      VerdictCounts(c, At(c, steps, j), w);
    }
  }

  lemma MissNeedsNodes(c: Config, s: Cluster, w: nat, n: nat)
    requires Inv(c, s) && Misses(c, s, w, n)
    ensures c.nodes >= 2 && c.n < c.nodes
  {
    OwnWritesClimb(c, s, w);
    if c.n >= c.nodes {
      CreatedIsEverywhere(c, s, w, n);
    }
  }

  // ---- A write that leaves one node out ----------------------------------------------------------

  /** Node 0 has heard from nodes 1 to `m` - 1 about its write `w`: node 1 could not be reached, and the others
      acknowledged or could not be reached either, as `acked` says. */
  ghost predicate LeavesOut(c: Config, s: Cluster, t: Cluster, w: nat, acked: bool, m: nat) {
    && Shape(c, t) && 1 <= m <= c.nodes && c.nodes >= 2
    && t.log == s.log && |s.stores| == c.nodes && t.stores[1] == s.stores[1]
    && w < |t.log| && t.progress[w].coordinator == 0 && t.progress[w].status.Waiting?
    && |t.progress[w].acks| == m - 1 && (forall a :: a in t.progress[w].acks ==> a.node < m)
    && AckLoop.Acks(Oks(t.progress[w].acks)) == if acked && m > 2 then m - 2 else 0
  }

  lemma OneMoreAck(acks: seq<Ack>, a: Ack)
    ensures AckLoop.Acks(Oks(acks + [a])) == AckLoop.Acks(Oks(acks)) + (if a.ok then 1 else 0)
  {
    assert Oks(acks + [a])[..|acks|] == Oks(acks);
  }

  lemma HearsFailure(c: Config, s: Cluster, t: Cluster, w: nat, acked: bool, m: nat)
    requires LeavesOut(c, s, t, w, acked, m) && m < c.nodes && (m == 1 || !acked)
    ensures LeavesOut(c, s, Apply(c, t, AckArrives(w, m, false)), w, acked, m + 1)
  {
    OneMoreAck(t.progress[w].acks, Ack(m, false));
  }

  lemma HearsAck(c: Config, s: Cluster, t: Cluster, w: nat, m: nat)
    requires LeavesOut(c, s, t, w, true, m) && 1 < m < c.nodes
    ensures LeavesOut(c, s, Apply(c, Apply(c, t, Replicate(w, m)), AckArrives(w, m, true)), w, true, m + 1)
  {
    OneMoreAck(t.progress[w].acks, Ack(m, true));
    assert LeavesOut(c, s, Apply(c, t, Replicate(w, m)), w, true, m);
  }

  lemma {:induction false} HearsFromAll(c: Config, s: Cluster, w: nat, acked: bool, m: nat) returns (t: Cluster)
    requires Reachable(c, s) && LeavesOut(c, s, s, w, acked, 1) && 1 <= m <= c.nodes
    ensures Reachable(c, t) && LeavesOut(c, s, t, w, acked, m)
  {
    hide Apply, Reachable;
    if m == 1 {
      t := s;
    } else {
      t := HearsFromAll(c, s, w, acked, m - 1);
      if m - 1 == 1 || !acked {
        HearsFailure(c, s, t, w, acked, m - 1);
        OneMore(c, t, AckArrives(w, m - 1, false));
        t := Apply(c, t, AckArrives(w, m - 1, false));
      } else {
        HearsAck(c, s, t, w, m - 1);
        OneMore(c, t, Replicate(w, m - 1));
        OneMore(c, Apply(c, t, Replicate(w, m - 1)), AckArrives(w, m - 1, true));
        t := Apply(c, Apply(c, t, Replicate(w, m - 1)), AckArrives(w, m - 1, true));
      }
    }
  }

  /** The write is answered, and node 1 has not heard of it. */
  lemma AnsweredWithout(c: Config, s: Cluster, w: nat, created: bool) returns (t: Cluster)
    requires Reachable(c, s) && LeavesOut(c, s, s, w, created, 1)
    requires if created then c.n < c.nodes else c.n >= 2
    ensures Reachable(c, t) && Shape(c, t) && t.log == s.log && t.stores[1] == s.stores[1]
    ensures t.progress[w].status == Responded(created)
  {
    hide Reachable;
    var heard := HearsFromAll(c, s, w, created, c.nodes);
    OneMore(c, heard, RespondSet(w));
    t := Apply(c, heard, RespondSet(w));
  }

  // ---- The exact conditions ----------------------------------------------------------------------

  lemma FirstWrite(c: Config)
    requires c.nodes >= 2
    ensures var s := Apply(c, Init(c), ClientSet(0, "k", "a"));
            && s.log == [Put("k", "a", 1)] && s.stores[1] == map[]
            && LeavesOut(c, s, s, 0, true, 1) && LeavesOut(c, s, s, 0, false, 1)
            && SpreadInv(c, s.stores, s.log[0], s.progress[0])
  {
  }

  lemma TieReached(c: Config, created: bool)
    requires c.nodes >= 2 && if created then c.n < c.nodes else c.n >= 2
    ensures CanTie(c, created)
  {
    hide Apply, At, Init, LeavesOut, SpreadInv;
    InitReachable(c);
    OneMore(c, Init(c), ClientSet(0, "k", "a"));
    FirstWrite(c);
    var s := AnsweredWithout(c, Apply(c, Init(c), ClientSet(0, "k", "a")), 0, created);
    var steps: seq<Step> :| At(c, steps, |steps|) == s;
    var more := steps + [ClientSet(1, "k", "b")];
    LongerSchedule(c, steps, more, |steps|);
    assert TiesWithAnswered(c, more, |steps|, 0, created);
  }

  /** A write that starts after another was answered can tie with it, exactly in these clusters: after a 503
      when there are two nodes and N is at least 2, since the refused write stays where it was taken; after a
      201 only when N is below the number of nodes. Either way it takes two nodes, and two are enough. */
  lemma AnsweredWritesCanTie(c: Config, created: bool)
    ensures CanTie(c, created) <==> c.nodes >= 2 && if created then c.n < c.nodes else c.n >= 2
    ensures CanTie(c, true) || CanTie(c, false) <==> c.nodes >= 2
  {
    forall answer: bool
      ensures CanTie(c, answer) <==> c.nodes >= 2 && if answer then c.n < c.nodes else c.n >= 2
    {
      if CanTie(c, answer) {
        var steps: seq<Step>, j: nat, w: nat :| TiesWithAnswered(c, steps, j, w, answer);
        TieNeedsNodes(c, steps, j, w, answer);
      }
      if c.nodes >= 2 && if answer then c.n < c.nodes else c.n >= 2 {
        TieReached(c, answer);
      }
    }
  }

  /** Node 0 takes two writes; node 1 has only the first. */
  lemma TwoWrites(c: Config, s: Cluster)
    requires c.nodes >= 2 && s == Apply(c, Init(c), ClientSet(0, "k", "a"))
    ensures var t := Apply(c, Apply(c, s, Replicate(0, 1)), ClientSet(0, "k", "b"));
            && t.log == [Put("k", "a", 1), Put("k", "b", 2)] && t.stores[1] == map["k" := Entry("a", 1)]
            && LeavesOut(c, t, t, 1, true, 1)
  {
    FirstWrite(c);
    var sent := Apply(c, s, Replicate(0, 1));
    assert sent.stores[1] == map[]["k" := Entry("a", 1)];
  }

  lemma MissReached(c: Config)
    requires c.nodes >= 2 && c.n < c.nodes
    ensures CanMiss(c)
  {
    hide Apply, At, Init, LeavesOut, Reachable;
    InitReachable(c);
    var s := Apply(c, Init(c), ClientSet(0, "k", "a"));
    OneMore(c, Init(c), ClientSet(0, "k", "a"));
    OneMore(c, s, Replicate(0, 1));
    var sent := Apply(c, s, Replicate(0, 1));
    OneMore(c, sent, ClientSet(0, "k", "b"));
    TwoWrites(c, s);
    var t := AnsweredWithout(c, Apply(c, sent, ClientSet(0, "k", "b")), 1, true);
    assert Misses(c, t, 1, 1);
  }

  /** A node can answer with an older version after a 201 exactly when there are two nodes and N is below the
      number of nodes. */
  lemma CreatedWritesCanBeMissed(c: Config)
    ensures CanMiss(c) <==> c.nodes >= 2 && c.n < c.nodes
  {
    if c.nodes >= 2 && c.n < c.nodes {
      MissReached(c);
    }
    if CanMiss(c) {
      var s: Cluster, w: nat, n: nat :| Reachable(c, s) && Shape(c, s) && Misses(c, s, w, n);
      var steps: seq<Step> :| At(c, steps, |steps|) == s;
      InvAlways(c, steps, |steps|);
      MissNeedsNodes(c, s, w, n);
    }
  }

  // ---- The load generator's flags in leaderless mode ---------------------------------------------

  /** What the tracker expects after the writes `recorded`, one after the other. */
  function Tracked(log: seq<Put>, recorded: seq<nat>): Tracker.Versions
    requires forall x :: 0 <= x < |recorded| ==> recorded[x] < |log|
  {
    if recorded == [] then map[]
    else
      var last := recorded[|recorded| - 1];
      Tracker.Recorded(Tracked(log, recorded[..|recorded| - 1]), log[last].key, log[last].version)
  }

  /** A recorded write of the key newer than `version`. */
  predicate NewerRecorded(log: seq<Put>, recorded: seq<nat>, key: string, version: int, p: nat) {
    p in recorded && p < |log| && log[p].key == key && log[p].version > version
  }

  lemma {:induction false} TrackedIsNewest(log: seq<Put>, recorded: seq<nat>, key: string, version: int)
    requires forall x :: 0 <= x < |recorded| ==> recorded[x] < |log|
    requires version >= 0
    ensures version < Tracker.Expected(Tracked(log, recorded), key)
       <==> exists p :: NewerRecorded(log, recorded, key, version, p)
  {
    if recorded == [] {
    } else {
      var init, last := recorded[..|recorded| - 1], recorded[|recorded| - 1];
      assert recorded == init + [last];
      TrackedIsNewest(log, init, key, version);
      if p :| NewerRecorded(log, init, key, version, p) {
        assert NewerRecorded(log, recorded, key, version, p);
      }
      if log[last].key == key && log[last].version > version {
        assert NewerRecorded(log, recorded, key, version, last);
      }
      if p :| NewerRecorded(log, recorded, key, version, p) {
        assert p == last || NewerRecorded(log, init, key, version, p);
      }
    }
  }

  /** A read begins at moment `i`, node `n` answers it at `j`, and the load generator checks the answer at `m`,
      having recorded some writes that were answered 201. It is flagged exactly when one of them is newer than the
      answer, and every such write was still without its 201 when the read began. */
  lemma FlagsAreForConcurrentWrites(c: Config, steps: seq<Step>, i: nat, j: nat, m: nat, n: nat, key: string,
    recorded: seq<nat>)
    requires c.n >= c.nodes && i <= j <= m <= |steps| && n < c.nodes
    requires forall x :: 0 <= x < |recorded| ==>
               recorded[x] < |At(c, steps, m).log| && IsCreated(At(c, steps, m), recorded[x])
    requires key in At(c, steps, j).stores[n]
    ensures var log, version := At(c, steps, m).log, At(c, steps, j).stores[n][key].version;
            && (Tracker.Stale(Tracked(log, recorded), key, version)
                <==> exists p :: NewerRecorded(log, recorded, key, version, p))
            && forall p :: NewerRecorded(log, recorded, key, version, p) ==> !IsCreated(At(c, steps, i), p)
  {
    hide Apply, At;
    var log, version := At(c, steps, m).log, At(c, steps, j).stores[n][key].version;
    InvAlways(c, steps, j);
    StoredVersionsPositive(c, At(c, steps, j), n, key);
    TrackedIsNewest(log, recorded, key, version);
    forall p | NewerRecorded(log, recorded, key, version, p)
      ensures !IsCreated(At(c, steps, i), p)
    {
      if IsCreated(At(c, steps, i), p) {
        NothingIsTakenBack(c, steps, i, m);
        ReadsAfterCreatedAreFresh(c, steps, i, j, p, n);
      }
    }
  }
}
