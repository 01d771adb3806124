/** What clients of the leaderless store can rely on, over every schedule. */
module LeaderlessTheorems {
  import opened Basics
  import opened Channel
  import opened Replica
  import opened WriteLog
  import opened LeaderlessProtocol
  import opened LeaderlessInvariant
  import AckLoop

  // ---- What only grows ---------------------------------------------------------------------------

  ghost predicate Grows(s: Cluster, t: Cluster) {
    && |s.stores| == |t.stores|
    && (forall n :: 0 <= n < |s.stores| ==> StoreGrows(s.stores[n], t.stores[n]))
    && s.log <= t.log
    && |s.progress| <= |t.progress|
    && (forall i :: 0 <= i < |s.progress| ==>
          s.progress[i].coordinator == t.progress[i].coordinator
          && (s.progress[i].status.Responded? ==> t.progress[i].status == s.progress[i].status))
  }

  lemma StepGrows(c: Config, s: Cluster, step: Step)
    requires Shape(c, s)
    ensures Grows(s, Apply(c, s, step))
  {
  }

  lemma GrowsAt(c: Config, steps: seq<Step>, i: nat)
    requires i < |steps|
    ensures Grows(At(c, steps, i), At(c, steps, i + 1))
  {
    StepGrows(c, At(c, steps, i), steps[i]);
  }

  lemma GrowsTransitive(s: Cluster, t: Cluster, u: Cluster)
    requires Grows(s, t) && Grows(t, u)
    ensures Grows(s, u)
  {
    forall n | 0 <= n < |s.stores|
      ensures StoreGrows(s.stores[n], u.stores[n])
    {
      assert StoreGrows(s.stores[n], t.stores[n]) && StoreGrows(t.stores[n], u.stores[n]);
    }
  }

  lemma GrowsReflexive(s: Cluster)
    ensures Grows(s, s)
  {
  }

  /** Versions, the write log and responses are never taken back. */
  lemma {:induction false} NothingIsTakenBack(c: Config, steps: seq<Step>, i: nat, j: nat)
    requires i <= j <= |steps|
    ensures Grows(At(c, steps, i), At(c, steps, j))
  {
    hide Apply, Grows;
    if i == j {
      GrowsReflexive(At(c, steps, i));
    } else {
      NothingIsTakenBack(c, steps, i, j - 1);
      GrowsAt(c, steps, j - 1);
      GrowsTransitive(At(c, steps, i), At(c, steps, j - 1), At(c, steps, j));
    }
  }

  // ---- Real-time order ---------------------------------------------------------------------------

  /** Write `w` has been answered 201. */
  ghost predicate IsCreated(s: Cluster, w: nat) {
    w < |s.log| && w < |s.progress| && s.progress[w].status == Responded(true)
  }

  lemma SameSizeSubset(a: set<nat>, b: set<nat>)
    requires a <= b && |a| == |b|
    ensures a == b
  {
    assert b == a + (b - a);
  }

  /** A 201 means every peer replied, and positively. */
  lemma CreatedReachedEveryPeer(c: Config, p: Progress, n: nat)
    requires ChannelInv(c, p) && p.status == Responded(true) && c.n >= c.nodes && IsPeer(c, p, n)
    requires p.coordinator < c.nodes
    ensures n in p.applied
  {
    var nodes := RepliersCounted(p.acks);
    var peers := Below(c.nodes) - {p.coordinator};
    forall m | m in nodes
      ensures m in peers
    {
      var x :| 0 <= x < |p.acks| && p.acks[x].node == m;
    }
    SameSizeSubset(nodes, peers);
    assert n in nodes;
    var x :| 0 <= x < |p.acks| && p.acks[x].node == n;
    AckLoop.AllPositiveMeansAll(Oks(p.acks), x);
  }

  lemma CreatedIsEverywhere(c: Config, s: Cluster, w: nat, n: nat)
    requires Inv(c, s) && IsCreated(s, w) && c.n >= c.nodes && n < c.nodes
    ensures s.log[w].key in s.stores[n] && s.stores[n][s.log[w].key].version >= s.log[w].version >= 1
  {
    assert WriteInv(c, s.stores, s.log, s.progress, w);
    if n != s.progress[w].coordinator {
      CreatedReachedEveryPeer(c, s.progress[w], n);
    }
  }

  /** After a 201 for version v, every node answers with version v or newer, then and ever after: no 404,
      nothing older, whichever node is asked. */
  lemma ReadsAfterCreatedAreFresh(c: Config, steps: seq<Step>, i: nat, j: nat, w: nat, n: nat)
    requires c.n >= c.nodes && i <= j <= |steps| && n < c.nodes
    requires IsCreated(At(c, steps, i), w)
    ensures Lookup(At(c, steps, j).stores[n], At(c, steps, i).log[w].key).Some?
    ensures Lookup(At(c, steps, j).stores[n], At(c, steps, i).log[w].key).value.version
            >= At(c, steps, i).log[w].version
  {
    InvAlways(c, steps, i);
    NothingIsTakenBack(c, steps, i, j);
    CreatedIsEverywhere(c, At(c, steps, i), w, n);
    assert StoreGrows(At(c, steps, i).stores[n], At(c, steps, j).stores[n]);
  }

  /** Step `j` starts a write. */
  ghost predicate Starts(c: Config, steps: seq<Step>, j: nat) {
    j < |steps| && steps[j].ClientSet? && steps[j].node < c.nodes && steps[j].key != ""
  }

  /** The version that the write started at step `j` gets. */
  ghost function VersionGiven(c: Config, steps: seq<Step>, j: nat): int
    requires Starts(c, steps, j)
  {
    NextVersion(At(c, steps, j).stores[steps[j].node], steps[j].key)
  }

  lemma StartIsLogged(c: Config, steps: seq<Step>, j: nat, k: nat)
    requires Starts(c, steps, j) && j < k <= |steps|
    ensures |At(c, steps, j).log| < |At(c, steps, k).log|
    ensures At(c, steps, k).log[|At(c, steps, j).log|]
         == Put(steps[j].key, steps[j].value, VersionGiven(c, steps, j))
  {
    NothingIsTakenBack(c, steps, j + 1, k);
  }

  /** Versions respect real time: a write that starts, at any node, after another was answered 201 gets a
      larger version, and that is the version its log entry carries from then on. */
  lemma LaterWriteGetsLargerVersion(c: Config, steps: seq<Step>, i: nat, j: nat, w: nat, k: nat)
    requires c.n >= c.nodes && i <= j < k <= |steps| && Starts(c, steps, j)
    requires IsCreated(At(c, steps, i), w) && At(c, steps, i).log[w].key == steps[j].key
    ensures VersionGiven(c, steps, j) > At(c, steps, i).log[w].version
    ensures w < |At(c, steps, j).log| < |At(c, steps, k).log| && At(c, steps, k).log[w] == At(c, steps, i).log[w]
    ensures At(c, steps, k).log[|At(c, steps, j).log|]
         == Put(steps[j].key, steps[j].value, VersionGiven(c, steps, j))
  {
    hide Apply;
    ReadsAfterCreatedAreFresh(c, steps, i, j, w, steps[j].node);
    StartIsLogged(c, steps, j, k);
    NothingIsTakenBack(c, steps, i, j);
    NothingIsTakenBack(c, steps, j, k);
  }

  /** A write can only get the version of an earlier one that had not been answered 201 when it started: that one
      was still waiting, or had been answered 503. */
  lemma EqualVersionMeansNotCreated(c: Config, steps: seq<Step>, j: nat, w: nat)
    requires c.n >= c.nodes && Starts(c, steps, j)
    requires w < |At(c, steps, j).log| && At(c, steps, j).log[w].key == steps[j].key
    requires At(c, steps, j).log[w].version == VersionGiven(c, steps, j)
    ensures !IsCreated(At(c, steps, j), w)
  {
    if IsCreated(At(c, steps, j), w) {
      LaterWriteGetsLargerVersion(c, steps, j, j, w, j + 1);
    }
  }
}
