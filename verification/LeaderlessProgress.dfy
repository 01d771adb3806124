/** What can always still happen in the leaderless protocol: every message can get through, and every write can be
    answered, even if no other message gets through again. */
module LeaderlessProgress {
  import opened Basics
  import opened Channel
  import opened LeaderlessProtocol
  import opened LeaderlessInvariant
  import AckLoop

  ghost predicate HasReplied(p: Progress, n: nat) {
    exists x :: 0 <= x < |p.acks| && p.acks[x].node == n
  }

  lemma NotAmong(p: Progress, n: nat)
    requires !HasReplied(p, n)
    ensures forall a :: a in p.acks ==> a.node != n
  {
    forall a | a in p.acks
      ensures a.node != n
    {
      var x :| 0 <= x < |p.acks| && p.acks[x] == a;
    }
  }

  /** A peer that has not acknowledged a write can take its message and acknowledge it. */
  lemma PeerCanAcknowledge(c: Config, s: Cluster, w: nat, n: nat)
    requires Reachable(c, s) && Inv(c, s) && w < |s.log| && IsPeer(c, s.progress[w], n) && !HasReplied(s.progress[w], n)
    ensures var t := Apply(c, Apply(c, s, Replicate(w, n)), AckArrives(w, n, true));
            && Reachable(c, t) && |t.progress| == |s.progress|
            && t.progress[w].acks == s.progress[w].acks + [Ack(n, true)]
            && s.log[w].key in t.stores[n] && t.stores[n][s.log[w].key].version >= s.log[w].version
  {
    hide Reachable;
    NotAmong(s.progress[w], n);
    OneMore(c, s, Replicate(w, n));
    OneMore(c, Apply(c, s, Replicate(w, n)), AckArrives(w, n, true));
  }

  /** Only failures have arrived for the write since `s`, and nothing else has changed. */
  ghost predicate OnlyFailures(s: Cluster, t: Cluster, w: nat) {
    && w < |s.progress| == |t.progress|
    && t == s.(progress := s.progress[w := t.progress[w]])
    && t.progress[w] == s.progress[w].(acks := t.progress[w].acks)
    && AckLoop.Acks(Oks(t.progress[w].acks)) == AckLoop.Acks(Oks(s.progress[w].acks))
  }

  lemma FailureArrives(c: Config, s: Cluster, t: Cluster, w: nat, n: nat)
    requires Inv(c, t) && OnlyFailures(s, t, w) && w < |t.log|
    requires IsPeer(c, t.progress[w], n) && !HasReplied(t.progress[w], n)
    ensures var u := Apply(c, t, AckArrives(w, n, false));
            && OnlyFailures(s, u, w) && HasReplied(u.progress[w], n)
            && forall m :: HasReplied(t.progress[w], m) ==> HasReplied(u.progress[w], m)
  {
    NotAmong(t.progress[w], n);
    var acks := t.progress[w].acks;
    var u := Apply(c, t, AckArrives(w, n, false));
    assert u.progress[w].acks == acks + [Ack(n, false)];
    assert Oks(acks + [Ack(n, false)])[..|acks|] == Oks(acks);
    assert u.progress[w].acks[|acks|].node == n;
    forall m | HasReplied(t.progress[w], m)
      ensures HasReplied(u.progress[w], m)
    {
      var x :| 0 <= x < |acks| && acks[x].node == m;
      assert u.progress[w].acks[x].node == m;
    }
  }

  /** The peers among the first `m` nodes have replied, those that had not with a failure. */
  lemma {:induction false} RestFails(c: Config, s: Cluster, w: nat, m: nat) returns (t: Cluster)
    requires Reachable(c, s) && Inv(c, s) && w < |s.log| && m <= c.nodes
    ensures Reachable(c, t) && Inv(c, t) && OnlyFailures(s, t, w)
    ensures forall n :: 0 <= n < m && IsPeer(c, t.progress[w], n) ==> HasReplied(t.progress[w], n)
  {
    hide Apply, Reachable, Inv, HasReplied;
    InvHasShape(c, s);
    if m == 0 {
      t := s;
    } else {
      t := RestFails(c, s, w, m - 1);
      if IsPeer(c, t.progress[w], m - 1) && !HasReplied(t.progress[w], m - 1) {
        var step := AckArrives(w, m - 1, false);
        FailureArrives(c, s, t, w, m - 1);
        InvHasShape(c, t);
        OneMore(c, t, step);
        InvStep(c, t, step);
        t := Apply(c, t, step);
      }
    }
  }

  lemma InvHasShape(c: Config, s: Cluster)
    requires Inv(c, s)
    ensures Shape(c, s)
  {
  }

  lemma AllReplied(c: Config, p: Progress)
    requires ChannelInv(c, p) && p.coordinator < c.nodes
    requires forall n :: 0 <= n < c.nodes && IsPeer(c, p, n) ==> HasReplied(p, n)
    ensures |p.acks| == c.nodes - 1
  {
    var nodes := RepliersCounted(p.acks);
    var peers := Below(c.nodes) - {p.coordinator};
    forall n | n in nodes
      ensures n in peers
    {
      var x :| 0 <= x < |p.acks| && p.acks[x].node == n;
    }
    forall n | n in peers
      ensures n in nodes
    {
      assert IsPeer(c, p, n) && HasReplied(p, n);
    }
    assert nodes == peers;
  }

  /** No write waits for ever for peers that fail: whatever has happened, if every reply still missing is a failure the
      coordinator answers, 201 exactly if N - 1 peers had acknowledged already, and the write stays. */
  lemma WriteCanEnd(c: Config, s: Cluster, w: nat) returns (t: Cluster)
    requires Reachable(c, s) && Inv(c, s) && w < |s.log| && s.progress[w].status.Waiting?
    ensures Reachable(c, t) && t.stores == s.stores && t.log == s.log && w < |t.progress|
    ensures t.progress[w].status == Responded(|AckLoop.Positives(Oks(s.progress[w].acks))| >= c.n - 1)
  {
    hide Reachable;
    AckLoop.AcksCountsPositives(Oks(s.progress[w].acks));
    var full := RestFails(c, s, w, c.nodes);
    assert WriteInv(c, full.stores, full.log, full.progress, w);
    AllReplied(c, full.progress[w]);
    OneMore(c, full, RespondSet(w));
    t := Apply(c, full, RespondSet(w));
  }
}
