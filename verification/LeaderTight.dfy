/** The quorum bound is exact: it guarantees an intersection if and only if W plus the read group exceeds N. */
module LeaderTight {
  import opened Basics
  import opened Channel
  import opened Replica
  import opened WriteLog
  import opened LeaderProtocol
  import opened LeaderQuorum
  import AckLoop

  /** In every schedule, every group of `q` replicas has a member that holds each acknowledged write. */
  ghost predicate EveryGroupSees(c: Config, q: nat) {
    forall steps: seq<Step>, i: nat, w: nat, group: set<nat> ::
      CreatedBy(c, steps, i, w) && group <= Below(c.followers + 1) && |group| == q ==>
        SomeoneHolds(At(c, steps, i), w, group)
  }

  ghost predicate SomeoneHolds(s: Cluster, w: nat, group: set<nat>)
    requires w < |s.log|
  {
    Holders(s.stores, s.log[w].key, s.log[w].version) * group != {}
  }

  ghost function Window(lo: nat, q: nat): (s: set<nat>)
    ensures |s| == q && forall x :: x in s <==> lo <= x < lo + q
  {
    if q == 0 then {} else Window(lo, q - 1) + {lo + q - 1}
  }

  /** One write, taken and acknowledged by followers 1 to `m` only. */
  ghost function Partial(c: Config, m: nat): Cluster {
    Cluster(seq(c.followers + 1, n => if n <= m then map["k" := Entry("v", 1)] else map[]),
            [Put("k", "v", 1)],
            [Progress(Window(1, m), seq(m, (n: nat) => Ack(n + 1, true)), Waiting)], [], map[])
  }

  lemma {:induction false} PartialReached(c: Config, m: nat) returns (steps: seq<Step>)
    requires m <= c.followers && (m > 0 ==> c.w > 1)
    ensures At(c, steps, |steps|) == Partial(c, m)
  {
    if m == 0 {
      steps := [ClientSet("k", "v")];
      FirstWrite(c);
      assert At(c, steps, 0) == Init(c);
    } else {
      var before := PartialReached(c, m - 1);
      OneMore(c, before, Replicate(0, m));
      OneMore(c, before + [Replicate(0, m)], AckArrives(0, m, true));
      steps := before + [Replicate(0, m)] + [AckArrives(0, m, true)];
      PartialGrows(c, m);
    }
  }

  lemma FirstWrite(c: Config)
    ensures Apply(c, Init(c), ClientSet("k", "v")) == Partial(c, 0)
  {
    var t := Apply(c, Init(c), ClientSet("k", "v"));
    assert t.stores == Partial(c, 0).stores;
    assert Window(1, 0) == {} && seq(0, (n: nat) => Ack(n + 1, true)) == [];
  }

  lemma PartialGrows(c: Config, m: nat)
    requires 0 < m <= c.followers && c.w > 1
    ensures Shape(c, Partial(c, m - 1))
    ensures Apply(c, Apply(c, Partial(c, m - 1), Replicate(0, m)), AckArrives(0, m, true)) == Partial(c, m)
  {
    var s := Partial(c, m - 1);
    var t := Apply(c, s, Replicate(0, m));
    assert t == PartialSent(c, m) by {
      assert t.stores == Partial(c, m).stores;
      assert Window(1, m - 1) + {m} == Window(1, m);
    }
    PartialAcked(c, m);
  }

  /** Follower `m` has the message too, and has not replied yet. */
  ghost function PartialSent(c: Config, m: nat): Cluster
    requires m > 0
  {
    var acks := Partial(c, m - 1).progress[0].acks;
    Partial(c, m).(progress := [Progress(Window(1, m), acks, Waiting)])
  }

  lemma PartialAcked(c: Config, m: nat)
    requires 0 < m <= c.followers && c.w > 1
    ensures Shape(c, PartialSent(c, m))
    ensures Apply(c, PartialSent(c, m), AckArrives(0, m, true)) == Partial(c, m)
  {
    var acks := PartialSent(c, m).progress[0].acks;
    forall a | a in acks
      ensures a.node != m
    {
    }
    assert acks + [Ack(m, true)] == Partial(c, m).progress[0].acks;
  }

  /** With exactly W - 1 positive replies the leader answers 201. */
  lemma JustEnoughAcks(needed: nat)
    ensures AckLoop.Acks(seq(needed, _ => true)) == needed
  {
    if needed == 0 {
    } else {
      assert seq(needed, _ => true)[..needed - 1] == seq(needed - 1, _ => true);
      JustEnoughAcks(needed - 1);
    }
  }

  lemma RespondsCreated(c: Config)
    requires Quorum(c) <= c.followers + 1
    ensures Shape(c, Partial(c, Quorum(c) - 1))
    ensures var t := Apply(c, Partial(c, Quorum(c) - 1), RespondSet(0, Quorum(c) - 1));
            && t.stores == Partial(c, Quorum(c) - 1).stores && t.log == Partial(c, Quorum(c) - 1).log
            && t.progress[0].status == Responded(true, Quorum(c) - 1)
  {
    var needed := Quorum(c) - 1;
    var oks := Oks(Partial(c, needed).progress[0].acks);
    assert oks == seq(needed, _ => true) == oks[..needed];
    if needed > 0 {
      ExactAcksConsumed(needed, c.followers);
    }
  }

  lemma ExactAcksConsumed(needed: nat, total: nat)
    requires 0 < needed <= total
    ensures var oks := seq(needed, _ => true);
            AckLoop.Consumes(oks, needed, needed, total) && AckLoop.Acks(oks) == needed
  {
    var oks := seq(needed, _ => true);
    assert oks[..needed] == oks;
    JustEnoughAcks(needed);
    forall j | 0 <= j < needed
      ensures !AckLoop.Leaves(oks[..j], needed, total)
    {
      assert oks[..j] == seq(j, _ => true);
      JustEnoughAcks(j);
    }
  }

  lemma MissedGroup(c: Config, q: nat) returns (steps: seq<Step>, group: set<nat>)
    requires Quorum(c) + q <= c.followers + 1
    ensures CreatedBy(c, steps, |steps|, 0)
    ensures group <= Below(c.followers + 1) && |group| == q
    ensures !SomeoneHolds(At(c, steps, |steps|), 0, group)
  {
    var before := PartialReached(c, Quorum(c) - 1);
    OneMore(c, before, RespondSet(0, Quorum(c) - 1));
    steps := before + [RespondSet(0, Quorum(c) - 1)];
    group := Window(Quorum(c), q);
    RespondedMisses(c, group);
  }

  lemma RespondedMisses(c: Config, group: set<nat>)
    requires Quorum(c) <= c.followers + 1 && forall x :: x in group ==> x >= Quorum(c)
    ensures Shape(c, Partial(c, Quorum(c) - 1))
    ensures var t := Apply(c, Partial(c, Quorum(c) - 1), RespondSet(0, Quorum(c) - 1));
            && |t.log| == 1 && t.progress[0].status == Responded(true, Quorum(c) - 1)
            && !SomeoneHolds(t, 0, group)
  {
    RespondsCreated(c);
  }

  /** Groups of `q` replicas see every acknowledged write in every schedule if and only if W + q > N, where
      a W below 1 counts as 1. */
  lemma QuorumBoundIsExact(c: Config, q: nat)
    ensures EveryGroupSees(c, q) <==> Quorum(c) + q > c.followers + 1
  {
    if Quorum(c) + q > c.followers + 1 {
      forall steps: seq<Step>, i: nat, w: nat, group: set<nat>
        | CreatedBy(c, steps, i, w) && group <= Below(c.followers + 1) && |group| == q
        ensures SomeoneHolds(At(c, steps, i), w, group)
      {
        QuorumIsDurable(c, steps, i, i, w);
        var put := At(c, steps, i).log[w];
        var holders := Holders(At(c, steps, i).stores, put.key, put.version);
        GroupsMeet(c.followers + 1, holders, group);
      }
    } else {
      var steps, group := MissedGroup(c, q);
    }
  }
}
