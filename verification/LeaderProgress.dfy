/** What can always still happen in the leader protocol: every message can get through, and every request can be
    answered, whatever happened before and even if no other message gets through again. */
module LeaderProgress {
  import opened Basics
  import opened Options
  import opened Channel
  import opened Replica
  import opened WriteLog
  import opened LeaderProtocol
  import opened LeaderInvariant
  import opened LeaderTheorems
  import opened LeaderQuorum
  import opened LeaderReads
  import AckLoop
  import ReadMerge
  import Tracker

  // ---- Messages that get through -----------------------------------------------------------------

  lemma MessageTaken(c: Config, s: Cluster, w: nat, n: nat)
    requires Inv(c, s) && w < |s.log| && IsFollower(c, n) && c.w > 1
    requires forall a :: a in s.progress[w].acks ==> a.node != n
    ensures var t := Apply(c, Apply(c, s, Replicate(w, n)), AckArrives(w, n, true));
            && |t.progress| == |s.progress| && t.progress[w].acks == s.progress[w].acks + [Ack(n, true)]
            && s.log[w].key in t.stores[n] && t.stores[n][s.log[w].key].version >= s.log[w].version
  {
  }

  /** A follower that has not acknowledged a write can take its message and acknowledge it. */
  lemma FollowerCanAcknowledge(c: Config, steps: seq<Step>, w: nat, n: nat)
    requires w < |At(c, steps, |steps|).log| && IsFollower(c, n) && c.w > 1
    requires forall a :: a in At(c, steps, |steps|).progress[w].acks ==> a.node != n
    ensures var s, more := At(c, steps, |steps|), steps + [Replicate(w, n)] + [AckArrives(w, n, true)];
            && w < |At(c, more, |more|).progress|
            && At(c, more, |more|).progress[w].acks == s.progress[w].acks + [Ack(n, true)]
            && s.log[w].key in At(c, more, |more|).stores[n]
            && At(c, more, |more|).stores[n][s.log[w].key].version >= s.log[w].version
  {
    hide Apply, At;
    InvAlways(c, steps, |steps|);
    MessageTaken(c, At(c, steps, |steps|), w, n);
    OneMore(c, steps, Replicate(w, n));
    OneMore(c, steps + [Replicate(w, n)], AckArrives(w, n, true));
  }

  lemma ReplyTaken(c: Config, s: Cluster, g: nat, n: nat)
    requires Shape(c, s) && g < |s.gets| && s.gets[g].node == 0 && IsFollower(c, n) && c.r > 1
    requires n !in s.gets[g].served && forall a :: a in s.gets[g].arrivals ==> a.node != n
    ensures var t := Apply(c, Apply(c, s, ServeInternal(g, n)), ReplyArrives(g, n, false));
            |t.gets| == |s.gets| &&
            t.gets[g] == s.gets[g].(served := t.gets[g].served,
                                    arrivals := s.gets[g].arrivals + [Arrival(n, Lookup(s.stores[n], s.gets[g].key))])
  {
  }

  /** A follower that has not served a leader read can do so, and what arrives is the entry it holds. */
  lemma FollowerCanReply(c: Config, steps: seq<Step>, g: nat, n: nat)
    requires g < |At(c, steps, |steps|).gets| && At(c, steps, |steps|).gets[g].node == 0 && IsFollower(c, n) && c.r > 1
    requires n !in At(c, steps, |steps|).gets[g].served
    requires forall a :: a in At(c, steps, |steps|).gets[g].arrivals ==> a.node != n
    ensures var s, more := At(c, steps, |steps|), steps + [ServeInternal(g, n)] + [ReplyArrives(g, n, false)];
            && g < |At(c, more, |more|).gets|
            && At(c, more, |more|).gets[g].arrivals
               == s.gets[g].arrivals + [Arrival(n, Lookup(s.stores[n], s.gets[g].key))]
            && At(c, more, |more|).gets[g].local == s.gets[g].local
            && At(c, more, |more|).gets[g].outcome == s.gets[g].outcome
            && At(c, more, |more|).gets[g].node == 0
  {
    hide Apply, At;
    ReplyTaken(c, At(c, steps, |steps|), g, n);
    OneMore(c, steps, ServeInternal(g, n));
    OneMore(c, steps + [ServeInternal(g, n)], ReplyArrives(g, n, false));
  }

  // ---- Every write can be answered ---------------------------------------------------------------

  /** Only failures have arrived for the write since `s`, and nothing else has changed. */
  ghost predicate OnlyFailures(s: Cluster, t: Cluster, w: nat) {
    && w < |s.progress| == |t.progress|
    && t == s.(progress := s.progress[w := t.progress[w]])
    && t.progress[w].status == s.progress[w].status
    && s.progress[w].acks <= t.progress[w].acks
    && forall x :: |s.progress[w].acks| <= x < |t.progress[w].acks| ==> !t.progress[w].acks[x].ok
  }

  ghost predicate HasReplied(acks: seq<Ack>, n: nat) {
    exists x :: 0 <= x < |acks| && acks[x].node == n
  }

  lemma FailureArrives(c: Config, s: Cluster, t: Cluster, w: nat, n: nat)
    requires Shape(c, s) && Shape(c, t) && OnlyFailures(s, t, w) && c.w > 1 && IsFollower(c, n)
    requires w < |t.log| && !HasReplied(t.progress[w].acks, n)
    ensures var u := Apply(c, t, AckArrives(w, n, false));
            OnlyFailures(s, u, w) && u.progress[w].acks == t.progress[w].acks + [Ack(n, false)]
  {
    forall a | a in t.progress[w].acks
      ensures a.node != n
    {
      var x :| 0 <= x < |t.progress[w].acks| && t.progress[w].acks[x] == a;
    }
  }

  lemma StillReplied(acks: seq<Ack>, more: seq<Ack>, m: nat)
    requires acks <= more && forall n :: 1 <= n <= m ==> HasReplied(acks, n)
    ensures forall n :: 1 <= n <= m ==> HasReplied(more, n)
  {
    forall n | 1 <= n <= m
      ensures HasReplied(more, n)
    {
      assert HasReplied(acks, n);
      var x :| 0 <= x < |acks| && acks[x].node == n;
      assert more[x].node == n;
    }
  }

  /** Followers 1 to `m` have replied, those that had not with a failure. */
  lemma {:induction false} RestFails(c: Config, steps: seq<Step>, w: nat, m: nat) returns (more: seq<Step>)
    requires w < |At(c, steps, |steps|).log| && c.w > 1 && m <= c.followers
    ensures steps <= more && OnlyFailures(At(c, steps, |steps|), At(c, more, |more|), w)
    ensures forall n :: 1 <= n <= m ==> HasReplied(At(c, more, |more|).progress[w].acks, n)
  {
    hide Apply, At, HasReplied;
    if m == 0 {
      more := steps;
    } else {
      more := RestFails(c, steps, w, m - 1);
      var s, t := At(c, steps, |steps|), At(c, more, |more|);
      if !HasReplied(t.progress[w].acks, m) {
        FailureArrives(c, s, t, w, m);
        OneMore(c, more, AckArrives(w, m, false));
        more := more + [AckArrives(w, m, false)];
        StillReplied(t.progress[w].acks, At(c, more, |more|).progress[w].acks, m - 1);
        LastHasReplied(t.progress[w].acks, m);
      }
    }
  }

  lemma LastHasReplied(acks: seq<Ack>, n: nat)
    ensures HasReplied(acks + [Ack(n, false)], n)
  {
    assert (acks + [Ack(n, false)])[|acks|].node == n;
  }

  lemma AllReplied(c: Config, p: Progress)
    requires ChannelInv(c, p) && forall n :: 1 <= n <= c.followers ==> HasReplied(p.acks, n)
    ensures |p.acks| == c.followers
  {
    var nodes := RepliersCounted(p.acks);
    var followers := Below(c.followers + 1) - {0};
    forall n | n in nodes
      ensures n in followers
    {
      var x :| 0 <= x < |p.acks| && p.acks[x].node == n;
    }
    forall n | n in followers
      ensures n in nodes
    {
      assert HasReplied(p.acks, n);
    }
    assert nodes == followers;
  }

  lemma {:induction false} FailuresAddNothing(acks: seq<Ack>, more: seq<Ack>)
    requires acks <= more && forall x :: |acks| <= x < |more| ==> !more[x].ok
    ensures AckLoop.Acks(Oks(more)) == AckLoop.Acks(Oks(acks))
    decreases |more|
  {
    if |more| == |acks| {
      assert more == acks;
    } else {
      var init := more[..|more| - 1];
      FailuresAddNothing(acks, init);
      assert Oks(more)[..|init|] == Oks(init);
    }
  }

  lemma VerdictOnFullChannel(c: Config, s: Cluster, t: Cluster, w: nat) returns (k: nat)
    requires Inv(c, t) && OnlyFailures(s, t, w) && w < |t.log| && t.progress[w].status.Waiting? && c.w > 1
    requires |t.progress[w].acks| == c.followers
    ensures var u := Apply(c, t, RespondSet(w, k));
            && u == t.(progress := u.progress) && |u.progress| == |t.progress|
            && u.progress[w].status == Responded(AckLoop.Acks(Oks(s.progress[w].acks)) >= c.w - 1, k)
  {
    var oks := Oks(t.progress[w].acks);
    AckLoop.LoopLeavesOnce(oks, c.w - 1);
    k :| AckLoop.Consumes(oks, k, c.w - 1, |oks|);
    AckLoop.EarlyExitIsExact(oks, k, oks, c.w - 1);
    FailuresAddNothing(s.progress[w].acks, t.progress[w].acks);
  }

  /** No write waits for ever for followers that fail: whatever has happened, if every reply still missing is a failure
      the leader answers, 201 exactly if W - 1 followers had acknowledged already, and the write stays. */
  lemma WriteCanEnd(c: Config, steps: seq<Step>, w: nat) returns (more: seq<Step>)
    requires w < |At(c, steps, |steps|).log| && At(c, steps, |steps|).progress[w].status.Waiting?
    ensures steps <= more
    ensures var s, t := At(c, steps, |steps|), At(c, more, |more|);
            && t.stores == s.stores && t.log == s.log && t.gets == s.gets && w < |t.progress|
            && t.progress[w].status.Responded?
            && (t.progress[w].status.created
                <==> c.w <= 1 || |AckLoop.Positives(Oks(s.progress[w].acks))| >= c.w - 1)
  {
    hide Apply, At, HasReplied;
    var s := At(c, steps, |steps|);
    AckLoop.AcksCountsPositives(Oks(s.progress[w].acks));
    if c.w <= 1 {
      OneMore(c, steps, RespondSet(w, 0));
      AloneResponds(c, s, w);
      more := steps + [RespondSet(w, 0)];
    } else {
      var full := RestFails(c, steps, w, c.followers);
      var t := At(c, full, |full|);
      InvAlways(c, full, |full|);
      assert ChannelInv(c, t.progress[w]);
      AllReplied(c, t.progress[w]);
      var k := VerdictOnFullChannel(c, s, t, w);
      OneMore(c, full, RespondSet(w, k));
      more := full + [RespondSet(w, k)];
    }
  }

  lemma AloneResponds(c: Config, s: Cluster, w: nat)
    requires Shape(c, s) && w < |s.log| && s.progress[w].status.Waiting? && c.w <= 1
    ensures var u := Apply(c, s, RespondSet(w, 0));
            && u == s.(progress := u.progress) && |u.progress| == |s.progress|
            && u.progress[w].status == Responded(true, 0)
  {
  }

  /** Nor does a write wait for slow followers: with W - 1 acknowledgements in, or more failures than the quorum can
      bear, the leader can answer at once. */
  lemma WriteAnswersAtOnce(c: Config, steps: seq<Step>, w: nat) returns (k: nat)
    requires w < |At(c, steps, |steps|).log| && At(c, steps, |steps|).progress[w].status.Waiting? && c.w > 1
    requires var acks := At(c, steps, |steps|).progress[w].acks;
             var positive := |AckLoop.Positives(Oks(acks))|;
             positive >= c.w - 1 || (|acks| > positive && |acks| - positive > c.followers - (c.w - 1))
    ensures var s, more := At(c, steps, |steps|), steps + [RespondSet(w, k)];
            && w < |At(c, more, |more|).progress|
            && At(c, more, |more|).progress[w].status
               == Responded(|AckLoop.Positives(Oks(s.progress[w].acks))| >= c.w - 1, k)
  {
    hide Apply, At;
    InvAlways(c, steps, |steps|);
    var p := At(c, steps, |steps|).progress[w];
    assert ChannelInv(c, p);
    AcksFit(c, p);
    AckLoop.AcksCountsPositives(Oks(p.acks));
    k := AckLoop.LeavesOnceDecided(Oks(p.acks), c.w - 1, c.followers);
    OneMore(c, steps, RespondSet(w, k));
    RespondsNow(c, At(c, steps, |steps|), w, k);
  }

  lemma RespondsNow(c: Config, s: Cluster, w: nat, k: nat)
    requires Shape(c, s) && w < |s.log| && s.progress[w].status.Waiting? && c.w > 1
    requires AckLoop.Consumes(Oks(s.progress[w].acks), k, c.w - 1, c.followers)
    ensures var u := Apply(c, s, RespondSet(w, k));
            && |u.progress| == |s.progress|
            && u.progress[w].status == Responded(AckLoop.Acks(Oks(s.progress[w].acks)[..k]) >= c.w - 1, k)
  {
  }

  lemma AcksFit(c: Config, p: Progress)
    requires ChannelInv(c, p)
    ensures |p.acks| <= c.followers
  {
    var nodes := RepliersCounted(p.acks);
    forall n | n in nodes
      ensures n in Below(c.followers + 1) - {0}
    {
      var x :| 0 <= x < |p.acks| && p.acks[x].node == n;
    }
    SubsetSize(nodes, Below(c.followers + 1) - {0});
  }

  ghost predicate RefusedBy(c: Config, steps: seq<Step>, w: nat) {
    && w < |At(c, steps, |steps|).progress|
    && At(c, steps, |steps|).progress[w].status.Responded? && !At(c, steps, |steps|).progress[w].status.created
  }

  /** A write can be answered 503 exactly when W is above 1. */
  lemma WritesCanBeRefused(c: Config)
    ensures (exists steps: seq<Step>, w: nat :: RefusedBy(c, steps, w)) <==> c.w > 1
  {
    hide Apply;
    if steps: seq<Step>, w: nat :| RefusedBy(c, steps, w) {
      InvAlways(c, steps, |steps|);
      assert ChannelInv(c, At(c, steps, |steps|).progress[w]);
    }
    if c.w > 1 {
      var one := [ClientSet("k", "a")];
      FirstWrite(c);
      var more := WriteCanEnd(c, one, 0);
      assert RefusedBy(c, more, 0);
    }
  }

  lemma FirstWrite(c: Config)
    ensures var s := At(c, [ClientSet("k", "a")], 1);
            && s.log == [Put("k", "a", 1)] && |s.progress| == 1 && s.progress[0] == Progress({}, [], Waiting)
            && AckLoop.Positives(Oks(s.progress[0].acks)) == {}
  {
    var nothing: seq<Step> := [];
    assert nothing + [ClientSet("k", "a")] == [ClientSet("k", "a")];
    OneMore(c, nothing, ClientSet("k", "a"));
  }

  // ---- Every read can be answered ----------------------------------------------------------------

  /** Only lost replies have arrived for the read since `s`, and nothing else has changed. */
  ghost predicate OnlyLosses(s: Cluster, t: Cluster, g: nat) {
    && g < |s.gets| == |t.gets|
    && t == s.(gets := s.gets[g := t.gets[g]])
    && t.gets[g] == s.gets[g].(arrivals := t.gets[g].arrivals)
    && s.gets[g].arrivals <= t.gets[g].arrivals
    && forall x :: |s.gets[g].arrivals| <= x < |t.gets[g].arrivals| ==> t.gets[g].arrivals[x].reply == None
  }

  ghost predicate HasArrived(arrivals: seq<Arrival>, n: nat) {
    exists x :: 0 <= x < |arrivals| && arrivals[x].node == n
  }

  lemma LossArrives(c: Config, s: Cluster, t: Cluster, g: nat, n: nat)
    requires Shape(c, s) && Shape(c, t) && OnlyLosses(s, t, g) && c.r > 1 && IsFollower(c, n)
    requires s.gets[g].node == 0 && !HasArrived(t.gets[g].arrivals, n)
    ensures var u := Apply(c, t, ReplyArrives(g, n, true));
            OnlyLosses(s, u, g) && u.gets[g].arrivals == t.gets[g].arrivals + [Arrival(n, None)]
  {
    forall a | a in t.gets[g].arrivals
      ensures a.node != n
    {
      var x :| 0 <= x < |t.gets[g].arrivals| && t.gets[g].arrivals[x] == a;
    }
  }

  lemma StillArrived(arrivals: seq<Arrival>, last: Arrival, m: nat)
    requires forall n :: 1 <= n <= m ==> HasArrived(arrivals, n)
    ensures forall n :: 1 <= n <= m ==> HasArrived(arrivals + [last], n)
    ensures HasArrived(arrivals + [last], last.node)
  {
    var more := arrivals + [last];
    assert more[|arrivals|].node == last.node;
    forall n | 1 <= n <= m
      ensures HasArrived(more, n)
    {
      assert HasArrived(arrivals, n);
      var x :| 0 <= x < |arrivals| && arrivals[x].node == n;
      assert more[x].node == n;
    }
  }

  /** The replies of followers 1 to `m` are in, those that were missing as losses. */
  lemma {:induction false} RestIsLost(c: Config, steps: seq<Step>, g: nat, m: nat) returns (more: seq<Step>)
    requires g < |At(c, steps, |steps|).gets| && At(c, steps, |steps|).gets[g].node == 0
    requires c.r > 1 && m <= c.followers
    ensures steps <= more && OnlyLosses(At(c, steps, |steps|), At(c, more, |more|), g)
    ensures forall n :: 1 <= n <= m ==> HasArrived(At(c, more, |more|).gets[g].arrivals, n)
  {
    hide Apply, At, HasArrived;
    if m == 0 {
      more := steps;
    } else {
      more := RestIsLost(c, steps, g, m - 1);
      var s, t := At(c, steps, |steps|), At(c, more, |more|);
      if !HasArrived(t.gets[g].arrivals, m) {
        LossArrives(c, s, t, g, m);
        OneMore(c, more, ReplyArrives(g, m, true));
        more := more + [ReplyArrives(g, m, true)];
        StillArrived(t.gets[g].arrivals, Arrival(m, None), m - 1);
      }
    }
  }

  lemma AllArrived(c: Config, get: Read)
    requires ReadInv(c, get) && forall n :: 1 <= n <= c.followers ==> HasArrived(get.arrivals, n)
    ensures |get.arrivals| == c.followers
  {
    QuorumCounted(c, get, |get.arrivals|);
    var heard, followers := Heard(get.arrivals, |get.arrivals|), Below(c.followers + 1) - {0};
    forall n | n in followers
      ensures n in heard
    {
      assert HasArrived(get.arrivals, n);
    }
    assert heard == followers;
  }

  lemma AnswerOnFullChannel(c: Config, t: Cluster, g: nat) returns (k: nat)
    requires Shape(c, t) && g < |t.gets| && t.gets[g].node == 0 && t.gets[g].outcome.Pending? && c.r > 1
    requires |t.gets[g].arrivals| == c.followers
    ensures var u := Apply(c, t, RespondGet(g, k));
            && u == t.(gets := u.gets) && |u.gets| == |t.gets|
            && u.gets[g] == t.gets[g].(outcome := u.gets[g].outcome) && u.gets[g].outcome.Answered?
  {
    k := ReadMerge.LoopLeaves(Replies(t.gets[g].arrivals), c.r - 1);
  }

  /** No leader read waits for ever: whatever has happened, if every reply still missing is lost the leader answers,
      from the replies it has. */
  lemma ReadCanEnd(c: Config, steps: seq<Step>, g: nat) returns (more: seq<Step>)
    requires g < |At(c, steps, |steps|).gets|
    requires At(c, steps, |steps|).gets[g].node == 0 && At(c, steps, |steps|).gets[g].outcome.Pending?
    ensures steps <= more && AnsweredBy(c, more, |more|, g)
    ensures var s, t := At(c, steps, |steps|), At(c, more, |more|);
            && t.stores == s.stores && t.log == s.log && t.progress == s.progress
            && s.gets[g].arrivals <= t.gets[g].arrivals
            && forall x :: |s.gets[g].arrivals| <= x < |t.gets[g].arrivals| ==> t.gets[g].arrivals[x].reply == None
  {
    hide Apply, At, HasArrived;
    var s := At(c, steps, |steps|);
    if c.r <= 1 {
      OneMore(c, steps, RespondGet(g, 0));
      AloneAnswers(c, s, g);
      more := steps + [RespondGet(g, 0)];
    } else {
      var full := RestIsLost(c, steps, g, c.followers);
      var t := At(c, full, |full|);
      ReadsAlways(c, full, |full|);
      AllArrived(c, t.gets[g]);
      var k := AnswerOnFullChannel(c, t, g);
      OneMore(c, full, RespondGet(g, k));
      more := full + [RespondGet(g, k)];
    }
  }

  /** Nor does a read wait for slow followers: with the entries of R - 1 of them in, the leader can answer at once. */
  lemma ReadAnswersAtOnce(c: Config, steps: seq<Step>, g: nat) returns (k: nat)
    requires g < |At(c, steps, |steps|).gets| && c.r > 1
    requires At(c, steps, |steps|).gets[g].node == 0 && At(c, steps, |steps|).gets[g].outcome.Pending?
    requires var arrivals := At(c, steps, |steps|).gets[g].arrivals; |Repliers(arrivals, |arrivals|)| >= c.r - 1
    ensures var more := steps + [RespondGet(g, k)];
            AnsweredBy(c, more, |more|, g)
  {
    hide Apply, At;
    ReadsAlways(c, steps, |steps|);
    var get := At(c, steps, |steps|).gets[g];
    NoMoreThanFollowers(c, get);
    QuorumCounted(c, get, |get.arrivals|);
    k := ReadMerge.LeavesOnceMet(Replies(get.arrivals), c.r - 1, c.followers);
    OneMore(c, steps, RespondGet(g, k));
    AnswersNow(c, At(c, steps, |steps|), g, k);
  }

  lemma AnswersNow(c: Config, s: Cluster, g: nat, k: nat)
    requires Shape(c, s) && g < |s.gets| && s.gets[g].node == 0 && s.gets[g].outcome.Pending? && c.r > 1
    requires ReadMerge.Consumes(Replies(s.gets[g].arrivals), k, c.r - 1, c.followers)
    ensures var u := Apply(c, s, RespondGet(g, k));
            |u.gets| == |s.gets| && u.gets[g].outcome.Answered?
  {
  }

  lemma AloneAnswers(c: Config, s: Cluster, g: nat)
    requires Shape(c, s) && g < |s.gets| && s.gets[g].node == 0 && s.gets[g].outcome.Pending? && c.r <= 1
    ensures var u := Apply(c, s, RespondGet(g, 0));
            && u == s.(gets := u.gets) && |u.gets| == |s.gets|
            && u.gets[g] == s.gets[g].(outcome := Answered(s.gets[g].local))
  {
  }

  /** A read at a follower can be answered at any moment, with what the follower holds. */
  lemma FollowerReadCanEnd(c: Config, steps: seq<Step>, g: nat)
    requires g < |At(c, steps, |steps|).gets|
    requires At(c, steps, |steps|).gets[g].node != 0 && At(c, steps, |steps|).gets[g].outcome.Pending?
    ensures var s, more := At(c, steps, |steps|), steps + [ServeFollowerGet(g)];
            && AnsweredBy(c, more, |more|, g)
            && At(c, more, |more|).gets[g].outcome.entry == Lookup(s.stores[s.gets[g].node], s.gets[g].key)
  {
    OneMore(c, steps, ServeFollowerGet(g));
  }

  // ---- The load generator ------------------------------------------------------------------------

  /** Every write answered 201 can be recorded, and the tracker expects at least its version from then on. */
  lemma CreatedCanBeRecorded(c: Config, steps: seq<Step>, w: nat)
    requires CreatedBy(c, steps, |steps|, w)
    ensures var s, t := At(c, steps, |steps|), At(c, steps + [RecordWrite(w)], |steps| + 1);
            Tracker.Expected(t.tracked, s.log[w].key) >= s.log[w].version
  {
    OneMore(c, steps, RecordWrite(w));
  }

  /** Every entry that a read at any node was answered with can be checked, against what the tracker then expects. */
  lemma AnswerCanBeChecked(c: Config, steps: seq<Step>, g: nat)
    requires AnsweredBy(c, steps, |steps|, g) && At(c, steps, |steps|).gets[g].outcome.entry.Some?
    requires At(c, steps, |steps|).gets[g].stale.None?
    ensures var s, more := At(c, steps, |steps|), steps + [CheckRead(g)];
            && g < |At(c, more, |more|).gets|
            && At(c, more, |more|).gets[g].stale
               == Some(s.gets[g].outcome.entry.value.version < Tracker.Expected(s.tracked, s.gets[g].key)
                       && Tracker.Expected(s.tracked, s.gets[g].key) > 0)
  {
    OneMore(c, steps, CheckRead(g));
  }

  // ---- What the replies are good for -------------------------------------------------------------

  /** Read `g`, begun at step `b`, was answered with something newer than the leader held when it began. */
  ghost predicate Learned(c: Config, steps: seq<Step>, b: nat, g: nat) {
    && Begins(c, steps, b, g) && steps[b].node == 0 && AnsweredBy(c, steps, |steps|, g)
    && At(c, steps, |steps|).gets[g].outcome.entry.Some?
    && At(c, steps, |steps|).gets[g].outcome.entry.value.version > Ver(At(c, steps, b).stores[0], steps[b].key)
  }

  ghost predicate CanLearn(c: Config) {
    exists steps: seq<Step>, b: nat, g: nat :: Learned(c, steps, b, g)
  }

  lemma NothingAtFirst(c: Config, steps: seq<Step>, g: nat, n: nat)
    ensures !ServedBy(c, steps, 0, g, n)
  {
  }

  lemma LearningNeedsReplies(c: Config, steps: seq<Step>, b: nat, g: nat)
    requires Learned(c, steps, b, g)
    ensures c.followers >= 1 && c.w > 1 && c.r > 1
  {
    hide At, Apply, Begins, ServedBy;
    var j := |steps|;
    var get := At(c, steps, j).gets[g];
    BeginsBeforeAnswer(c, steps, b, j, g);
    ReadsAlways(c, steps, j);
    assert ReadInv(c, get);
    if c.r > 1 {
      var k := LeaderReadTakesQuorum(c, steps, j, g);
      var n :| n in Repliers(get.arrivals, k) && get.served[n] == get.outcome.entry;
      NothingAtFirst(c, steps, g, n);
      IsServed(c, steps, j, g, n);
      var m := ServedAtMoment(c, steps, b, j, g, n, 0);
      if c.w <= 1 {
        WriteOneReplicatesNothing(c, steps, m, n);
      }
    }
  }

  lemma IsServed(c: Config, steps: seq<Step>, j: nat, g: nat, n: nat)
    requires j <= |steps| && g < |At(c, steps, j).gets| && n in At(c, steps, j).gets[g].served
    ensures ServedBy(c, steps, j, g, n)
  {
  }

  lemma AtStart(c: Config, steps: seq<Step>)
    ensures At(c, steps, 0) == Init(c)
  {
  }

  /** A read is under way at the leader, which then took a second write; follower 1 has that write and nothing else. */
  lemma SecondWriteReplicated(c: Config) returns (steps: seq<Step>)
    requires c.followers >= 1 && c.w > 1
    ensures |steps| == 4 && Begins(c, steps, 1, 0) && steps[1] == ClientGet(0, "k")
    ensures var s := At(c, steps, 4);
            && |s.gets| == 1 && s.gets[0] == Read(0, "k", Some(Entry("a", 1)), map[], [], Pending, None)
            && Lookup(s.stores[1], "k") == Some(Entry("b", 2))
    ensures Ver(At(c, steps, 1).stores[0], "k") == 1
  {
    hide Apply, At, Init;
    var one := [ClientSet("k", "a")];
    var two := one + [ClientGet(0, "k")];
    var three := two + [ClientSet("k", "b")];
    steps := three + [Replicate(1, 1)];
    var nothing: seq<Step> := [];
    AtStart(c, nothing);
    assert nothing + one == one;
    OneMore(c, nothing, ClientSet("k", "a"));
    OneMore(c, one, ClientGet(0, "k"));
    OneMore(c, two, ClientSet("k", "b"));
    OneMore(c, three, Replicate(1, 1));
    LongerSchedule(c, one, steps, 1);
    SecondWriteStates(c);
  }

  lemma SecondWriteStates(c: Config)
    requires c.followers >= 1 && c.w > 1
    ensures var s := Apply(c, Init(c), ClientSet("k", "a"));
            var t := Apply(c, s, ClientGet(0, "k"));
            var u := Apply(c, t, ClientSet("k", "b"));
            var v := Apply(c, u, Replicate(1, 1));
            && |s.gets| == 0 && Ver(s.stores[0], "k") == 1
            && v.gets == [Read(0, "k", Some(Entry("a", 1)), map[], [], Pending, None)]
            && Lookup(v.stores[1], "k") == Some(Entry("b", 2))
  {
    var s := Apply(c, Init(c), ClientSet("k", "a"));
    var t := Apply(c, s, ClientGet(0, "k"));
    assert t.gets == [Read(0, "k", Some(Entry("a", 1)), map[], [], Pending, None)];
    var u := Apply(c, t, ClientSet("k", "b"));
    assert u.log == [Put("k", "a", 1), Put("k", "b", 2)] && u.stores[1] == map[];
  }

  lemma ReplyIsLearned(c: Config)
    requires c.followers >= 1 && c.w > 1 && c.r > 1
    ensures CanLearn(c)
  {
    hide At, Apply, Begins;
    var begun := SecondWriteReplicated(c);
    FollowerCanReply(c, begun, 0, 1);
    var replied := begun + [ServeInternal(0, 1)] + [ReplyArrives(0, 1, false)];
    var more := ReadCanEnd(c, replied, 0);
    BeginsLater(c, begun, more);
    ReadsAlways(c, more, |more|);
    var k := LeaderReadTakesQuorum(c, more, |more|, 0);
    FirstReplyTaken(c, At(c, more, |more|).gets[0], k, Entry("b", 2));
    assert Learned(c, more, 1, 0);
  }

  lemma BeginsLater(c: Config, steps: seq<Step>, more: seq<Step>)
    requires |steps| >= 2 && steps <= more && Begins(c, steps, 1, 0) && steps[1].node == 0
    ensures Begins(c, more, 1, 0) && At(c, more, 1) == At(c, steps, 1)
    ensures AnsweredBy(c, more, |more|, 0) ==> At(c, more, |more|).gets[0].node == 0
  {
    LongerSchedule(c, steps, more, 1);
    if AnsweredBy(c, more, |more|, 0) {
      BeginsBeforeAnswer(c, more, 1, |more|, 0);
    }
  }

  lemma FirstReplyTaken(c: Config, get: Read, k: nat, e: Entry)
    requires TookQuorum(c, get, k) && c.r > 1 && c.followers >= 1 && ReadInv(c, get)
    requires |get.arrivals| > 0 && get.arrivals[0] == Arrival(1, Some(e))
    ensures get.outcome.entry.Some? && get.outcome.entry.value.version >= e.version
  {
    assert Repliers(get.arrivals, 0) == {} && Heard(get.arrivals, 0) == {};
    assert 1 in Below(c.followers + 1) - {0};
    assert get.arrivals[0].node in Repliers(get.arrivals, k);
  }

  /** Why a leader read asks followers at all: it can return a write newer than what the leader held when the read
      began, exactly when writes are replicated (W above 1), reads ask (R above 1), and there is a follower. */
  lemma RepliesCanBeNewer(c: Config)
    ensures CanLearn(c) <==> c.followers >= 1 && c.w > 1 && c.r > 1
  {
    if CanLearn(c) {
      var steps: seq<Step>, b: nat, g: nat :| Learned(c, steps, b, g);
      LearningNeedsReplies(c, steps, b, g);
    }
    if c.followers >= 1 && c.w > 1 && c.r > 1 {
      ReplyIsLearned(c);
    }
  }
}
