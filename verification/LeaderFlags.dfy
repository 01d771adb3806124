/** When the load generator can flag a leader read at all: exactly when a write can be acknowledged. */
module LeaderFlags {
  import opened Basics
  import opened Options
  import opened Channel
  import opened Replica
  import opened WriteLog
  import opened LeaderProtocol
  import opened LeaderInvariant
  import opened LeaderTheorems
  import opened LeaderQuorum
  import opened LeaderTight
  import opened LeaderStale
  import ReadMerge

  /** A read of the leader, begun, answered and checked at these steps, and write `put`, which SetLocal logged at
      step `logged`. */
  datatype Flag = Flag(get: nat, begun: nat, answered: nat, checked: nat, put: nat, logged: nat)

  /** Before the check of read `g` at step `m` write `p` of its key was recorded, newer than the answer. */
  ghost predicate NewerThanAnswer(c: Config, steps: seq<Step>, m: nat, g: nat, p: nat) {
    && AnsweredBy(c, steps, m, g) && At(c, steps, m).gets[g].outcome.entry.Some?
    && NewerRecorded(c, steps, m, At(c, steps, m).gets[g].key,
                     At(c, steps, m).gets[g].outcome.entry.value.version, p)
  }

  /** The read was flagged stale, for that write. */
  ghost predicate Flagged(c: Config, steps: seq<Step>, f: Flag) {
    && Begins(c, steps, f.begun, f.get) && steps[f.begun].node == 0
    && AnswersAt(c, steps, f.answered, f.get) && ChecksAt(c, steps, f.checked, f.get)
    && At(c, steps, f.checked + 1).gets[f.get].stale == Some(true)
    && LogsAt(c, steps, f.logged, f.put) && NewerThanAnswer(c, steps, f.checked, f.get, f.put)
  }

  /** Some schedule has a flagged leader read for a write whose SetLocal ran before the answer, or after it. */
  ghost predicate CanBeFlagged(c: Config, beforeAnswer: bool) {
    exists steps: seq<Step>, f: Flag :: Flagged(c, steps, f) && (f.logged < f.answered <==> beforeAnswer)
  }

  // ---- Flags need acknowledged writes ------------------------------------------------------------

  lemma CreatedNeedsQuorum(c: Config, s: Cluster, p: nat)
    requires Inv(c, s) && p < |s.log| && IsCreated(s, p)
    ensures Quorum(c) <= c.followers + 1
  {
    CreatedIsHeld(c, s, p);
    SubsetSize(Holders(s.stores, s.log[p].key, s.log[p].version), Below(c.followers + 1));
  }

  lemma RecordedNeedsQuorum(c: Config, steps: seq<Step>, m: nat, p: nat)
    requires RecordedBy(c, steps, m, p)
    ensures Quorum(c) <= c.followers + 1
  {
    hide Apply, At;
    RecordedIsTracked(c, steps, m, p);
    InvAlways(c, steps, m);
    CreatedNeedsQuorum(c, At(c, steps, m), p);
  }

  // ---- Carrying facts to longer schedules --------------------------------------------------------

  lemma AnswerCarries(c: Config, steps: seq<Step>, more: seq<Step>, a: nat, g: nat)
    requires steps <= more && AnswersAt(c, steps, a, g)
    ensures AnswersAt(c, more, a, g)
  {
    LongerSchedule(c, steps, more, a);
    LongerSchedule(c, steps, more, a + 1);
  }

  lemma LogCarries(c: Config, steps: seq<Step>, more: seq<Step>, s: nat, p: nat)
    requires steps <= more && LogsAt(c, steps, s, p)
    ensures LogsAt(c, more, s, p)
  {
    LongerSchedule(c, steps, more, s);
    LongerSchedule(c, steps, more, s + 1);
  }

  lemma RecordCarries(c: Config, steps: seq<Step>, more: seq<Step>, p: nat)
    requires steps <= more && RecordedBy(c, steps, |steps|, p)
    ensures RecordedBy(c, more, |steps|, p) && RecordedBy(c, more, |more|, p)
  {
    var t :| 0 <= t < |steps| && steps[t] == RecordWrite(p) && IsCreated(At(c, steps, t), p);
    LongerSchedule(c, steps, more, t);
    assert more[t] == RecordWrite(p) && IsCreated(At(c, more, t), p);
  }

  lemma BeginCarries(c: Config, steps: seq<Step>, more: seq<Step>, i: nat, g: nat)
    requires steps <= more && Begins(c, steps, i, g)
    ensures Begins(c, more, i, g)
  {
    LongerSchedule(c, steps, more, i);
  }

  // ---- A write that is acknowledged --------------------------------------------------------------

  /** Followers 1 to `m` have taken and acknowledged write `w`; reads, log and tracker are as they were. */
  ghost predicate AckedTo(s: Cluster, t: Cluster, w: nat, m: nat) {
    && t.log == s.log && t.gets == s.gets && t.tracked == s.tracked
    && w < |t.progress| && t.progress[w].status.Waiting?
    && |t.progress[w].acks| == m && forall a :: a in t.progress[w].acks ==> a.ok && a.node <= m
  }

  lemma OneMoreAck(c: Config, s: Cluster, t: Cluster, w: nat, m: nat)
    requires Shape(c, t) && AckedTo(s, t, w, m) && m < c.followers && c.w > 1
    ensures AckedTo(s, Apply(c, Apply(c, t, Replicate(w, m + 1)), AckArrives(w, m + 1, true)), w, m + 1)
  {
  }

  lemma {:induction false} FollowersAck(c: Config, steps: seq<Step>, w: nat, m: nat) returns (more: seq<Step>)
    requires AckedTo(At(c, steps, |steps|), At(c, steps, |steps|), w, 0)
    requires m <= c.followers && (m > 0 ==> c.w > 1)
    ensures steps <= more && AckedTo(At(c, steps, |steps|), At(c, more, |more|), w, m)
  {
    hide Apply, AckedTo;
    if m == 0 {
      more := steps;
    } else {
      var before := FollowersAck(c, steps, w, m - 1);
      var sent, acked := Replicate(w, m), AckArrives(w, m, true);
      OneMoreAck(c, At(c, steps, |steps|), At(c, before, |before|), w, m - 1);
      OneMore(c, before, sent);
      OneMore(c, before + [sent], acked);
      more := before + [sent] + [acked];
    }
  }

  lemma AllOk(acks: seq<Ack>)
    requires forall a :: a in acks ==> a.ok
    ensures Oks(acks) == seq(|acks|, _ => true)
  {
    forall x | 0 <= x < |acks|
      ensures Oks(acks)[x]
    {
      assert acks[x] in acks;
    }
  }

  lemma EnoughAcksRespond(c: Config, s: Cluster, t: Cluster, w: nat)
    requires Shape(c, t) && Quorum(c) <= c.followers + 1 && AckedTo(s, t, w, Quorum(c) - 1)
    ensures var u := Apply(c, t, RespondSet(w, Quorum(c) - 1));
            u.log == s.log && u.gets == s.gets && u.tracked == s.tracked && IsCreated(u, w)
  {
    var needed := Quorum(c) - 1;
    AllOk(t.progress[w].acks);
    assert Oks(t.progress[w].acks)[..needed] == Oks(t.progress[w].acks);
    if needed > 0 {
      ExactAcksConsumed(needed, c.followers);
    }
  }

  lemma WriteBegins(c: Config, s: Cluster)
    requires Shape(c, s)
    ensures var t := Apply(c, s, ClientSet("k", "b"));
            && AckedTo(t, t, |s.log|, 0)
            && t.log == s.log + [Put("k", "b", NextVersion(s.stores[0], "k"))]
            && t.gets == s.gets && t.tracked == s.tracked
  {
  }

  /** Any schedule can go on with a write that is answered 201 and recorded, whatever reads are under way. */
  lemma WriteRecorded(c: Config, steps: seq<Step>) returns (more: seq<Step>)
    requires Quorum(c) <= c.followers + 1
    ensures steps <= more && |steps| < |more|
    ensures LogsAt(c, more, |steps|, |At(c, steps, |steps|).log|)
    ensures RecordedBy(c, more, |more|, |At(c, steps, |steps|).log|)
    ensures At(c, more, |more|).gets == At(c, steps, |steps|).gets
    ensures At(c, more, |more|).log == At(c, steps, |steps|).log
                                       + [Put("k", "b", NextVersion(At(c, steps, |steps|).stores[0], "k"))]
  {
    hide Apply, At, AckedTo;
    var set1 := steps + [ClientSet("k", "b")];
    var w := |At(c, steps, |steps|).log|;
    WriteBegins(c, At(c, steps, |steps|));
    OneMore(c, steps, ClientSet("k", "b"));
    LongerSchedule(c, steps, set1, |steps|);
    assert LogsAt(c, set1, |steps|, w);
    var acked := FollowersAck(c, set1, w, Quorum(c) - 1);
    EnoughAcksRespond(c, At(c, set1, |set1|), At(c, acked, |acked|), w);
    OneMore(c, acked, RespondSet(w, Quorum(c) - 1));
    var responded := acked + [RespondSet(w, Quorum(c) - 1)];
    more := responded + [RecordWrite(w)];
    Recording(c, responded, w);
    LogCarries(c, set1, more, |steps|, w);
  }

  lemma Recording(c: Config, steps: seq<Step>, w: nat)
    requires IsCreated(At(c, steps, |steps|), w)
    ensures var more := steps + [RecordWrite(w)];
            && RecordedBy(c, more, |more|, w)
            && At(c, more, |more|).log == At(c, steps, |steps|).log
            && At(c, more, |more|).gets == At(c, steps, |steps|).gets
  {
    var more := steps + [RecordWrite(w)];
    OneMore(c, steps, RecordWrite(w));
    LongerSchedule(c, steps, more, |steps|);
    assert more[|steps|] == RecordWrite(w);
  }

  // ---- A read that is answered from the leader's own entry ---------------------------------------

  /** The replies of followers 1 to `m` to read `g` were lost; nothing else happened. */
  ghost predicate LostTo(s: Cluster, t: Cluster, g: nat, m: nat) {
    && g < |s.gets| == |t.gets|
    && t == s.(gets := s.gets[g := t.gets[g]])
    && t.gets[g] == s.gets[g].(arrivals := t.gets[g].arrivals)
    && |t.gets[g].arrivals| == m
    && forall a :: a in t.gets[g].arrivals ==> a.reply == None && a.node <= m
  }

  lemma OneMoreLost(c: Config, s: Cluster, t: Cluster, g: nat, m: nat)
    requires Shape(c, t) && LostTo(s, t, g, m) && m < c.followers && c.r > 1 && s.gets[g].node == 0
    ensures LostTo(s, Apply(c, t, ReplyArrives(g, m + 1, true)), g, m + 1)
  {
  }

  lemma {:induction false} RepliesLost(c: Config, steps: seq<Step>, g: nat, m: nat) returns (more: seq<Step>)
    requires g < |At(c, steps, |steps|).gets| && At(c, steps, |steps|).gets[g].node == 0
    requires LostTo(At(c, steps, |steps|), At(c, steps, |steps|), g, 0)
    requires m <= c.followers && (m > 0 ==> c.r > 1)
    ensures steps <= more && |more| == |steps| + m && LostTo(At(c, steps, |steps|), At(c, more, |more|), g, m)
  {
    hide Apply, LostTo;
    if m == 0 {
      more := steps;
    } else {
      var before := RepliesLost(c, steps, g, m - 1);
      OneMoreLost(c, At(c, steps, |steps|), At(c, before, |before|), g, m - 1);
      OneMore(c, before, ReplyArrives(g, m, true));
      more := before + [ReplyArrives(g, m, true)];
    }
  }

  lemma {:induction false} NothingArrived(local: Option<Entry>, replies: seq<Option<Entry>>)
    requires forall x :: 0 <= x < |replies| ==> replies[x] == None
    ensures ReadMerge.Merged(local, replies) == local && ReadMerge.Found(replies) == 0
  {
    if replies == [] {
    } else {
      NothingArrived(local, replies[..|replies| - 1]);
    }
  }

  lemma AllLostRespond(c: Config, s: Cluster, t: Cluster, g: nat)
    requires Shape(c, t) && LostTo(s, t, g, if c.r > 1 then c.followers else 0)
    requires s.gets[g].node == 0 && s.gets[g].outcome.Pending?
    ensures var u := Apply(c, t, RespondGet(g, |t.gets[g].arrivals|));
            && u == t.(gets := u.gets) && |u.gets| == |s.gets|
            && u.gets[g] == t.gets[g].(outcome := Answered(s.gets[g].local))
  {
    var replies := Replies(t.gets[g].arrivals);
    forall x | 0 <= x < |replies|
      ensures replies[x] == None
    {
      assert t.gets[g].arrivals[x] in t.gets[g].arrivals;
    }
    assert replies[..|replies|] == replies;
    NothingArrived(t.gets[g].local, replies);
    forall j | 0 <= j < |replies|
      ensures c.r > 1 ==> !ReadMerge.Leaves(replies[..j], c.r - 1, c.followers)
    {
      NothingArrived(t.gets[g].local, replies[..j]);
    }
  }

  /** A leader read that is under way and has had no reply yet. */
  ghost predicate Waits(s: Cluster, g: nat, e: Entry) {
    && g < |s.gets| && s.gets[g] == Read(0, "k", Some(e), map[], [], Pending, None)
  }

  /** The same read, answered with the entry the leader held when it began. */
  ghost predicate AnsweredWith(s: Cluster, g: nat, e: Entry) {
    && g < |s.gets| && s.gets[g].key == "k" && s.gets[g].node == 0
    && s.gets[g].outcome == Answered(Some(e)) && s.gets[g].stale == None
  }

  /** Any schedule can go on with the answer to a waiting leader read, every reply to it being lost. */
  lemma ReadAnswered(c: Config, steps: seq<Step>, g: nat, e: Entry) returns (more: seq<Step>)
    requires Waits(At(c, steps, |steps|), g, e)
    ensures steps <= more && |steps| < |more|
    ensures AnswersAt(c, more, |more| - 1, g)
    ensures AnsweredWith(At(c, more, |more|), g, e)
    ensures At(c, more, |more|).log == At(c, steps, |steps|).log
    ensures At(c, more, |more|).stores == At(c, steps, |steps|).stores
  {
    hide Apply, At;
    var s := At(c, steps, |steps|);
    var lost := RepliesLost(c, steps, g, if c.r > 1 then c.followers else 0);
    var t := At(c, lost, |lost|);
    AllLostRespond(c, s, t, g);
    var step := RespondGet(g, |t.gets[g].arrivals|);
    OneMore(c, lost, step);
    more := lost + [step];
    LongerSchedule(c, lost, more, |lost|);
  }

  // ---- The flagged reads -------------------------------------------------------------------------

  /** The leader holds version 1 and a read of it is under way. */
  lemma FirstRead(c: Config) returns (steps: seq<Step>)
    ensures |steps| == 2 && steps[1] == ClientGet(0, "k") && Begins(c, steps, 1, 0)
    ensures var s := At(c, steps, 2);
            && Waits(s, 0, Entry("a", 1)) && s.log == [Put("k", "a", 1)] && NextVersion(s.stores[0], "k") == 2
  {
    var one := [ClientSet("k", "a")];
    steps := one + [ClientGet(0, "k")];
    var nothing: seq<Step> := [];
    assert nothing + one == one && At(c, nothing, 0) == Init(c);
    OneMore(c, nothing, ClientSet("k", "a"));
    OneMore(c, one, ClientGet(0, "k"));
    LongerSchedule(c, one, steps, 1);
  }

  /** The check comes last. */
  lemma CheckFlags(c: Config, steps: seq<Step>, g: nat, p: nat)
    requires AnsweredWith(At(c, steps, |steps|), g, Entry("a", 1))
    requires RecordedBy(c, steps, |steps|, p)
    requires p < |At(c, steps, |steps|).log| && At(c, steps, |steps|).log[p] == Put("k", "b", 2)
    ensures var more := steps + [CheckRead(g)];
            && ChecksAt(c, more, |steps|, g) && NewerThanAnswer(c, more, |steps|, g, p)
            && At(c, more, |more|).gets[g].stale == Some(true)
  {
    var more := steps + [CheckRead(g)];
    hide RecordedBy;
    RecordedIsTracked(c, steps, |steps|, p);
    RecordCarries(c, steps, more, p);
    OneMore(c, steps, CheckRead(g));
    LongerSchedule(c, steps, more, |steps|);
  }

  /** The write is logged and recorded while the read is under way. */
  lemma OverlappingFlag(c: Config)
    requires Quorum(c) <= c.followers + 1
    ensures CanBeFlagged(c, true)
  {
    hide Apply, At, Quorum, Begins, AnswersAt, LogsAt, ChecksAt, RecordedBy, NewerThanAnswer;
    var begun := FirstRead(c);
    var written := WriteRecorded(c, begun);
    var answered := ReadAnswered(c, written, 0, Entry("a", 1));
    RecordCarries(c, written, answered, 1);
    CheckFlags(c, answered, 0, 1);
    var all := answered + [CheckRead(0)];
    BeginCarries(c, begun, all, 1, 0);
    LogCarries(c, written, all, 2, 1);
    AnswerCarries(c, answered, all, |answered| - 1, 0);
    assert Flagged(c, all, Flag(0, 1, |answered| - 1, |answered|, 1, 2));
  }

  /** The write is logged after the answer, and recorded before the check. */
  lemma LaterFlag(c: Config)
    requires Quorum(c) <= c.followers + 1
    ensures CanBeFlagged(c, false)
  {
    hide Apply, At, Quorum, Begins, AnswersAt, LogsAt, ChecksAt, RecordedBy, NewerThanAnswer;
    var begun := FirstRead(c);
    var answered := ReadAnswered(c, begun, 0, Entry("a", 1));
    var written := WriteRecorded(c, answered);
    CheckFlags(c, written, 0, 1);
    var all := written + [CheckRead(0)];
    BeginCarries(c, begun, all, 1, 0);
    LogCarries(c, written, all, |answered|, 1);
    AnswerCarries(c, answered, all, |answered| - 1, 0);
    assert Flagged(c, all, Flag(0, 1, |answered| - 1, |written|, 1, |answered|));
  }

  /** The detector can flag reads of a leader that never served old data: for every R, and whether SetLocal of the
      newer write is to run before the answer or after it, some schedule has such a flag if and only if the cluster
      has the W replicas that a 201 needs. */
  lemma FreshReadsCanBeFlagged(c: Config, beforeAnswer: bool)
    ensures CanBeFlagged(c, beforeAnswer) <==> Quorum(c) <= c.followers + 1
  {
    hide Flagged, Quorum;
    if CanBeFlagged(c, beforeAnswer) {
      var steps: seq<Step>, f: Flag :| Flagged(c, steps, f) && (f.logged < f.answered <==> beforeAnswer);
      FlagIsRecorded(c, steps, f);
      RecordedNeedsQuorum(c, steps, f.checked, f.put);
    }
    if Quorum(c) <= c.followers + 1 {
      if beforeAnswer {
        OverlappingFlag(c);
      } else {
        LaterFlag(c);
      }
    }
  }

  lemma FlagIsRecorded(c: Config, steps: seq<Step>, f: Flag)
    requires Flagged(c, steps, f)
    ensures RecordedBy(c, steps, f.checked, f.put)
  {
    hide At, Begins, AnswersAt, ChecksAt, LogsAt, RecordedBy;
  }
}
