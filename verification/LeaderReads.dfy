/** The R quorum of a leader read: whose replies it takes, when they were given, and what the answer owes them. */
module LeaderReads {
  import opened Basics
  import opened Options
  import opened Replica
  import opened WriteLog
  import opened LeaderProtocol
  import opened LeaderInvariant
  import opened LeaderTheorems
  import opened LeaderQuorum
  import ReadMerge

  // ---- What every step keeps of a read -----------------------------------------------------------

  /** The loop left after `k` replies and answered with their merge. */
  ghost predicate AnsweredAfter(c: Config, get: Read, k: nat) {
    && get.outcome.Answered?
    && ReadMerge.Consumes(Replies(get.arrivals), k, c.r - 1, c.followers)
    && get.outcome.entry == ReadMerge.Merged(get.local, Replies(get.arrivals)[..k])
  }

  /** Each follower replies once. */
  ghost predicate OneArrivalEach(arrivals: seq<Arrival>) {
    forall a, b :: 0 <= a < b < |arrivals| ==> arrivals[a].node != arrivals[b].node
  }

  /** Each follower replies once, an entry it sends is what it served, and the leader's answer is that of its loop. */
  ghost predicate ReadInv(c: Config, get: Read) {
    && (forall a :: 0 <= a < |get.arrivals| ==>
          && IsFollower(c, get.arrivals[a].node)
          && (get.arrivals[a].reply.Some? ==> get.arrivals[a].node in get.served
                                              && get.served[get.arrivals[a].node] == get.arrivals[a].reply))
    && OneArrivalEach(get.arrivals)
    && (get.node == 0 && get.outcome.Answered? ==>
          if c.r <= 1 then get.outcome.entry == get.local else exists k: nat :: AnsweredAfter(c, get, k))
  }

  ghost predicate ReadsInv(c: Config, gets: seq<Read>) {
    forall g :: 0 <= g < |gets| ==> ReadInv(c, gets[g])
  }

  lemma ReplyKeepsAnswer(c: Config, get: Read, a: Arrival, k: nat)
    requires AnsweredAfter(c, get, k)
    ensures AnsweredAfter(c, get.(arrivals := get.arrivals + [a]), k)
  {
    var more := get.arrivals + [a];
    assert forall j :: 0 <= j <= k ==> Replies(more)[..j] == Replies(get.arrivals)[..j];
  }

  lemma ReplyKeepsRead(c: Config, get: Read, a: Arrival)
    requires ReadInv(c, get) && IsFollower(c, a.node)
    requires forall b :: b in get.arrivals ==> b.node != a.node
    requires a.reply.Some? ==> a.node in get.served && get.served[a.node] == a.reply
    ensures ReadInv(c, get.(arrivals := get.arrivals + [a]))
  {
    forall x | 0 <= x < |get.arrivals|
      ensures get.arrivals[x].node != a.node
    {
      assert get.arrivals[x] in get.arrivals;
    }
    if get.node == 0 && get.outcome.Answered? && c.r > 1 {
      var k: nat :| AnsweredAfter(c, get, k);
      ReplyKeepsAnswer(c, get, a, k);
    }
  }

  lemma ReadsStep(c: Config, s: Cluster, step: Step)
    requires Shape(c, s) && ReadsInv(c, s.gets)
    ensures ReadsInv(c, Apply(c, s, step).gets)
  {
    var t := Apply(c, s, step);
    if Enabled(c, s, step) && step.ReplyArrives? {
      var get := s.gets[step.get];
      ReplyKeepsRead(c, get, Arrival(step.node, if step.lost then None else get.served[step.node]));
    } else if Enabled(c, s, step) && step.RespondGet? {
      assert c.r > 1 ==> AnsweredAfter(c, t.gets[step.get], step.consumed);
    } else if Enabled(c, s, step) && (step.ServeInternal? || step.CheckRead?) {
      UnchangedAnswer(c, s.gets[step.get], t.gets[step.get]);
    }
  }

  lemma UnchangedAnswer(c: Config, g: Read, h: Read)
    requires ReadInv(c, g)
    requires h.node == g.node && h.arrivals == g.arrivals && h.outcome == g.outcome && h.local == g.local
    requires forall n :: n in g.served ==> n in h.served && h.served[n] == g.served[n]
    ensures ReadInv(c, h)
  {
    if g.node == 0 && g.outcome.Answered? && c.r > 1 {
      var k: nat :| AnsweredAfter(c, g, k);
      assert AnsweredAfter(c, h, k);
    }
  }

  lemma {:induction false} ReadsAlways(c: Config, steps: seq<Step>, i: nat)
    requires i <= |steps|
    ensures ReadsInv(c, At(c, steps, i).gets)
  {
    hide Apply;
    if i == 0 {
    } else {
      ReadsAlways(c, steps, i - 1);
      ReadsStep(c, At(c, steps, i - 1), steps[i - 1]);
    }
  }

  // ---- The quorum --------------------------------------------------------------------------------

  /** The followers whose entries are among the first `k` replies. */
  ghost function Repliers(arrivals: seq<Arrival>, k: nat): set<nat>
    requires k <= |arrivals|
  {
    set x: nat | x < k && arrivals[x].reply.Some? :: arrivals[x].node
  }

  /** The followers that the first `k` replies came from, with an entry or without. */
  ghost function Heard(arrivals: seq<Arrival>, k: nat): set<nat>
    requires k <= |arrivals|
  {
    set x: nat | x < k :: arrivals[x].node
  }

  lemma OneMoreHeard(arrivals: seq<Arrival>, k: nat)
    requires 0 < k <= |arrivals| && OneArrivalEach(arrivals)
    ensures |Heard(arrivals, k)| == |Heard(arrivals, k - 1)| + 1
  {
    assert Heard(arrivals, k) == Heard(arrivals, k - 1) + {arrivals[k - 1].node};
    assert arrivals[k - 1].node !in Heard(arrivals, k - 1);
  }

  lemma OneMoreReplier(arrivals: seq<Arrival>, k: nat)
    requires 0 < k <= |arrivals| && OneArrivalEach(arrivals)
    ensures |Repliers(arrivals, k)| == |Repliers(arrivals, k - 1)| + (if arrivals[k - 1].reply.Some? then 1 else 0)
  {
    var last := arrivals[k - 1];
    assert last.node !in Repliers(arrivals, k - 1);
    assert Repliers(arrivals, k)
        == Repliers(arrivals, k - 1) + (if last.reply.Some? then {last.node} else {});
  }

  lemma OneMorePositive(replies: seq<Option<Entry>>, k: nat)
    requires 0 < k <= |replies|
    ensures |ReadMerge.Positives(replies, k)|
         == |ReadMerge.Positives(replies, k - 1)| + (if replies[k - 1].Some? then 1 else 0)
  {
    assert ReadMerge.Positives(replies, k)
        == ReadMerge.Positives(replies, k - 1) + (if replies[k - 1].Some? then {k - 1} else {});
  }

  lemma {:induction false} QuorumCounted(c: Config, get: Read, k: nat)
    requires ReadInv(c, get) && k <= |get.arrivals|
    ensures |Repliers(get.arrivals, k)| == |ReadMerge.Positives(Replies(get.arrivals), k)|
    ensures |Heard(get.arrivals, k)| == k
  {
    if k == 0 {
      assert Repliers(get.arrivals, 0) == {} && Heard(get.arrivals, 0) == {};
      assert ReadMerge.Positives(Replies(get.arrivals), 0) == {};
    } else {
      QuorumCounted(c, get, k - 1);
      OneMoreHeard(get.arrivals, k);
      OneMoreReplier(get.arrivals, k);
      OneMorePositive(Replies(get.arrivals), k);
    }
  }

  /** What the answer of a leader read owes the first `k` replies. They are the quorum: entries of exactly R - 1
      followers, or everything all followers sent, and no fewer replies were. The answer is the leader's own entry
      or one of theirs, and none is newer. */
  ghost predicate TookQuorum(c: Config, get: Read, k: nat) {
    && k <= |get.arrivals| && get.outcome.Answered?
    && (|Repliers(get.arrivals, k)| == c.r - 1 || Heard(get.arrivals, k) == Below(c.followers + 1) - {0})
    && (forall j :: 0 <= j < k ==> |Repliers(get.arrivals, j)| < c.r - 1)
    && (forall n :: n in Repliers(get.arrivals, k) ==>
          && IsFollower(c, n) && n in get.served && get.served[n].Some? && get.outcome.entry.Some?
          && get.outcome.entry.value.version >= get.served[n].value.version)
    && (get.local.Some? ==>
          get.outcome.entry.Some? && get.outcome.entry.value.version >= get.local.value.version)
    && (get.outcome.entry != get.local ==>
          exists n :: n in Repliers(get.arrivals, k) && get.served[n] == get.outcome.entry)
  }

  lemma AllHeard(c: Config, get: Read, k: nat)
    requires ReadInv(c, get) && k <= |get.arrivals| && k == c.followers
    ensures Heard(get.arrivals, k) == Below(c.followers + 1) - {0}
  {
    QuorumCounted(c, get, k);
    var heard, followers := Heard(get.arrivals, k), Below(c.followers + 1) - {0};
    assert heard <= followers;
    assert followers == heard + (followers - heard);
  }

  lemma RepliesPositive(log: seq<Put>, get: Read)
    requires AllNumbered(log) && GetInv(log, get)
    ensures get.local.Some? ==> get.local.value.version > 0
    ensures forall x :: 0 <= x < |get.arrivals| && get.arrivals[x].reply.Some? ==>
              get.arrivals[x].reply.value.version > 0
  {
    if get.local.Some? {
      KnownVersions(log, get.key, get.local.value);
    }
    forall x | 0 <= x < |get.arrivals| && get.arrivals[x].reply.Some?
      ensures get.arrivals[x].reply.value.version > 0
    {
      KnownVersions(log, get.key, get.arrivals[x].reply.value);
    }
  }

  /** Every entry taken is what its follower served, and every follower counted has one. */
  lemma TakenWasServed(c: Config, get: Read, k: nat)
    requires ReadInv(c, get) && k <= |get.arrivals|
    ensures forall n :: n in Repliers(get.arrivals, k) ==>
              IsFollower(c, n) && n in get.served && get.served[n].Some? && get.served[n] in Replies(get.arrivals)[..k]
    ensures forall r :: r in Replies(get.arrivals)[..k] && r.Some? ==>
              exists n :: n in Repliers(get.arrivals, k) && get.served[n] == r
  {
    var replies := Replies(get.arrivals)[..k];
    forall n | n in Repliers(get.arrivals, k)
      ensures IsFollower(c, n) && n in get.served && get.served[n].Some? && get.served[n] in replies
    {
      var x :| 0 <= x < k && get.arrivals[x].reply.Some? && get.arrivals[x].node == n;
      assert replies[x] == get.arrivals[x].reply == get.served[n];
    }
    forall r | r in replies && r.Some?
      ensures exists n :: n in Repliers(get.arrivals, k) && get.served[n] == r
    {
      var x :| 0 <= x < k && replies[x] == r;
      assert get.arrivals[x].reply == r;
      assert get.arrivals[x].node in Repliers(get.arrivals, k);
    }
  }

  lemma MergeOwes(c: Config, log: seq<Put>, get: Read, k: nat)
    requires AllNumbered(log) && GetInv(log, get) && ReadInv(c, get) && AnsweredAfter(c, get, k)
    ensures forall n :: n in Repliers(get.arrivals, k) ==>
              && IsFollower(c, n) && n in get.served && get.served[n].Some? && get.outcome.entry.Some?
              && get.outcome.entry.value.version >= get.served[n].value.version
    ensures get.local.Some? ==>
              get.outcome.entry.Some? && get.outcome.entry.value.version >= get.local.value.version
    ensures get.outcome.entry != get.local ==>
              exists n :: n in Repliers(get.arrivals, k) && get.served[n] == get.outcome.entry
  {
    hide Repliers, ReadMerge.Merged;
    RepliesPositive(log, get);
    var replies := Replies(get.arrivals)[..k];
    forall r | r in replies && r.Some?
      ensures r.value.version > 0
    {
      var x :| 0 <= x < k && replies[x] == r;
      assert get.arrivals[x].reply == r;
    }
    ReadMerge.MergedIsNewest(get.local, replies);
    TakenWasServed(c, get, k);
  }

  /** A leader read with R above 1 answers from a quorum of replies. */
  lemma LeaderReadTakesQuorum(c: Config, steps: seq<Step>, j: nat, g: nat) returns (k: nat)
    requires AnsweredBy(c, steps, j, g) && At(c, steps, j).gets[g].node == 0 && c.r > 1
    ensures TookQuorum(c, At(c, steps, j).gets[g], k)
  {
    hide At, Apply, ReadMerge.Consumes, ReadMerge.Merged;
    ReadsAlways(c, steps, j);
    InvAlways(c, steps, j);
    var s := At(c, steps, j);
    var get := s.gets[g];
    assert ReadInv(c, get) && GetInv(s.log, get);
    k :| AnsweredAfter(c, get, k);
    QuorumOfPrefix(c, get, k);
    MergeOwes(c, s.log, get, k);
  }

  lemma QuorumOfPrefix(c: Config, get: Read, k: nat)
    requires ReadInv(c, get) && AnsweredAfter(c, get, k) && c.r > 1
    ensures k <= |get.arrivals|
    ensures |Repliers(get.arrivals, k)| == c.r - 1 || Heard(get.arrivals, k) == Below(c.followers + 1) - {0}
    ensures forall j :: 0 <= j < k ==> |Repliers(get.arrivals, j)| < c.r - 1
  {
    var replies := Replies(get.arrivals);
    NoMoreThanFollowers(c, get);
    ReadMerge.ConsumesTakesQuorum(replies, k, c.r - 1, c.followers);
    forall j | 0 <= j <= k
      ensures |Repliers(get.arrivals, j)| == |ReadMerge.Positives(replies, j)|
    {
      QuorumCounted(c, get, j);
    }
    if k == c.followers {
      AllHeard(c, get, k);
    }
  }

  lemma NoMoreThanFollowers(c: Config, get: Read)
    requires ReadInv(c, get)
    ensures |get.arrivals| <= c.followers
  {
    QuorumCounted(c, get, |get.arrivals|);
    SubsetSize(Heard(get.arrivals, |get.arrivals|), Below(c.followers + 1) - {0});
  }

  // ---- When the replies were given ---------------------------------------------------------------

  ghost predicate ServedBy(c: Config, steps: seq<Step>, i: nat, g: nat, n: nat) {
    i <= |steps| && g < |At(c, steps, i).gets| && n in At(c, steps, i).gets[g].served
  }

  lemma ServesStore(c: Config, s: Cluster, step: Step, g: nat, n: nat)
    requires Shape(c, s) && g < |s.gets| && n !in s.gets[g].served && n in Apply(c, s, step).gets[g].served
    ensures IsFollower(c, n) && Apply(c, s, step).gets[g].served[n] == Lookup(s.stores[n], s.gets[g].key)
  {
  }

  lemma ServedStays(c: Config, steps: seq<Step>, i: nat, j: nat, g: nat, n: nat)
    requires ServedBy(c, steps, i, g, n) && i <= j <= |steps|
    ensures ServedBy(c, steps, j, g, n)
    ensures At(c, steps, j).gets[g].served[n] == At(c, steps, i).gets[g].served[n]
  {
    hide Apply;
    NothingIsTakenBack(c, steps, i, j);
    assert GetGrows(At(c, steps, i).gets[g], At(c, steps, j).gets[g]);
  }

  lemma NotServedAtStart(c: Config, steps: seq<Step>, i: nat, g: nat, n: nat)
    requires Begins(c, steps, i, g)
    ensures !ServedBy(c, steps, i + 1, g, n)
  {
  }

  lemma ServedInOneStep(c: Config, steps: seq<Step>, b: nat, m: nat, g: nat, n: nat)
    requires Begins(c, steps, b, g) && b < m < |steps|
    requires !ServedBy(c, steps, m, g, n) && ServedBy(c, steps, m + 1, g, n)
    ensures IsFollower(c, n)
    ensures At(c, steps, m + 1).gets[g].served[n] == Lookup(At(c, steps, m).stores[n], steps[b].key)
  {
    SameReadLater(c, steps, b, m, g);
    ServesStore(c, At(c, steps, m), steps[m], g, n);
  }

  /** What a follower served to a leader read is its store at one moment of the read, and after any moment at which it
      had not served it yet. */
  lemma ServedAtMoment(c: Config, steps: seq<Step>, b: nat, j: nat, g: nat, n: nat, i: nat) returns (m: nat)
    requires Begins(c, steps, b, g) && ServedBy(c, steps, j, g, n)
    requires i <= j && !ServedBy(c, steps, i, g, n)
    ensures b < m < j && i <= m && n <= c.followers
    ensures At(c, steps, j).gets[g].served[n] == Lookup(At(c, steps, m).stores[n], steps[b].key)
  {
    hide At, Apply, Begins;
    NotServedAtStart(c, steps, b, g, n);
    if j <= b + 1 {
      assert b + 1 <= |steps| by {
        BeginsInside(c, steps, b, g);
      }
      ServedStays(c, steps, j, b + 1, g, n);
    }
    var from := if i <= b then b + 1 else i;
    m := StepThatEstablishes((k: nat) => ServedBy(c, steps, k, g, n), from, j);
    ServedInOneStep(c, steps, b, m, g, n);
    ServedStays(c, steps, m + 1, j, g, n);
  }

  lemma BeginsInside(c: Config, steps: seq<Step>, b: nat, g: nat)
    requires Begins(c, steps, b, g)
    ensures b < |steps|
  {
  }

  /** Quorum intersection for an actual read: if `group` are followers whose entries the answer took, none of them
      served the read before a write got its 201, and together with the W replicas of the 201 they outnumber the
      cluster, then the answer is that write or something newer. */
  lemma ReadUnderWaySeesWrite(c: Config, steps: seq<Step>, i: nat, w: nat, b: nat, j: nat, g: nat, k: nat,
    group: set<nat>)
    requires CreatedBy(c, steps, i, w) && Begins(c, steps, b, g) && steps[b].key == At(c, steps, i).log[w].key
    requires i <= j && AnsweredBy(c, steps, j, g) && TookQuorum(c, At(c, steps, j).gets[g], k)
    requires group <= Repliers(At(c, steps, j).gets[g].arrivals, k)
    requires forall n :: n in group ==> !ServedBy(c, steps, i, g, n)
    requires Quorum(c) + |group| > c.followers + 1
    ensures At(c, steps, j).gets[g].outcome.entry.Some?
    ensures At(c, steps, j).gets[g].outcome.entry.value.version >= At(c, steps, i).log[w].version
  {
    hide At, Apply, Begins;
    var get := At(c, steps, j).gets[g];
    var put := At(c, steps, i).log[w];
    var holders := Holders(At(c, steps, i).stores, put.key, put.version);
    QuorumIsDurable(c, steps, i, i, w);
    GroupsMeet(c.followers + 1, holders, group);
    var n :| n in holders && n in group;
    var m := ServedAtMoment(c, steps, b, j, g, n, i);
    QuorumIsDurable(c, steps, i, m, w);
    VersionsPositive(c, steps, i, w);
    assert n in Holders(At(c, steps, m).stores, put.key, put.version);
  }

  /** In particular with W + R > N + 1: a read that met its quorum R sees every write that got its 201 before any
      follower had served the read, even if the read had begun before the write. */
  lemma QuorumOfReadSeesWrite(c: Config, steps: seq<Step>, i: nat, w: nat, b: nat, j: nat, g: nat, k: nat)
    requires CreatedBy(c, steps, i, w) && Begins(c, steps, b, g) && steps[b].key == At(c, steps, i).log[w].key
    requires i <= j && AnsweredBy(c, steps, j, g) && TookQuorum(c, At(c, steps, j).gets[g], k)
    requires |Repliers(At(c, steps, j).gets[g].arrivals, k)| == c.r - 1
    requires forall n :: !ServedBy(c, steps, i, g, n)
    requires Quorum(c) + c.r > c.followers + 2
    ensures At(c, steps, j).gets[g].outcome.entry.Some?
    ensures At(c, steps, j).gets[g].outcome.entry.value.version >= At(c, steps, i).log[w].version
  {
    hide At, Apply, Begins, ServedBy;
    ReadUnderWaySeesWrite(c, steps, i, w, b, j, g, k, Repliers(At(c, steps, j).gets[g].arrivals, k));
  }
}
