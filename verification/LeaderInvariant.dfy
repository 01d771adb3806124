/** What every step of the leader protocol keeps. */
module LeaderInvariant {
  import opened Options
  import opened Channel
  import opened Replica
  import opened WriteLog
  import opened LeaderProtocol
  import AckLoop
  import ReadMerge
  import Tracker

  /** The leader holds, for every key, exactly its newest write. */
  ghost predicate LeaderNewest(log: seq<Put>, leader: Store) {
    forall key :: Ver(leader, key) == Count(log, key) && (key in leader <==> Count(log, key) > 0)
  }

  ghost predicate StoresInv(log: seq<Put>, stores: seq<Store>) {
    && |stores| > 0
    && LeaderNewest(log, stores[0])
    && forall n :: 0 <= n < |stores| ==> StoreKnown(log, stores[n])
  }

  ghost predicate AppliedInv(c: Config, stores: seq<Store>, put: Put, p: Progress) {
    && |stores| == c.followers + 1
    && forall n :: n in p.applied ==> IsFollower(c, n) && Ver(stores[n], put.key) >= put.version
  }

  ghost predicate ChannelInv(c: Config, p: Progress) {
    && (forall a :: 0 <= a < |p.acks| ==>
          IsFollower(c, p.acks[a].node) && (p.acks[a].ok ==> p.acks[a].node in p.applied))
    && OneReplyEach(p.acks)
    && (c.w <= 1 ==> p.applied == {} && p.acks == [])
    && (p.status.Responded? ==> Verdict(c, p))
  }

  /** How the leader came to its response. */
  ghost predicate Verdict(c: Config, p: Progress)
    requires p.status.Responded?
  {
    if c.w <= 1 then p.status.created
    else
      && AckLoop.Consumes(Oks(p.acks), p.status.consumed, c.w - 1, c.followers)
      && (p.status.created <==> AckLoop.Acks(Oks(p.acks)[..p.status.consumed]) >= c.w - 1)
  }

  ghost predicate WritesInv(c: Config, stores: seq<Store>, log: seq<Put>, progress: seq<Progress>) {
    && |progress| == |log|
    && forall i :: 0 <= i < |log| ==>
         AppliedInv(c, stores, log[i], progress[i]) && ChannelInv(c, progress[i])
  }

  ghost predicate ReplyKnown(log: seq<Put>, key: string, reply: Option<Entry>) {
    reply.Some? ==> FromLog(log, key, reply.value)
  }

  ghost predicate GetInv(log: seq<Put>, get: Read) {
    && ReplyKnown(log, get.key, get.local)
    && (forall n :: n in get.served ==> ReplyKnown(log, get.key, get.served[n]))
    && (forall a :: 0 <= a < |get.arrivals| ==> ReplyKnown(log, get.key, get.arrivals[a].reply))
    && (get.outcome.Answered? ==> ReplyKnown(log, get.key, get.outcome.entry))
    && (get.node == 0 && get.outcome.Answered? && get.local.Some? ==>
          get.outcome.entry.Some? && get.outcome.entry.value.version >= get.local.value.version)
  }

  ghost predicate GetsInv(log: seq<Put>, gets: seq<Read>) {
    forall g :: 0 <= g < |gets| ==> GetInv(log, gets[g])
  }

  ghost predicate TrackedInv(log: seq<Put>, tracked: Tracker.Versions) {
    forall key :: key in tracked ==> 0 < tracked[key] <= Count(log, key)
  }

  ghost predicate Inv(c: Config, s: Cluster) {
    && Shape(c, s)
    && AllNumbered(s.log)
    && StoresInv(s.log, s.stores)
    && WritesInv(c, s.stores, s.log, s.progress)
    && GetsInv(s.log, s.gets)
    && TrackedInv(s.log, s.tracked)
  }

  // ---- Preservation ------------------------------------------------------------------------------

  lemma InvInit(c: Config)
    ensures Inv(c, Init(c))
  {
  }

  /** A new write keeps the log numbered and the leader at its head. */
  lemma AppendKeepsLog(log: seq<Put>, stores: seq<Store>, key: string, value: string)
    requires AllNumbered(log) && StoresInv(log, stores)
    ensures AllNumbered(log + [Put(key, value, NextVersion(stores[0], key))])
    ensures StoresInv(log + [Put(key, value, NextVersion(stores[0], key))],
                      stores[0 := stores[0][key := Entry(value, NextVersion(stores[0], key))]])
  {
    var version := NextVersion(stores[0], key);
    var more := log + [Put(key, value, version)];
    assert more[..|log|] == log;
    forall i | 0 <= i < |more|
      ensures NumberedAt(more, i)
    {
      if i < |log| {
        assert NumberedAt(log, i);
        assert more[..i] == log[..i];
      }
    }
    EntriesStayKnown(log, more);
    assert more[|log|] == Put(key, value, version);
    forall n | 0 <= n < |stores|
      ensures StoreKnown(more, stores[n])
    {
      assert StoreKnown(log, stores[n]);
    }
    assert FromLog(more, key, Entry(value, version));
  }

  lemma AppendKeepsGets(log: seq<Put>, put: Put, gets: seq<Read>)
    requires GetsInv(log, gets)
    ensures GetsInv(log + [put], gets)
  {
    EntriesStayKnown(log, log + [put]);
    forall g | 0 <= g < |gets|
      ensures GetInv(log + [put], gets[g])
    {
      assert GetInv(log, gets[g]);
    }
  }

  lemma AppendKeepsTracked(log: seq<Put>, put: Put, tracked: Tracker.Versions)
    requires TrackedInv(log, tracked)
    ensures TrackedInv(log + [put], tracked)
  {
    assert (log + [put])[..|log|] == log;
  }

  lemma AppendKeepsWrites(c: Config, stores: seq<Store>, log: seq<Put>, progress: seq<Progress>,
    leader: Store, put: Put)
    requires WritesInv(c, stores, log, progress) && |stores| == c.followers + 1
    ensures WritesInv(c, stores[0 := leader], log + [put], progress + [Progress({}, [], Waiting)])
  {
    var after := stores[0 := leader];
    var more, ps := log + [put], progress + [Progress({}, [], Waiting)];
    forall i | 0 <= i < |more|
      ensures AppliedInv(c, after, more[i], ps[i]) && ChannelInv(c, ps[i])
    {
      if i < |log| {
        assert AppliedInv(c, stores, log[i], progress[i]) && ChannelInv(c, progress[i]);
      }
    }
  }

  lemma InvClientSet(c: Config, s: Cluster, key: string, value: string)
    requires Inv(c, s)
    ensures Inv(c, Apply(c, s, ClientSet(key, value)))
  {
    hide AllNumbered, StoresInv, WritesInv, GetsInv, TrackedInv;
    var version := NextVersion(s.stores[0], key);
    var put := Put(key, value, version);
    AppendKeepsLog(s.log, s.stores, key, value);
    AppendKeepsGets(s.log, put, s.gets);
    AppendKeepsTracked(s.log, put, s.tracked);
    AppendKeepsWrites(c, s.stores, s.log, s.progress, s.stores[0][key := Entry(value, version)], put);
  }

  lemma ApplyKeepsStores(log: seq<Put>, stores: seq<Store>, n: nat, key: string, e: Entry)
    requires StoresInv(log, stores) && 0 < n < |stores| && FromLog(log, key, e)
    ensures StoresInv(log, stores[n := Applied(stores[n], key, e)])
  {
    assert StoreKnown(log, stores[n]);
    assert StoreKnown(log, Applied(stores[n], key, e));
  }

  /** A store's version of any key never drops when a numbered entry is applied. */
  lemma ApplyKeepsApplied(c: Config, stores: seq<Store>, n: nat, key: string, e: Entry, put: Put, p: Progress)
    requires AppliedInv(c, stores, put, p) && n < |stores| && e.version >= 1
    ensures AppliedInv(c, stores[n := Applied(stores[n], key, e)], put, p)
  {
  }

  lemma InvReplicate(c: Config, s: Cluster, i: nat, n: nat)
    requires Inv(c, s)
    ensures Inv(c, Apply(c, s, Replicate(i, n)))
  {
    var step := Replicate(i, n);
    if Enabled(c, s, step) {
      var put := s.log[i];
      var e := Entry(put.value, put.version);
      assert FromLog(s.log, put.key, e);
      KnownVersions(s.log, put.key, e);
      ApplyKeepsStores(s.log, s.stores, n, put.key, e);
      DeliveryKeepsWrites(c, s.stores, s.log, s.progress, i, n);
    }
  }

  lemma DeliveryKeepsWrites(c: Config, stores: seq<Store>, log: seq<Put>, progress: seq<Progress>, i: nat, n: nat)
    requires WritesInv(c, stores, log, progress) && i < |log| && log[i].version >= 1
    requires IsFollower(c, n) && c.w > 1 && |stores| == c.followers + 1
    ensures var put, p := log[i], progress[i];
            WritesInv(c, stores[n := Applied(stores[n], put.key, Entry(put.value, put.version))],
                      log, progress[i := p.(applied := p.applied + {n})])
  {
    var put, p := log[i], progress[i];
    var e := Entry(put.value, put.version);
    var after, ps := stores[n := Applied(stores[n], put.key, e)], progress[i := p.(applied := p.applied + {n})];
    forall j | 0 <= j < |log|
      ensures AppliedInv(c, after, log[j], ps[j]) && ChannelInv(c, ps[j])
    {
      assert AppliedInv(c, stores, log[j], progress[j]) && ChannelInv(c, progress[j]);
      ApplyKeepsApplied(c, stores, n, put.key, e, log[j], progress[j]);
    }
  }

  lemma ChannelGrows(c: Config, p: Progress, n: nat, ok: bool)
    requires c.w > 1 && ChannelInv(c, p) && IsFollower(c, n) && (ok ==> n in p.applied)
    requires forall a :: a in p.acks ==> a.node != n
    ensures ChannelInv(c, p.(acks := p.acks + [Ack(n, ok)]))
  {
    var q := p.(acks := p.acks + [Ack(n, ok)]);
    if p.status.Responded? {
      assert forall j :: 0 <= j <= p.status.consumed ==> Oks(q.acks)[..j] == Oks(p.acks)[..j];
    }
    forall a | 0 <= a < |p.acks|
      ensures q.acks[a].node != n
    {
      assert p.acks[a] in p.acks;
    }
  }

  lemma UpdateKeepsWrites(c: Config, stores: seq<Store>, log: seq<Put>, progress: seq<Progress>, i: nat, q: Progress)
    requires WritesInv(c, stores, log, progress) && i < |log|
    requires AppliedInv(c, stores, log[i], q) && ChannelInv(c, q)
    ensures WritesInv(c, stores, log, progress[i := q])
  {
  }

  lemma InvAckArrives(c: Config, s: Cluster, i: nat, n: nat, ok: bool)
    requires Inv(c, s)
    ensures Inv(c, Apply(c, s, AckArrives(i, n, ok)))
  {
    if Enabled(c, s, AckArrives(i, n, ok)) {
      var p := s.progress[i];
      assert AppliedInv(c, s.stores, s.log[i], p) && ChannelInv(c, p);
      ChannelGrows(c, p, n, ok);
      UpdateKeepsWrites(c, s.stores, s.log, s.progress, i, p.(acks := p.acks + [Ack(n, ok)]));
    }
  }

  lemma InvRespondSet(c: Config, s: Cluster, i: nat, k: nat)
    requires Inv(c, s)
    ensures Inv(c, Apply(c, s, RespondSet(i, k)))
  {
    if Enabled(c, s, RespondSet(i, k)) {
      var p, q := s.progress[i], Apply(c, s, RespondSet(i, k)).progress[i];
      assert AppliedInv(c, s.stores, s.log[i], p) && ChannelInv(c, p);
      UpdateKeepsWrites(c, s.stores, s.log, s.progress, i, q);
    }
  }

  lemma InvRecordWrite(c: Config, s: Cluster, i: nat)
    requires Inv(c, s)
    ensures Inv(c, Apply(c, s, RecordWrite(i)))
  {
    if Enabled(c, s, RecordWrite(i)) {
      var put := s.log[i];
      assert FromLog(s.log, put.key, Entry(put.value, put.version));
      KnownVersions(s.log, put.key, Entry(put.value, put.version));
    }
  }

  /** A leader read answers with something from the log, not older than what the leader held at its start. */
  lemma MergeKnown(log: seq<Put>, get: Read, k: nat)
    requires AllNumbered(log) && GetInv(log, get) && k <= |get.arrivals|
    ensures ReplyKnown(log, get.key, ReadMerge.Merged(get.local, Replies(get.arrivals)[..k]))
    ensures get.local.Some? ==>
              ReadMerge.Merged(get.local, Replies(get.arrivals)[..k]).Some?
              && ReadMerge.Merged(get.local, Replies(get.arrivals)[..k]).value.version >= get.local.value.version
  {
    var replies := Replies(get.arrivals)[..k];
    if get.local.Some? {
      KnownVersions(log, get.key, get.local.value);
    }
    forall r | r in replies
      ensures ReplyKnown(log, get.key, r) && (r.Some? ==> r.value.version > 0)
    {
      var i :| 0 <= i < k && replies[i] == r;
      assert get.arrivals[i].reply == r;
      if r.Some? {
        KnownVersions(log, get.key, r.value);
      }
    }
    ReadMerge.MergedIsNewest(get.local, replies);
  }

  lemma InvReadSide(c: Config, s: Cluster, step: Step)
    requires Inv(c, s)
    requires step.ServeInternal? || step.ReplyArrives? || step.RespondGet?
          || step.ServeFollowerGet? || step.CheckRead?
    ensures Inv(c, Apply(c, s, step))
  {
    if Enabled(c, s, step) {
      var t := Apply(c, s, step);
      var get := s.gets[step.get];
      assert GetInv(s.log, get);
      if step.RespondGet? && c.r > 1 {
        MergeKnown(s.log, get, step.consumed);
      }
      if step.ServeInternal? {
        assert StoreKnown(s.log, s.stores[step.node]);
      }
      if step.ServeFollowerGet? {
        assert StoreKnown(s.log, s.stores[get.node]);
      }
      UpdateKeepsGets(s.log, s.gets, step.get, t.gets[step.get]);
    }
  }

  lemma UpdateKeepsGets(log: seq<Put>, gets: seq<Read>, g: nat, get: Read)
    requires GetsInv(log, gets) && g < |gets| && GetInv(log, get)
    ensures GetsInv(log, gets[g := get])
  {
  }

  lemma InvClientGet(c: Config, s: Cluster, n: nat, key: string)
    requires Inv(c, s)
    ensures Inv(c, Apply(c, s, ClientGet(n, key)))
  {
    assert StoreKnown(s.log, s.stores[0]);
  }

  lemma InvStep(c: Config, s: Cluster, step: Step)
    requires Inv(c, s)
    ensures Inv(c, Apply(c, s, step))
  {
    match step
    case ClientSet(key, value) => InvClientSet(c, s, key, value);
    case Replicate(i, n) => InvReplicate(c, s, i, n);
    case AckArrives(i, n, ok) => InvAckArrives(c, s, i, n, ok);
    case RespondSet(i, k) => InvRespondSet(c, s, i, k);
    case RecordWrite(i) => InvRecordWrite(c, s, i);
    case ClientGet(n, key) => InvClientGet(c, s, n, key);
    case _ => InvReadSide(c, s, step);
  }

  /** The invariant holds at every moment of every schedule, for every W, R and cluster size. */
  lemma {:induction false} InvAlways(c: Config, steps: seq<Step>, i: nat)
    requires i <= |steps|
    ensures Inv(c, At(c, steps, i))
  {
    if i == 0 {
      InvInit(c);
    } else {
      InvAlways(c, steps, i - 1);
      InvStep(c, At(c, steps, i - 1), steps[i - 1]);
    }
  }
}
