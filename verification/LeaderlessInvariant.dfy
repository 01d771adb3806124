/** What every step of the leaderless protocol keeps. */
module LeaderlessInvariant {
  import opened Basics
  import opened Channel
  import opened Replica
  import opened WriteLog
  import opened LeaderlessProtocol
  import AckLoop

  /** The coordinator still holds its write, or something newer. */
  ghost predicate HoldsOrPassed(store: Store, put: Put) {
    && put.key in store
    && (store[put.key] == Entry(put.value, put.version) || store[put.key].version > put.version)
  }

  ghost predicate SpreadInv(c: Config, stores: seq<Store>, put: Put, p: Progress) {
    && |stores| == c.nodes
    && p.coordinator < c.nodes
    && put.version >= 1
    && HoldsOrPassed(stores[p.coordinator], put)
    && forall n :: n in p.applied ==> IsPeer(c, p, n) && Ver(stores[n], put.key) >= put.version
  }

  ghost predicate ChannelInv(c: Config, p: Progress) {
    && (forall a :: 0 <= a < |p.acks| ==>
          IsPeer(c, p, p.acks[a].node) && (p.acks[a].ok ==> p.acks[a].node in p.applied))
    && OneReplyEach(p.acks)
    && (p.status.Responded? ==>
          |p.acks| == c.nodes - 1 && (p.status.created <==> AckLoop.Acks(Oks(p.acks)) >= c.n - 1))
  }

  ghost predicate StoresInv(log: seq<Put>, stores: seq<Store>) {
    forall n :: 0 <= n < |stores| ==> StoreKnown(log, stores[n])
  }

  ghost predicate WritesInv(c: Config, stores: seq<Store>, log: seq<Put>, progress: seq<Progress>) {
    && |progress| == |log|
    && forall i :: 0 <= i < |log| ==> WriteInv(c, stores, log, progress, i)
  }

  ghost predicate WriteInv(c: Config, stores: seq<Store>, log: seq<Put>, progress: seq<Progress>, i: nat)
    requires i < |log| == |progress|
  {
    SpreadInv(c, stores, log[i], progress[i]) && ChannelInv(c, progress[i])
  }

  ghost predicate Inv(c: Config, s: Cluster) {
    && Shape(c, s)
    && StoresInv(s.log, s.stores)
    && WritesInv(c, s.stores, s.log, s.progress)
  }

  /** Every entry a node holds has a version of at least 1. */
  lemma StoredVersionsPositive(c: Config, s: Cluster, n: nat, key: string)
    requires Inv(c, s) && n < |s.stores| && key in s.stores[n]
    ensures s.stores[n][key].version >= 1
  {
    assert StoreKnown(s.log, s.stores[n]);
    var e := s.stores[n][key];
    var i :| 0 <= i < |s.log| && s.log[i] == Put(key, e.value, e.version);
    assert WriteInv(c, s.stores, s.log, s.progress, i);
  }

  lemma AppendKeepsKnown(log: seq<Put>, stores: seq<Store>, n: nat, put: Put)
    requires StoresInv(log, stores) && n < |stores|
    ensures StoresInv(log + [put], stores[n := stores[n][put.key := Entry(put.value, put.version)]])
  {
    var more := log + [put];
    EntriesStayKnown(log, more);
    assert more[|log|] == Put(put.key, put.value, put.version);
    assert FromLog(more, put.key, Entry(put.value, put.version));
    forall m | 0 <= m < |stores|
      ensures StoreKnown(more, stores[m])
    {
      assert StoreKnown(log, stores[m]);
    }
    assert StoreKnown(more, stores[n][put.key := Entry(put.value, put.version)]);
  }

  /** A newer entry in one store disturbs no write. */
  lemma NewerKeepsSpread(c: Config, stores: seq<Store>, n: nat, store: Store, put: Put, p: Progress)
    requires SpreadInv(c, stores, put, p) && n < |stores|
    requires forall k :: k in stores[n] ==>
               k in store && (store[k] == stores[n][k] || store[k].version > stores[n][k].version)
    requires forall k :: k in store ==> store[k].version >= 1
    ensures SpreadInv(c, stores[n := store], put, p)
  {
    forall m | m in p.applied
      ensures IsPeer(c, p, m) && Ver(stores[n := store][m], put.key) >= put.version
    {
      assert Ver(stores[m], put.key) >= put.version;
    }
  }

  lemma NewerKeepsWrites(c: Config, s: Cluster, n: nat, store: Store)
    requires Inv(c, s) && n < |s.stores|
    requires forall k :: k in s.stores[n] ==>
               k in store && (store[k] == s.stores[n][k] || store[k].version > s.stores[n][k].version)
    requires forall k :: k in store ==> store[k].version >= 1
    ensures WritesInv(c, s.stores[n := store], s.log, s.progress)
  {
    var after := s.stores[n := store];
    forall i | 0 <= i < |s.log|
      ensures WriteInv(c, after, s.log, s.progress, i)
    {
      assert WriteInv(c, s.stores, s.log, s.progress, i);
      NewerKeepsSpread(c, s.stores, n, store, s.log[i], s.progress[i]);
    }
  }

  lemma AllPositive(c: Config, s: Cluster, n: nat)
    requires Inv(c, s) && n < |s.stores|
    ensures forall k :: k in s.stores[n] ==> s.stores[n][k].version >= 1
  {
    forall k | k in s.stores[n]
      ensures s.stores[n][k].version >= 1
    {
      StoredVersionsPositive(c, s, n, k);
    }
  }

  lemma AppendKeepsWrites(c: Config, stores: seq<Store>, log: seq<Put>, progress: seq<Progress>, put: Put, p: Progress)
    requires WritesInv(c, stores, log, progress)
    requires SpreadInv(c, stores, put, p) && ChannelInv(c, p)
    ensures WritesInv(c, stores, log + [put], progress + [p])
  {
    forall i | 0 <= i <= |log|
      ensures WriteInv(c, stores, log + [put], progress + [p], i)
    {
      if i < |log| {
        assert WriteInv(c, stores, log, progress, i);
      }
    }
  }

  lemma InvClientSet(c: Config, s: Cluster, n: nat, key: string, value: string)
    requires Inv(c, s)
    ensures Inv(c, Apply(c, s, ClientSet(n, key, value)))
  {
    var step := ClientSet(n, key, value);
    if Enabled(c, s, step) {
      var put := Put(key, value, NextVersion(s.stores[n], key));
      var store := s.stores[n][key := Entry(value, put.version)];
      AllPositive(c, s, n);
      AppendKeepsKnown(s.log, s.stores, n, put);
      NewerKeepsWrites(c, s, n, store);
      var begun := Progress(n, {}, [], Waiting);
      assert SpreadInv(c, s.stores[n := store], put, begun) && ChannelInv(c, begun);
      AppendKeepsWrites(c, s.stores[n := store], s.log, s.progress, put, begun);
    }
  }

  lemma ApplyKeepsKnown(log: seq<Put>, stores: seq<Store>, n: nat, put: Put)
    requires StoresInv(log, stores) && n < |stores| && put in log
    ensures StoresInv(log, stores[n := Applied(stores[n], put.key, Entry(put.value, put.version))])
  {
    assert StoreKnown(log, stores[n]);
    var i :| 0 <= i < |log| && log[i] == put;
    assert FromLog(log, put.key, Entry(put.value, put.version));
    assert StoreKnown(log, Applied(stores[n], put.key, Entry(put.value, put.version)));
  }

  lemma UpdateKeepsWrites(c: Config, stores: seq<Store>, log: seq<Put>, progress: seq<Progress>, i: nat, q: Progress)
    requires WritesInv(c, stores, log, progress) && i < |log|
    requires SpreadInv(c, stores, log[i], q) && ChannelInv(c, q)
    ensures WritesInv(c, stores, log, progress[i := q])
  {
    var after := progress[i := q];
    forall j | 0 <= j < |log|
      ensures WriteInv(c, stores, log, after, j)
    {
      assert WriteInv(c, stores, log, progress, j);
    }
  }

  lemma InvReplicate(c: Config, s: Cluster, i: nat, n: nat)
    requires Inv(c, s)
    ensures Inv(c, Apply(c, s, Replicate(i, n)))
  {
    var step := Replicate(i, n);
    if Enabled(c, s, step) {
      var put, p := s.log[i], s.progress[i];
      var store := Applied(s.stores[n], put.key, Entry(put.value, put.version));
      AllPositive(c, s, n);
      assert WriteInv(c, s.stores, s.log, s.progress, i);
      ApplyKeepsKnown(s.log, s.stores, n, put);
      NewerKeepsWrites(c, s, n, store);
      DeliveryRecorded(c, s.stores, n, put, p);
      UpdateKeepsWrites(c, s.stores[n := store], s.log, s.progress, i, p.(applied := p.applied + {n}));
    }
  }

  lemma DeliveryRecorded(c: Config, stores: seq<Store>, n: nat, put: Put, p: Progress)
    requires SpreadInv(c, stores, put, p) && ChannelInv(c, p) && IsPeer(c, p, n)
    ensures var after := stores[n := Applied(stores[n], put.key, Entry(put.value, put.version))];
            SpreadInv(c, after, put, p.(applied := p.applied + {n}))
    ensures ChannelInv(c, p.(applied := p.applied + {n}))
  {
  }

  lemma ChannelGrows(c: Config, p: Progress, n: nat, ok: bool)
    requires ChannelInv(c, p) && p.coordinator < c.nodes && IsPeer(c, p, n) && (ok ==> n in p.applied)
    requires forall a :: a in p.acks ==> a.node != n
    ensures ChannelInv(c, p.(acks := p.acks + [Ack(n, ok)]))
  {
    RoomForReply(c, p, n);
    forall a | 0 <= a < |p.acks|
      ensures p.acks[a].node != n
    {
      assert p.acks[a] in p.acks;
    }
  }

  lemma InvAck(c: Config, s: Cluster, step: Step)
    requires Inv(c, s) && (step.AckArrives? || step.RespondSet?)
    ensures Inv(c, Apply(c, s, step))
  {
    if Enabled(c, s, step) {
      var p, q := s.progress[step.write], Apply(c, s, step).progress[step.write];
      assert WriteInv(c, s.stores, s.log, s.progress, step.write);
      if step.AckArrives? {
        ChannelGrows(c, p, step.node, step.ok);
      }
      UpdateKeepsWrites(c, s.stores, s.log, s.progress, step.write, q);
    }
  }

  /** Each peer replies once, so whoever has not replied yet finds room in the channel. */
  lemma RoomForReply(c: Config, p: Progress, n: nat)
    requires ChannelInv(c, p) && p.coordinator < c.nodes && IsPeer(c, p, n)
    requires forall a :: a in p.acks ==> a.node != n
    ensures |p.acks| < c.nodes - 1
  {
    var nodes := RepliersCounted(p.acks);
    forall m | m in nodes + {n}
      ensures m in Below(c.nodes) - {p.coordinator}
    {
      if m in nodes {
        var x :| 0 <= x < |p.acks| && p.acks[x].node == m;
      }
    }
    SubsetSize(nodes + {n}, Below(c.nodes) - {p.coordinator});
  }

  lemma InvStep(c: Config, s: Cluster, step: Step)
    requires Inv(c, s)
    ensures Inv(c, Apply(c, s, step))
  {
    match step
    case ClientSet(n, key, value) => InvClientSet(c, s, n, key, value);
    case Replicate(i, n) => InvReplicate(c, s, i, n);
    case _ => InvAck(c, s, step);
  }

  lemma {:induction false} InvAlways(c: Config, steps: seq<Step>, i: nat)
    requires i <= |steps|
    ensures Inv(c, At(c, steps, i))
  {
    if i == 0 {
    } else {
      InvAlways(c, steps, i - 1);
      InvStep(c, At(c, steps, i - 1), steps[i - 1]);
    }
  }
}
