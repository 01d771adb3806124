/** When the leaderless replicas agree, and exactly when they do not. */
module LeaderlessConvergence {
  import opened Options
  import opened Channel
  import opened Replica
  import opened WriteLog
  import opened LeaderlessProtocol
  import opened LeaderlessInvariant
  import opened LeaderlessTheorems
  import AckLoop

  // ---- Exactly when replicas diverge -------------------------------------------------------------

  /** Every message has reached every peer. */
  ghost predicate Quiet(c: Config, s: Cluster)
    requires Shape(c, s)
  {
    forall w, n :: 0 <= w < |s.log| && IsPeer(c, s.progress[w], n) ==> n in s.progress[w].applied
  }

  /** No write of the key has a larger version. */
  ghost predicate IsTop(log: seq<Put>, w: nat)
    requires w < |log|
  {
    forall i :: 0 <= i < |log| && log[i].key == log[w].key ==> log[i].version <= log[w].version
  }

  /** Two writes tie at the top version of a key with different values. */
  ghost predicate TiedAtTop(log: seq<Put>, a: nat, b: nat, key: string) {
    && a < |log| && b < |log| && log[a].key == key && log[b].key == key
    && log[a].version == log[b].version && log[a].value != log[b].value
    && IsTop(log, a)
  }

  ghost predicate Disagree(s: Cluster, key: string) {
    exists m, n :: 0 <= m < |s.stores| && 0 <= n < |s.stores|
                   && Lookup(s.stores[m], key) != Lookup(s.stores[n], key)
  }

  /** With every message delivered each node holds some top write of the key. */
  lemma QuietHoldsTop(c: Config, s: Cluster, n: nat, key: string, w: nat)
    requires Inv(c, s) && Quiet(c, s) && n < c.nodes && w < |s.log| && s.log[w].key == key
    ensures key in s.stores[n] && s.stores[n][key].version >= s.log[w].version
  {
    assert WriteInv(c, s.stores, s.log, s.progress, w);
    if n != s.progress[w].coordinator {
      assert IsPeer(c, s.progress[w], n);
    }
  }

  lemma OriginOf(log: seq<Put>, store: Store, key: string) returns (w: nat)
    requires StoreKnown(log, store) && key in store
    ensures w < |log| && log[w] == Put(key, store[key].value, store[key].version)
  {
    var e := store[key];
    assert FromLog(log, key, e);
    w :| w < |log| && log[w] == Put(key, e.value, e.version);
  }

  /** The coordinator of a top write holds that very write. */
  lemma CoordinatorKeepsTop(c: Config, s: Cluster, w: nat)
    requires Inv(c, s) && w < |s.log| && IsTop(s.log, w)
    ensures s.progress[w].coordinator < c.nodes
    ensures Lookup(s.stores[s.progress[w].coordinator], s.log[w].key)
         == Some(Entry(s.log[w].value, s.log[w].version))
  {
    assert WriteInv(c, s.stores, s.log, s.progress, w);
    var store := s.stores[s.progress[w].coordinator];
    assert StoreKnown(s.log, store);
    var origin := OriginOf(s.log, store, s.log[w].key);
  }

  lemma TieMeansDisagreement(c: Config, s: Cluster, key: string, a: nat, b: nat)
    requires Inv(c, s) && TiedAtTop(s.log, a, b, key)
    ensures Disagree(s, key)
  {
    CoordinatorKeepsTop(c, s, a);
    CoordinatorKeepsTop(c, s, b);
    assert Lookup(s.stores[s.progress[a].coordinator], key) != Lookup(s.stores[s.progress[b].coordinator], key);
  }

  lemma QuietSharesKeys(c: Config, s: Cluster, m: nat, n: nat, key: string)
    requires Inv(c, s) && Quiet(c, s) && m < c.nodes && n < c.nodes && key in s.stores[m]
    ensures key in s.stores[n]
  {
    assert StoreKnown(s.log, s.stores[m]);
    var w := OriginOf(s.log, s.stores[m], key);
    QuietHoldsTop(c, s, n, key, w);
  }

  lemma DisagreementMeansTie(c: Config, s: Cluster, key: string, m: nat, n: nat) returns (a: nat, b: nat)
    requires Inv(c, s) && Quiet(c, s) && m < c.nodes && n < c.nodes
    requires Lookup(s.stores[m], key) != Lookup(s.stores[n], key)
    ensures TiedAtTop(s.log, a, b, key)
  {
    forall x, y | x in {m, n} && y in {m, n} && key in s.stores[x]
      ensures key in s.stores[y]
    {
      QuietSharesKeys(c, s, x, y, key);
    }
    assert StoreKnown(s.log, s.stores[m]) && StoreKnown(s.log, s.stores[n]);
    a := OriginOf(s.log, s.stores[m], key);
    b := OriginOf(s.log, s.stores[n], key);
    forall w | 0 <= w < |s.log| && s.log[w].key == key
      ensures s.log[w].version <= s.log[a].version && s.log[w].version <= s.log[b].version
    {
      QuietHoldsTop(c, s, m, key, w);
      QuietHoldsTop(c, s, n, key, w);
    }
  }

  /** Convergence fails exactly on ties: once every message is delivered, the replicas disagree on a key if
      and only if two writes of it share the largest version with different values. */
  lemma DivergenceIsExactlyATie(c: Config, steps: seq<Step>, i: nat, key: string)
    requires i <= |steps| && Quiet(c, At(c, steps, i))
    ensures Disagree(At(c, steps, i), key)
       <==> exists a: nat, b: nat :: TiedAtTop(At(c, steps, i).log, a, b, key)
  {
    InvAlways(c, steps, i);
    var s := At(c, steps, i);
    if Disagree(s, key) {
      var m, n :| 0 <= m < |s.stores| && 0 <= n < |s.stores|
                  && Lookup(s.stores[m], key) != Lookup(s.stores[n], key);
      var a, b := DisagreementMeansTie(c, s, key, m, n);
    }
    if exists a: nat, b: nat :: TiedAtTop(s.log, a, b, key) {
      var a: nat, b: nat :| TiedAtTop(s.log, a, b, key);
      TieMeansDisagreement(c, s, key, a, b);
    }
  }

  // ---- Schedules that diverge for good -----------------------------------------------------------

  /** Nodes 0 and 1 took one write each of the same key before hearing of the other's. Whatever is delivered
      from now on, each keeps its own. */
  ghost predicate Crossed(c: Config, s: Cluster) {
    && Shape(c, s) && c.nodes >= 2
    && s.log == [Put("k", "a", 1), Put("k", "b", 1)]
    && s.progress[0].coordinator == 0 && s.progress[1].coordinator == 1
    && (forall n :: 0 <= n < c.nodes ==> Ver(s.stores[n], "k") <= 1)
    && Lookup(s.stores[0], "k") == Some(Entry("a", 1)) && Lookup(s.stores[1], "k") == Some(Entry("b", 1))
  }

  /** Write `w` has reached and been acknowledged by its peers among the first `m` nodes. */
  ghost predicate SpreadTo(c: Config, p: Progress, m: nat) {
    && p.status.Waiting?
    && (forall n: nat :: n in p.applied <==> n < m && IsPeer(c, p, n))
    && (forall a :: a in p.acks ==> a.ok && a.node < m)
    && |p.acks| == if p.coordinator < m then m - 1 else m
  }

  lemma FirstCrossing(c: Config)
    requires c.nodes >= 2
    ensures var s := Apply(c, Init(c), ClientSet(0, "k", "a"));
            && s.log == [Put("k", "a", 1)] && s.progress == [Progress(0, {}, [], Waiting)]
            && s.stores == Init(c).stores[0 := map["k" := Entry("a", 1)]]
  {
    assert map[]["k" := Entry("a", 1)] == map["k" := Entry("a", 1)];
  }

  lemma SecondCrossing(c: Config, s: Cluster)
    requires Shape(c, s) && c.nodes >= 2
    requires s.log == [Put("k", "a", 1)] && s.progress == [Progress(0, {}, [], Waiting)]
    requires s.stores == Init(c).stores[0 := map["k" := Entry("a", 1)]]
    ensures var t := Apply(c, s, ClientSet(1, "k", "b"));
            Crossed(c, t) && SpreadTo(c, t.progress[0], 0) && SpreadTo(c, t.progress[1], 0)
  {
    var t := Apply(c, s, ClientSet(1, "k", "b"));
    assert t.progress == [Progress(0, {}, [], Waiting), Progress(1, {}, [], Waiting)];
  }

  lemma CrossingWrites(c: Config) returns (s: Cluster)
    requires c.nodes >= 2
    ensures Reachable(c, s) && Crossed(c, s) && SpreadTo(c, s.progress[0], 0) && SpreadTo(c, s.progress[1], 0)
  {
    hide Apply, Reachable, SpreadTo, Init;
    InitReachable(c);
    FirstCrossing(c);
    OneMore(c, Init(c), ClientSet(0, "k", "a"));
    var one := Apply(c, Init(c), ClientSet(0, "k", "a"));
    SecondCrossing(c, one);
    OneMore(c, one, ClientSet(1, "k", "b"));
    s := Apply(c, one, ClientSet(1, "k", "b"));
  }

  /** One more peer takes and acknowledges the write. */
  lemma SpreadFurther(c: Config, s: Cluster, w: nat, m: nat)
    requires Crossed(c, s) && w < 2 && m < c.nodes && m != w && SpreadTo(c, s.progress[w], m)
    ensures var sent := Apply(c, s, Replicate(w, m));
            var t := Apply(c, sent, AckArrives(w, m, true));
            Crossed(c, t) && SpreadTo(c, t.progress[w], m + 1) && t.progress[1 - w] == s.progress[1 - w]
  {
    var sent := Apply(c, s, Replicate(w, m));
    assert Crossed(c, sent);
    assert m !in s.progress[w].applied;
  }

  /** The coordinator is not one of its own peers. */
  lemma SpreadPastCoordinator(c: Config, p: Progress)
    requires SpreadTo(c, p, p.coordinator)
    ensures SpreadTo(c, p, p.coordinator + 1)
  {
  }

  lemma SpreadOneMore(c: Config, s: Cluster, w: nat, m: nat) returns (t: Cluster)
    requires Reachable(c, s) && Crossed(c, s) && w < 2 && m < c.nodes && SpreadTo(c, s.progress[w], m)
    ensures Reachable(c, t) && Crossed(c, t) && SpreadTo(c, t.progress[w], m + 1)
    ensures t.progress[1 - w] == s.progress[1 - w]
  {
    hide Apply, Reachable, SpreadTo;
    if m == w {
      SpreadPastCoordinator(c, s.progress[w]);
      t := s;
    } else {
      SpreadFurther(c, s, w, m);
      OneMore(c, s, Replicate(w, m));
      OneMore(c, Apply(c, s, Replicate(w, m)), AckArrives(w, m, true));
      t := Apply(c, Apply(c, s, Replicate(w, m)), AckArrives(w, m, true));
    }
  }

  lemma {:induction false} SpreadToAll(c: Config, s: Cluster, w: nat, m: nat) returns (t: Cluster)
    requires Reachable(c, s) && Crossed(c, s) && w < 2 && m <= c.nodes && SpreadTo(c, s.progress[w], 0)
    ensures Reachable(c, t) && Crossed(c, t) && SpreadTo(c, t.progress[w], m)
    ensures t.progress[1 - w] == s.progress[1 - w]
  {
    hide Apply, Reachable, SpreadTo;
    if m == 0 {
      t := s;
    } else {
      t := SpreadToAll(c, s, w, m - 1);
      t := SpreadOneMore(c, t, w, m - 1);
    }
  }

  lemma {:induction false} AllPositive(acks: seq<Ack>)
    requires forall a :: a in acks ==> a.ok
    ensures AckLoop.Acks(Oks(acks)) == |acks|
  {
    if acks == [] {
    } else {
      assert Oks(acks)[..|acks| - 1] == Oks(acks[..|acks| - 1]);
      AllPositive(acks[..|acks| - 1]);
    }
  }

  /** Write `w` is delivered everywhere and answered 201; nothing else about the pair changes. */
  lemma AnswerCrossed(c: Config, s: Cluster, w: nat) returns (t: Cluster)
    requires Reachable(c, s) && Crossed(c, s) && w < 2 && SpreadTo(c, s.progress[w], 0) && c.n <= c.nodes
    ensures Reachable(c, t) && Crossed(c, t) && t.progress[1 - w] == s.progress[1 - w]
    ensures IsCreated(t, w) && forall n :: IsPeer(c, t.progress[w], n) ==> n in t.progress[w].applied
  {
    var all := SpreadToAll(c, s, w, c.nodes);
    AllPositive(all.progress[w].acks);
    OneMore(c, all, RespondSet(w));
    t := Apply(c, all, RespondSet(w));
  }

  /** Every write was answered 201. */
  ghost predicate AllAnswered(s: Cluster) {
    forall w :: 0 <= w < |s.log| ==> IsCreated(s, w)
  }

  /** Some schedule has every write answered 201 and every message delivered, and still leaves two replicas
      with different entries. */
  ghost predicate CanDiverge(c: Config) {
    exists s: Cluster, key: string ::
      Reachable(c, s) && Shape(c, s) && AllAnswered(s) && Quiet(c, s) && Disagree(s, key)
  }

  lemma CrossedForGood(c: Config, s: Cluster)
    requires Crossed(c, s) && IsCreated(s, 0) && IsCreated(s, 1)
    requires forall n :: IsPeer(c, s.progress[0], n) ==> n in s.progress[0].applied
    requires forall n :: IsPeer(c, s.progress[1], n) ==> n in s.progress[1].applied
    ensures AllAnswered(s) && Quiet(c, s) && Disagree(s, "k")
  {
    assert Lookup(s.stores[0], "k") != Lookup(s.stores[1], "k");
  }

  lemma DivergingSchedule(c: Config)
    requires c.nodes >= 2 && c.n <= c.nodes
    ensures CanDiverge(c)
  {
    hide Reachable, SpreadTo, Disagree, Quiet, AllAnswered;
    var s := CrossingWrites(c);
    var t := AnswerCrossed(c, s, 0);
    var u := AnswerCrossed(c, t, 1);
    CrossedForGood(c, u);
  }

  /** A 201 needs N - 1 peers that acknowledge. */
  lemma CreatedNeedsPeers(c: Config, s: Cluster, n: nat)
    requires Inv(c, s) && AllAnswered(s) && n < c.nodes && s.stores[n] != map[]
    ensures c.n <= c.nodes
  {
    assert StoreKnown(s.log, s.stores[n]);
    var key :| key in s.stores[n];
    var w := OriginOf(s.log, s.stores[n], key);
    assert IsCreated(s, w);
    assert WriteInv(c, s.stores, s.log, s.progress, w);
    assert AckLoop.Acks(Oks(s.progress[w].acks)) <= c.nodes - 1;
  }

  lemma DivergenceNeedsPeers(c: Config, s: Cluster, key: string)
    requires Inv(c, s) && AllAnswered(s) && Disagree(s, key)
    ensures c.nodes >= 2 && c.n <= c.nodes
  {
    var m, n :| 0 <= m < |s.stores| && 0 <= n < |s.stores|
                && Lookup(s.stores[m], key) != Lookup(s.stores[n], key);
    CreatedNeedsPeers(c, s, if key in s.stores[m] then m else n);
  }

  /** Unconditional convergence is false, exactly: acknowledged writes can leave the replicas different for good
      if and only if there are at least two nodes and the setting N does not exceed their number. */
  lemma AcknowledgedWritesCanDiverge(c: Config)
    ensures CanDiverge(c) <==> c.nodes >= 2 && c.n <= c.nodes
  {
    hide Apply, Inv, AllAnswered, Disagree, Quiet;
    if c.nodes >= 2 && c.n <= c.nodes {
      DivergingSchedule(c);
    }
    if CanDiverge(c) {
      var s: Cluster, key: string :|
        Reachable(c, s) && Shape(c, s) && AllAnswered(s) && Quiet(c, s) && Disagree(s, key);
      var steps: seq<Step> :| At(c, steps, |steps|) == s;
      InvAlways(c, steps, |steps|);
      DivergenceNeedsPeers(c, s, key);
    }
  }

  // ---- Writes that do not overlap ----------------------------------------------------------------

  /** No two writes of the key overlap, and each is answered 201 before the next starts. */
  ghost predicate Serial(c: Config, steps: seq<Step>, i: nat, key: string)
    requires i <= |steps|
  {
    forall j, w :: 0 <= j < i && Starts(c, steps, j) && steps[j].key == key
                   && 0 <= w < |At(c, steps, j).log| && At(c, steps, j).log[w].key == key ==>
                     IsCreated(At(c, steps, j), w)
  }

  ghost predicate AllCreated(s: Cluster, key: string) {
    forall w :: 0 <= w < |s.log| && s.log[w].key == key ==> IsCreated(s, w)
  }

  lemma LastWriteOf(log: seq<Put>, key: string) returns (w: nat)
    requires Count(log, key) > 0 && Numbered(log, key)
    ensures w < |log| && log[w].key == key && log[w].version == Count(log, key)
  {
    RegisterIsNewest(log, key);
    var e := Register(log, key).value;
    w :| w < |log| && log[w] == Put(key, e.value, e.version);
  }

  /** When every write of the key so far was answered 201, each node holds the last of them. */
  lemma AllCreatedMeansAgreement(c: Config, s: Cluster, key: string, n: nat)
    requires Inv(c, s) && Numbered(s.log, key) && AllCreated(s, key) && c.n >= c.nodes && n < c.nodes
    ensures Lookup(s.stores[n], key) == Register(s.log, key)
  {
    RegisterIsNewest(s.log, key);
    assert StoreKnown(s.log, s.stores[n]);
    if key in s.stores[n] {
      KnownVersions(s.log, key, s.stores[n][key]);
    }
    if Count(s.log, key) > 0 {
      var w := LastWriteOf(s.log, key);
      CreatedIsEverywhere(c, s, w, n);
      SameVersionSameEntry(s.log, key, s.stores[n][key], Register(s.log, key).value);
    }
  }

  lemma NumberedStep(c: Config, s: Cluster, step: Step, key: string)
    requires Inv(c, s) && Numbered(s.log, key) && c.n >= c.nodes
    requires step.ClientSet? && step.node < c.nodes && step.key == key && key != "" ==> AllCreated(s, key)
    ensures Numbered(Apply(c, s, step).log, key)
  {
    var t := Apply(c, s, step);
    if t.log != s.log {
      assert t.log[..|s.log|] == s.log;
      if step.key == key {
        AllCreatedMeansAgreement(c, s, key, step.node);
        RegisterIsNewest(s.log, key);
      }
      forall i | 0 <= i < |t.log| && t.log[i].key == key
        ensures NumberedAt(t.log, i)
      {
        if i < |s.log| {
          assert NumberedAt(s.log, i);
          assert t.log[..i] == s.log[..i];
        }
      }
    }
  }

  /** In a serial run the k-th write of the key has version k. */
  lemma {:induction false} SerialIsNumbered(c: Config, steps: seq<Step>, i: nat, key: string)
    requires i <= |steps| && c.n >= c.nodes && Serial(c, steps, i, key)
    ensures Numbered(At(c, steps, i).log, key)
  {
    if i == 0 {
    } else {
      SerialIsNumbered(c, steps, i - 1, key);
      InvAlways(c, steps, i - 1);
      NumberedStep(c, At(c, steps, i - 1), steps[i - 1], key);
    }
  }

  /** Serial writes make the leaderless store a register: whenever every write so far has its 201, any node's
      `/get` answers with the value of the last write and the number of writes, and all nodes agree. */
  lemma SerialRunsAgree(c: Config, steps: seq<Step>, i: nat, key: string, n: nat)
    requires i <= |steps| && c.n >= c.nodes && n < c.nodes
    requires Serial(c, steps, i, key) && AllCreated(At(c, steps, i), key)
    ensures Lookup(At(c, steps, i).stores[n], key) == Register(At(c, steps, i).log, key)
    ensures Ver(At(c, steps, i).stores[n], key) == Count(At(c, steps, i).log, key)
  {
    SerialIsNumbered(c, steps, i, key);
    InvAlways(c, steps, i);
    AllCreatedMeansAgreement(c, At(c, steps, i), key, n);
    RegisterIsNewest(At(c, steps, i).log, key);
  }
}
