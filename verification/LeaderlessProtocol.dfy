/** Leaderless replication as a step system: any node numbers a write from its own store and waits for
    every peer. Schedules are lists of steps, as in the leader protocol. */
module LeaderlessProtocol {
  import opened Channel
  import opened Replica
  import opened WriteLog
  import AckLoop

  /** The peers of a node are the other `nodes` - 1; `n` is the separate, unchecked setting N. */
  datatype Config = Config(nodes: nat, n: int)

  datatype Status = Waiting | Responded(created: bool)

  datatype Progress = Progress(coordinator: nat, applied: set<nat>, acks: seq<Ack>, status: Status)

  datatype Cluster = Cluster(stores: seq<Store>, log: seq<Put>, progress: seq<Progress>)

  datatype Step =
    | ClientSet(node: nat, key: string, value: string)
    | Replicate(write: nat, node: nat)
    | AckArrives(write: nat, node: nat, ok: bool)
    | RespondSet(write: nat)

  function Init(c: Config): Cluster {
    Cluster(seq(c.nodes, _ => map[]), [], [])
  }

  ghost predicate Shape(c: Config, s: Cluster) {
    && |s.stores| == c.nodes
    && |s.progress| == |s.log|
    && forall i :: 0 <= i < |s.progress| ==> s.progress[i].coordinator < c.nodes
  }

  predicate IsPeer(c: Config, p: Progress, node: nat) {
    node < c.nodes && node != p.coordinator
  }

  ghost predicate Enabled(c: Config, s: Cluster, step: Step)
    requires Shape(c, s)
  {
    match step
    case ClientSet(n, key, _) => n < c.nodes && key != ""
    case Replicate(i, n) => i < |s.log| && IsPeer(c, s.progress[i], n)
    case AckArrives(i, n, ok) =>
      && i < |s.log| && IsPeer(c, s.progress[i], n)
      && (forall a :: a in s.progress[i].acks ==> a.node != n)
      && (ok ==> n in s.progress[i].applied)
    case RespondSet(i) => i < |s.log| && s.progress[i].status.Waiting? && |s.progress[i].acks| == c.nodes - 1
  }

  ghost function Apply(c: Config, s: Cluster, step: Step): (t: Cluster)
    requires Shape(c, s)
    ensures Shape(c, t)
  {
    if !Enabled(c, s, step) then s else
    match step
    case ClientSet(n, key, value) =>
      var version := NextVersion(s.stores[n], key);
      Cluster(s.stores[n := s.stores[n][key := Entry(value, version)]],
              s.log + [Put(key, value, version)],
              s.progress + [Progress(n, {}, [], Waiting)])
    case Replicate(i, n) =>
      var put, p := s.log[i], s.progress[i];
      s.(stores := s.stores[n := Applied(s.stores[n], put.key, Entry(put.value, put.version))],
         progress := s.progress[i := p.(applied := p.applied + {n})])
    case AckArrives(i, n, ok) =>
      var p := s.progress[i];
      s.(progress := s.progress[i := p.(acks := p.acks + [Ack(n, ok)])])
    case RespondSet(i) =>
      var p := s.progress[i];
      s.(progress := s.progress[i := p.(status := Responded(AckLoop.Acks(Oks(p.acks)) >= c.n - 1))])
  }

  ghost function At(c: Config, steps: seq<Step>, i: nat): (s: Cluster)
    requires i <= |steps|
    ensures Shape(c, s)
  {
    if i == 0 then Init(c) else Apply(c, At(c, steps, i - 1), steps[i - 1])
  }

  // ---- Extending a schedule ----------------------------------------------------------------------

  lemma {:induction false} LongerSchedule(c: Config, steps: seq<Step>, more: seq<Step>, i: nat)
    requires i <= |steps| && steps <= more
    ensures At(c, more, i) == At(c, steps, i)
  {
    if i == 0 {
    } else {
      LongerSchedule(c, steps, more, i - 1);
    }
  }

  /** A cluster that some schedule reaches. */
  ghost predicate Reachable(c: Config, s: Cluster) {
    exists steps: seq<Step> :: At(c, steps, |steps|) == s
  }

  lemma InitReachable(c: Config)
    ensures Shape(c, Init(c)) && Reachable(c, Init(c))
  {
    var nothing: seq<Step> := [];
    assert At(c, nothing, |nothing|) == Init(c);
  }

  lemma OneMore(c: Config, s: Cluster, step: Step)
    requires Reachable(c, s) && Shape(c, s)
    ensures Reachable(c, Apply(c, s, step))
  {
    var steps: seq<Step> :| At(c, steps, |steps|) == s;
    LongerSchedule(c, steps, steps + [step], |steps|);
    assert At(c, steps + [step], |steps + [step]|) == Apply(c, s, step);
  }
}
