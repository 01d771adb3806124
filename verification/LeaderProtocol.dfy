/** Leader-follower replication as a step system. Every schedule of client calls, message deliveries,
    replies and losses is a list of steps; a step whose guard fails leaves the cluster unchanged. */
module LeaderProtocol {
  import opened Options
  import opened Channel
  import opened Replica
  import opened WriteLog
  import AckLoop
  import ReadMerge
  import Tracker

  /** Node 0 is the leader, nodes 1 to `followers` are the followers. `w` and `r` are unchecked settings. */
  datatype Config = Config(followers: nat, w: int, r: int)

  datatype Status = Waiting | Responded(created: bool, consumed: nat)

  /** `applied`: the followers whose store has taken the message; `acks`: the channel, in order of arrival. */
  datatype Progress = Progress(applied: set<nat>, acks: seq<Ack>, status: Status)

  datatype Arrival = Arrival(node: nat, reply: Option<Entry>)

  /** `Answered(None)` is a 404. */
  datatype Outcome = Pending | Answered(entry: Option<Entry>)

  /** A client read at `node`; at the leader, `local` is its own entry when the read began. */
  datatype Read = Read(node: nat, key: string, local: Option<Entry>, served: map<nat, Option<Entry>>,
                       arrivals: seq<Arrival>, outcome: Outcome, stale: Option<bool>)

  datatype Cluster = Cluster(stores: seq<Store>, log: seq<Put>, progress: seq<Progress>,
                             gets: seq<Read>, tracked: Tracker.Versions)

  datatype Step =
    | ClientSet(key: string, value: string)
    | Replicate(write: nat, node: nat)
    | AckArrives(write: nat, node: nat, ok: bool)
    | RespondSet(write: nat, consumed: nat)
    | RecordWrite(write: nat)
    | ClientGet(node: nat, key: string)
    | ServeInternal(get: nat, node: nat)
    | ReplyArrives(get: nat, node: nat, lost: bool)
    | RespondGet(get: nat, consumed: nat)
    | ServeFollowerGet(get: nat)
    | CheckRead(get: nat)

  function Replies(arrivals: seq<Arrival>): (replies: seq<Option<Entry>>)
    ensures |replies| == |arrivals|
  {
    seq(|arrivals|, i requires 0 <= i < |arrivals| => arrivals[i].reply)
  }

  function Init(c: Config): Cluster {
    Cluster(seq(c.followers + 1, _ => map[]), [], [], [], map[])
  }

  predicate IsFollower(c: Config, node: nat) {
    1 <= node <= c.followers
  }

  ghost predicate Enabled(c: Config, s: Cluster, step: Step)
    requires Shape(c, s)
  {
    match step
    case ClientSet(key, _) => key != ""
    case Replicate(i, n) => i < |s.log| && IsFollower(c, n) && c.w > 1
    case AckArrives(i, n, ok) =>
      && i < |s.log| && IsFollower(c, n) && c.w > 1
      && (forall a :: a in s.progress[i].acks ==> a.node != n)
      && (ok ==> n in s.progress[i].applied)
    case RespondSet(i, k) =>
      && i < |s.log| && s.progress[i].status.Waiting?
      && (c.w > 1 ==> AckLoop.Consumes(Oks(s.progress[i].acks), k, c.w - 1, c.followers))
      && (c.w <= 1 ==> k == 0)
    case RecordWrite(i) => i < |s.log| && s.progress[i].status.Responded? && s.progress[i].status.created
    case ClientGet(n, key) => n <= c.followers && key != ""
    case ServeInternal(g, n) =>
      g < |s.gets| && s.gets[g].node == 0 && IsFollower(c, n) && c.r > 1 && n !in s.gets[g].served
    case ReplyArrives(g, n, lost) =>
      && g < |s.gets| && s.gets[g].node == 0 && IsFollower(c, n) && c.r > 1
      && (forall a :: a in s.gets[g].arrivals ==> a.node != n)
      && (!lost ==> n in s.gets[g].served)
    case RespondGet(g, k) =>
      && g < |s.gets| && s.gets[g].node == 0 && s.gets[g].outcome.Pending?
      && (c.r > 1 ==> ReadMerge.Consumes(Replies(s.gets[g].arrivals), k, c.r - 1, c.followers))
      && (c.r <= 1 ==> k == 0)
    case ServeFollowerGet(g) => g < |s.gets| && s.gets[g].node != 0 && s.gets[g].outcome.Pending?
    case CheckRead(g) =>
      && g < |s.gets| && s.gets[g].stale.None?
      && s.gets[g].outcome.Answered? && s.gets[g].outcome.entry.Some?
  }

  /** The index structure every step keeps. */
  ghost predicate Shape(c: Config, s: Cluster) {
    && |s.stores| == c.followers + 1
    && |s.progress| == |s.log|
    && forall g :: 0 <= g < |s.gets| ==> s.gets[g].node <= c.followers
  }

  ghost function Apply(c: Config, s: Cluster, step: Step): (t: Cluster)
    requires Shape(c, s)
    ensures Shape(c, t)
  {
    if !Enabled(c, s, step) then s else
    match step
    case ClientSet(key, value) =>
      var version := NextVersion(s.stores[0], key);
      s.(stores := s.stores[0 := s.stores[0][key := Entry(value, version)]],
         log := s.log + [Put(key, value, version)],
         progress := s.progress + [Progress({}, [], Waiting)])
    case Replicate(i, n) =>
      var put, p := s.log[i], s.progress[i];
      s.(stores := s.stores[n := Applied(s.stores[n], put.key, Entry(put.value, put.version))],
         progress := s.progress[i := p.(applied := p.applied + {n})])
    case AckArrives(i, n, ok) =>
      var p := s.progress[i];
      s.(progress := s.progress[i := p.(acks := p.acks + [Ack(n, ok)])])
    case RespondSet(i, k) =>
      var p := s.progress[i];
      var created := c.w <= 1 || AckLoop.Acks(Oks(p.acks)[..k]) >= c.w - 1;
      s.(progress := s.progress[i := p.(status := Responded(created, k))])
    case RecordWrite(i) =>
      s.(tracked := Tracker.Recorded(s.tracked, s.log[i].key, s.log[i].version))
    case ClientGet(n, key) =>
      var local := if n == 0 then Lookup(s.stores[0], key) else None;
      s.(gets := s.gets + [Read(n, key, local, map[], [], Pending, None)])
    case ServeInternal(g, n) =>
      var get := s.gets[g];
      s.(gets := s.gets[g := get.(served := get.served[n := Lookup(s.stores[n], get.key)])])
    case ReplyArrives(g, n, lost) =>
      var get := s.gets[g];
      var reply := if lost then None else get.served[n];
      s.(gets := s.gets[g := get.(arrivals := get.arrivals + [Arrival(n, reply)])])
    case RespondGet(g, k) =>
      var get := s.gets[g];
      var entry := if c.r > 1 then ReadMerge.Merged(get.local, Replies(get.arrivals)[..k]) else get.local;
      s.(gets := s.gets[g := get.(outcome := Answered(entry))])
    case ServeFollowerGet(g) =>
      var get := s.gets[g];
      s.(gets := s.gets[g := get.(outcome := Answered(Lookup(s.stores[get.node], get.key)))])
    case CheckRead(g) =>
      var get := s.gets[g];
      var stale := Tracker.Stale(s.tracked, get.key, get.outcome.entry.value.version);
      s.(gets := s.gets[g := get.(stale := Some(stale))])
  }

  /** The cluster after the first `i` steps of a schedule. */
  ghost function At(c: Config, steps: seq<Step>, i: nat): (s: Cluster)
    requires i <= |steps|
    ensures Shape(c, s)
  {
    if i == 0 then Init(c) else Apply(c, At(c, steps, i - 1), steps[i - 1])
  }

  // ---- Extending a schedule ----------------------------------------------------------------------

  lemma {:induction false} LongerSchedule(c: Config, steps: seq<Step>, more: seq<Step>, i: nat)
    requires i <= |steps| && steps <= more
    ensures At(c, more, i) == At(c, steps, i)
  {
    if i == 0 {
    } else {
      LongerSchedule(c, steps, more, i - 1);
    }
  }

  lemma OneMore(c: Config, steps: seq<Step>, step: Step)
    ensures At(c, steps + [step], |steps| + 1) == Apply(c, At(c, steps, |steps|), step)
  {
    LongerSchedule(c, steps, steps + [step], |steps|);
  }
}
