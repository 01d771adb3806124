/** What clients of the leader-follower store can rely on, over every schedule. */
module LeaderTheorems {
  import opened Options
  import opened Replica
  import opened WriteLog
  import opened LeaderProtocol
  import opened LeaderInvariant
  import Tracker

  // ---- What only grows ---------------------------------------------------------------------------

  ghost predicate ProgressGrows(p: Progress, q: Progress) {
    && p.applied <= q.applied
    && p.acks <= q.acks
    && (p.status.Responded? ==> q.status == p.status)
  }

  ghost predicate GetGrows(g: Read, h: Read) {
    && g.node == h.node && g.key == h.key && g.local == h.local
    && (forall n :: n in g.served ==> n in h.served && h.served[n] == g.served[n])
    && g.arrivals <= h.arrivals
    && (g.outcome.Answered? ==> h.outcome == g.outcome)
    && (g.stale.Some? ==> h.stale == g.stale)
  }

  ghost predicate Grows(s: Cluster, t: Cluster) {
    && |s.stores| == |t.stores|
    && (forall n :: 0 <= n < |s.stores| ==> StoreGrows(s.stores[n], t.stores[n]))
    && s.log <= t.log
    && |s.progress| <= |t.progress|
    && (forall i :: 0 <= i < |s.progress| ==> ProgressGrows(s.progress[i], t.progress[i]))
    && |s.gets| <= |t.gets|
    && (forall g :: 0 <= g < |s.gets| ==> GetGrows(s.gets[g], t.gets[g]))
    && (forall key :: Tracker.Expected(s.tracked, key) <= Tracker.Expected(t.tracked, key))
  }

  lemma SetStepGrows(c: Config, s: Cluster, step: Step)
    requires Shape(c, s)
    requires step.ClientSet? || step.Replicate? || step.AckArrives? || step.RespondSet? || step.RecordWrite?
    ensures Grows(s, Apply(c, s, step))
  {
  }

  lemma GetStepGrows(c: Config, s: Cluster, step: Step)
    requires Shape(c, s)
    requires step.ClientGet? || step.ServeInternal? || step.ReplyArrives?
    ensures Grows(s, Apply(c, s, step))
  {
  }

  lemma AnswerStepGrows(c: Config, s: Cluster, step: Step)
    requires Shape(c, s)
    requires step.RespondGet? || step.ServeFollowerGet? || step.CheckRead?
    ensures Grows(s, Apply(c, s, step))
  {
  }

  lemma StepGrows(c: Config, s: Cluster, step: Step)
    requires Shape(c, s)
    ensures Grows(s, Apply(c, s, step))
  {
    if step.ClientSet? || step.Replicate? || step.AckArrives? || step.RespondSet? || step.RecordWrite? {
      SetStepGrows(c, s, step);
    } else if step.ClientGet? || step.ServeInternal? || step.ReplyArrives? {
      GetStepGrows(c, s, step);
    } else {
      AnswerStepGrows(c, s, step);
    }
  }

  lemma GrowsAt(c: Config, steps: seq<Step>, i: nat)
    requires i < |steps|
    ensures Grows(At(c, steps, i), At(c, steps, i + 1))
  {
    StepGrows(c, At(c, steps, i), steps[i]);
  }

  lemma GrowsTransitive(s: Cluster, t: Cluster, u: Cluster)
    requires Grows(s, t) && Grows(t, u)
    ensures Grows(s, u)
  {
    forall n | 0 <= n < |s.stores|
      ensures StoreGrows(s.stores[n], u.stores[n])
    {
      assert StoreGrows(s.stores[n], t.stores[n]) && StoreGrows(t.stores[n], u.stores[n]);
    }
    forall i | 0 <= i < |s.progress|
      ensures ProgressGrows(s.progress[i], u.progress[i])
    {
      assert ProgressGrows(s.progress[i], t.progress[i]) && ProgressGrows(t.progress[i], u.progress[i]);
    }
    forall g | 0 <= g < |s.gets|
      ensures GetGrows(s.gets[g], u.gets[g])
    {
      assert GetGrows(s.gets[g], t.gets[g]) && GetGrows(t.gets[g], u.gets[g]);
    }
  }

  lemma GrowsReflexive(s: Cluster)
    ensures Grows(s, s)
  {
  }

  /** Versions, the write log, acknowledgements, responses and answers are never taken back. */
  lemma {:induction false} NothingIsTakenBack(c: Config, steps: seq<Step>, i: nat, j: nat)
    requires i <= j <= |steps|
    ensures Grows(At(c, steps, i), At(c, steps, j))
  {
    hide Apply, Grows;
    if i == j {
      GrowsReflexive(At(c, steps, i));
    } else {
      NothingIsTakenBack(c, steps, i, j - 1);
      GrowsAt(c, steps, j - 1);
      GrowsTransitive(At(c, steps, i), At(c, steps, j - 1), At(c, steps, j));
    }
  }

  // ---- Linearizability at the leader -------------------------------------------------------------

  /** At every moment the leader's store is the register its log describes. */
  lemma {:induction false} LeaderIsTheRegister(c: Config, steps: seq<Step>, i: nat, key: string)
    requires i <= |steps|
    ensures Lookup(At(c, steps, i).stores[0], key) == Register(At(c, steps, i).log, key)
  {
    InvAlways(c, steps, i);
    var s := At(c, steps, i);
    RegisterIsNewest(s.log, key);
    assert StoreKnown(s.log, s.stores[0]);
    if key in s.stores[0] {
      SameVersionSameEntry(s.log, key, s.stores[0][key], Register(s.log, key).value);
    }
  }

  /** Read `g` begins at step `i`. */
  ghost predicate Begins(c: Config, steps: seq<Step>, i: nat, g: nat) {
    && i < |steps|
    && steps[i].ClientGet? && steps[i].node <= c.followers && steps[i].key != ""
    && |At(c, steps, i).gets| == g
  }

  /** Read `g` has its answer after `j` steps. */
  ghost predicate AnsweredBy(c: Config, steps: seq<Step>, j: nat, g: nat) {
    && j <= |steps|
    && g < |At(c, steps, j).gets|
    && At(c, steps, j).gets[g].outcome.Answered?
  }

  lemma AnsweredAfterBegin(c: Config, steps: seq<Step>, i: nat, j: nat, g: nat)
    requires Begins(c, steps, i, g) && AnsweredBy(c, steps, j, g)
    ensures i < j
  {
    if j <= i {
      NothingIsTakenBack(c, steps, j, i);
    }
  }

  lemma BegunGet(c: Config, steps: seq<Step>, i: nat, g: nat)
    requires Begins(c, steps, i, g)
    ensures var s, t := At(c, steps, i), At(c, steps, i + 1);
            g < |t.gets| && t.gets[g].key == steps[i].key && t.gets[g].node == steps[i].node
            && (steps[i].node == 0 ==> t.gets[g].local == Lookup(s.stores[0], steps[i].key))
  {
  }

  lemma BeginsBeforeAnswer(c: Config, steps: seq<Step>, i: nat, j: nat, g: nat)
    requires Begins(c, steps, i, g) && AnsweredBy(c, steps, j, g)
    ensures i < j
    ensures At(c, steps, j).gets[g].key == steps[i].key
    ensures At(c, steps, j).gets[g].node == steps[i].node
    ensures steps[i].node == 0 ==>
              At(c, steps, j).gets[g].local == Lookup(At(c, steps, i).stores[0], steps[i].key)
  {
    hide Apply;
    AnsweredAfterBegin(c, steps, i, j, g);
    BegunGet(c, steps, i, g);
    NothingIsTakenBack(c, steps, i + 1, j);
    assert GetGrows(At(c, steps, i + 1).gets[g], At(c, steps, j).gets[g]);
  }

  /** Linearizability of the leader: a read that began when the log held |log_i| writes and was answered
      when it held |log_j| fits into the order of the writes at a place between the two. Writes that
      finished before the read began lie before that place, writes that start after its answer lie behind
      it, and two reads that do not overlap take their places in order. This holds for every R, whichever
      followers answer, late or never, and for a 404 as well. */
  lemma {:induction false} LeaderReadsLinearize(c: Config, steps: seq<Step>, i: nat, j: nat, g: nat) returns (at: nat)
    requires Begins(c, steps, i, g) && AnsweredBy(c, steps, j, g)
    requires At(c, steps, j).gets[g].node == 0
    ensures At(c, steps, i).log <= At(c, steps, j).log
    ensures |At(c, steps, i).log| <= at <= |At(c, steps, j).log|
    ensures At(c, steps, j).gets[g].outcome.entry == Register(At(c, steps, j).log[..at], steps[i].key)
  {
    hide Apply;
    var s, t := At(c, steps, i), At(c, steps, j);
    BeginsBeforeAnswer(c, steps, i, j, g);
    NothingIsTakenBack(c, steps, i, j);
    InvAlways(c, steps, i);
    InvAlways(c, steps, j);
    LeaderIsTheRegister(c, steps, i, steps[i].key);
    var get := t.gets[g];
    assert GetInv(t.log, get);
    assert t.log[..|s.log|] == s.log;
    if get.outcome.entry.None? {
      at := |s.log|;
    } else {
      at := PlaceOf(t.log, get.key, |s.log|, get.outcome.entry.value);
    }
  }

  /** A write takes its place in the register during its own call, whatever its response turns out to be. */
  lemma WritesTakeTheirPlace(c: Config, steps: seq<Step>, i: nat)
    requires i < |steps| && steps[i].ClientSet? && steps[i].key != ""
    ensures var s, t := At(c, steps, i), At(c, steps, i + 1);
            && |t.log| == |s.log| + 1 && t.log[..|s.log|] == s.log
            && t.log[|s.log|].version == Count(s.log, steps[i].key) + 1
            && Register(t.log, steps[i].key) == Some(Entry(steps[i].value, Count(s.log, steps[i].key) + 1))
  {
    InvAlways(c, steps, i);
    var s := At(c, steps, i);
    assert LeaderNewest(s.log, s.stores[0]);
    assert Ver(s.stores[0], steps[i].key) == Count(s.log, steps[i].key);
    assert steps[i].key in s.stores[0] <==> Count(s.log, steps[i].key) > 0;
  }

  /** Corollary: once a leader read has answered, a later one never answers 404 or an older version. */
  lemma {:induction false} LeaderReadsNeverGoBack(c: Config, steps: seq<Step>, i: nat, j: nat, g: nat,
    i': nat, j': nat, g': nat)
    requires Begins(c, steps, i, g) && AnsweredBy(c, steps, j, g) && At(c, steps, j).gets[g].node == 0
    requires Begins(c, steps, i', g') && AnsweredBy(c, steps, j', g') && At(c, steps, j').gets[g'].node == 0
    requires j <= i' && steps[i].key == steps[i'].key
    requires At(c, steps, j).gets[g].outcome.entry.Some?
    ensures At(c, steps, j').gets[g'].outcome.entry.Some?
    ensures At(c, steps, j').gets[g'].outcome.entry.value.version
            >= At(c, steps, j).gets[g].outcome.entry.value.version
  {
    var early, late := At(c, steps, j).log, At(c, steps, j').log;
    var at := LeaderReadsLinearize(c, steps, i, j, g);
    var at' := LeaderReadsLinearize(c, steps, i', j', g');
    assert early <= At(c, steps, i').log by {
      NothingIsTakenBack(c, steps, j, i');
    }
    assert AllNumbered(late) by {
      InvAlways(c, steps, j');
    }
    assert early[..at] == late[..at];
    RegisterClimbs(late, steps[i].key, at, at');
  }
}
