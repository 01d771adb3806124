/** The load generator's stale flags, explained by the protocol. */
module LeaderStale {
  import opened Basics
  import opened Options
  import opened Replica
  import opened WriteLog
  import opened LeaderProtocol
  import opened LeaderInvariant
  import opened LeaderTheorems
  import opened LeaderQuorum
  import Tracker

  ghost predicate CheckedBy(c: Config, steps: seq<Step>, j: nat, g: nat) {
    j <= |steps| && g < |At(c, steps, j).gets| && At(c, steps, j).gets[g].stale.Some?
  }

  /** What the check of read `g` at step `m` compared. */
  ghost predicate ComparedAt(c: Config, steps: seq<Step>, m: nat, key: string, version: int, flag: bool) {
    m <= |steps| && (flag <==> Tracker.Stale(At(c, steps, m).tracked, key, version))
  }

  lemma CheckReadsTracker(c: Config, s: Cluster, step: Step, g: nat)
    requires Shape(c, s) && g < |s.gets| && s.gets[g].stale.None?
    requires Apply(c, s, step).gets[g].stale.Some?
    ensures s.gets[g].outcome.Answered? && s.gets[g].outcome.entry.Some?
    ensures Apply(c, s, step).gets[g].outcome == s.gets[g].outcome
    ensures Apply(c, s, step).gets[g].stale.value
         == Tracker.Stale(s.tracked, s.gets[g].key, s.gets[g].outcome.entry.value.version)
  {
  }

  lemma CheckStays(c: Config, steps: seq<Step>, m: nat, j: nat, g: nat)
    requires CheckedBy(c, steps, m, g) && m <= j <= |steps|
    ensures CheckedBy(c, steps, j, g)
    ensures At(c, steps, j).gets[g].stale == At(c, steps, m).gets[g].stale
  {
    hide Apply;
    NothingIsTakenBack(c, steps, m, j);
    assert GetGrows(At(c, steps, m).gets[g], At(c, steps, j).gets[g]);
  }

  lemma NotCheckedAtStart(c: Config, steps: seq<Step>, i: nat, g: nat)
    requires Begins(c, steps, i, g)
    ensures !CheckedBy(c, steps, i + 1, g)
  {
  }

  lemma NotCheckedBeforeStart(c: Config, steps: seq<Step>, i: nat, j: nat, g: nat)
    requires Begins(c, steps, i, g) && CheckedBy(c, steps, j, g)
    ensures i + 1 < j
  {
    NotCheckedAtStart(c, steps, i, g);
    if j <= i {
      NothingIsTakenBack(c, steps, j, i);
    }
  }

  lemma CheckInOneStep(c: Config, steps: seq<Step>, i: nat, m: nat, g: nat)
    requires Begins(c, steps, i, g) && i < m < |steps|
    requires !CheckedBy(c, steps, m, g) && CheckedBy(c, steps, m + 1, g)
    ensures AnsweredBy(c, steps, m, g) && At(c, steps, m).gets[g].outcome.entry.Some?
    ensures ComparedAt(c, steps, m, steps[i].key, At(c, steps, m).gets[g].outcome.entry.value.version,
                       At(c, steps, m + 1).gets[g].stale.value)
  {
    SameReadLater(c, steps, i, m, g);
    CheckReadsTracker(c, At(c, steps, m), steps[m], g);
  }

  lemma CheckSeenLater(c: Config, steps: seq<Step>, i: nat, m: nat, j: nat, g: nat)
    requires Begins(c, steps, i, g) && i < m < j <= |steps|
    requires !CheckedBy(c, steps, m, g) && CheckedBy(c, steps, m + 1, g)
    ensures CheckedBy(c, steps, j, g) && AnsweredBy(c, steps, m, g) && AnsweredBy(c, steps, j, g)
    ensures At(c, steps, m).gets[g].outcome == At(c, steps, j).gets[g].outcome
    ensures At(c, steps, j).gets[g].outcome.entry.Some?
    ensures ComparedAt(c, steps, m, steps[i].key, At(c, steps, j).gets[g].outcome.entry.value.version,
                       At(c, steps, j).gets[g].stale.value)
  {
    hide Apply;
    CheckInOneStep(c, steps, i, m, g);
    assert AnsweredBy(c, steps, j, g) && At(c, steps, j).gets[g].outcome == At(c, steps, m).gets[g].outcome by {
      AnswerStays(c, steps, m, j, g);
    }
    assert CheckedBy(c, steps, j, g) && At(c, steps, j).gets[g].stale == At(c, steps, m + 1).gets[g].stale by {
      CheckStays(c, steps, m + 1, j, g);
    }
  }

  /** The moment of the check. */
  lemma CheckMoment(c: Config, steps: seq<Step>, i: nat, j: nat, g: nat) returns (m: nat)
    requires Begins(c, steps, i, g) && CheckedBy(c, steps, j, g)
    ensures i < m < j
    ensures AnsweredBy(c, steps, m, g) && AnsweredBy(c, steps, j, g)
    ensures At(c, steps, m).gets[g].outcome == At(c, steps, j).gets[g].outcome
    ensures At(c, steps, j).gets[g].outcome.entry.Some?
    ensures ComparedAt(c, steps, m, steps[i].key, At(c, steps, j).gets[g].outcome.entry.value.version,
                       At(c, steps, j).gets[g].stale.value)
  {
    NotCheckedBeforeStart(c, steps, i, j, g);
    NotCheckedAtStart(c, steps, i, g);
    m := StepThatEstablishes((k: nat) => CheckedBy(c, steps, k, g), i + 1, j);
    CheckSeenLater(c, steps, i, m, j, g);
  }

  // ---- What the tracker knows --------------------------------------------------------------------

  ghost predicate IsCreated(s: Cluster, p: nat) {
    p < |s.progress| && s.progress[p].status.Responded? && s.progress[p].status.created
  }

  /** By moment `m` the load generator has recorded write `p`, which had been answered 201. */
  ghost predicate RecordedBy(c: Config, steps: seq<Step>, m: nat, p: nat) {
    && m <= |steps|
    && exists t :: 0 <= t < m && steps[t] == RecordWrite(p) && IsCreated(At(c, steps, t), p)
  }

  lemma CreatedStays(c: Config, steps: seq<Step>, m: nat, j: nat, p: nat)
    requires m <= j <= |steps| && p < |At(c, steps, m).log| && IsCreated(At(c, steps, m), p)
    ensures p < |At(c, steps, j).log| && At(c, steps, j).log[p] == At(c, steps, m).log[p]
    ensures IsCreated(At(c, steps, j), p)
  {
    NothingIsTakenBack(c, steps, m, j);
    assert ProgressGrows(At(c, steps, m).progress[p], At(c, steps, j).progress[p]);
  }

  lemma RecordingTracks(c: Config, s: Cluster, p: nat)
    requires Shape(c, s) && IsCreated(s, p)
    ensures Tracker.Expected(Apply(c, s, RecordWrite(p)).tracked, s.log[p].key) >= s.log[p].version
  {
  }

  /** The tracker expects at least every recorded version. */
  lemma RecordedIsTracked(c: Config, steps: seq<Step>, m: nat, p: nat)
    requires RecordedBy(c, steps, m, p)
    ensures p < |At(c, steps, m).log| && IsCreated(At(c, steps, m), p)
    ensures Tracker.Expected(At(c, steps, m).tracked, At(c, steps, m).log[p].key) >= At(c, steps, m).log[p].version
  {
    hide Apply;
    var t :| 0 <= t < m && steps[t] == RecordWrite(p) && IsCreated(At(c, steps, t), p);
    CreatedStays(c, steps, t, m, p);
    RecordingTracks(c, At(c, steps, t), p);
    TrackerOnlyClimbs(c, steps, t + 1, m, At(c, steps, t).log[p].key);
  }

  lemma TrackerOnlyClimbs(c: Config, steps: seq<Step>, i: nat, m: nat, key: string)
    requires i <= m <= |steps|
    ensures Tracker.Expected(At(c, steps, i).tracked, key) <= Tracker.Expected(At(c, steps, m).tracked, key)
  {
    NothingIsTakenBack(c, steps, i, m);
  }

  lemma TrackedStep(c: Config, s: Cluster, step: Step, key: string)
    requires Shape(c, s) && key in Apply(c, s, step).tracked
    ensures if key in s.tracked && s.tracked[key] == Apply(c, s, step).tracked[key] then true
            else step.RecordWrite? && IsCreated(s, step.write) && s.log[step.write].key == key
                 && s.log[step.write].version == Apply(c, s, step).tracked[key]
  {
  }

  /** What the tracker expects of a key is the version of a recorded write. */
  lemma {:induction false} TrackedWasRecorded(c: Config, steps: seq<Step>, i: nat, key: string) returns (p: nat)
    requires i <= |steps| && key in At(c, steps, i).tracked
    ensures RecordedBy(c, steps, i, p)
    ensures p < |At(c, steps, i).log| && At(c, steps, i).log[p].key == key
    ensures At(c, steps, i).log[p].version == At(c, steps, i).tracked[key]
  {
    hide Apply;
    assert i > 0;
    var s, step := At(c, steps, i - 1), steps[i - 1];
    TrackedStep(c, s, step, key);
    if key in s.tracked && s.tracked[key] == At(c, steps, i).tracked[key] {
      p := TrackedWasRecorded(c, steps, i - 1, key);
    } else {
      p := step.write;
      assert IsCreated(At(c, steps, i - 1), p);
    }
    NothingIsTakenBack(c, steps, i - 1, i);
  }

  // ---- Exactly when a read is flagged ------------------------------------------------------------

  /** Read `g` is answered at step `a`. */
  ghost predicate AnswersAt(c: Config, steps: seq<Step>, a: nat, g: nat) {
    a < |steps| && !AnsweredBy(c, steps, a, g) && AnsweredBy(c, steps, a + 1, g)
  }

  /** Read `g` is checked at step `m`. */
  ghost predicate ChecksAt(c: Config, steps: seq<Step>, m: nat, g: nat) {
    m < |steps| && !CheckedBy(c, steps, m, g) && CheckedBy(c, steps, m + 1, g)
  }

  /** Write `p` takes its place in the log at step `s`. */
  ghost predicate LogsAt(c: Config, steps: seq<Step>, s: nat, p: nat) {
    s < |steps| && |At(c, steps, s).log| <= p < |At(c, steps, s + 1).log|
  }

  /** By moment `m` a write of the key newer than `version` was recorded. */
  ghost predicate NewerRecorded(c: Config, steps: seq<Step>, m: nat, key: string, version: int, p: nat) {
    && RecordedBy(c, steps, m, p)
    && p < |At(c, steps, m).log|
    && At(c, steps, m).log[p].key == key && At(c, steps, m).log[p].version > version
  }

  lemma AnswersArePositive(c: Config, steps: seq<Step>, j: nat, g: nat)
    requires AnsweredBy(c, steps, j, g) && At(c, steps, j).gets[g].outcome.entry.Some?
    ensures At(c, steps, j).gets[g].outcome.entry.value.version >= 1
  {
    InvAlways(c, steps, j);
    var s := At(c, steps, j);
    assert GetInv(s.log, s.gets[g]);
    KnownVersions(s.log, s.gets[g].key, s.gets[g].outcome.entry.value);
  }

  lemma StaleMeansNewerRecorded(c: Config, steps: seq<Step>, m: nat, key: string, version: int)
    requires m <= |steps| && version >= 1
    ensures Tracker.Stale(At(c, steps, m).tracked, key, version)
       <==> exists p: nat :: NewerRecorded(c, steps, m, key, version, p)
  {
    hide Apply, At, RecordedBy;
    if Tracker.Stale(At(c, steps, m).tracked, key, version) {
      var p := TrackedWasRecorded(c, steps, m, key);
      assert NewerRecorded(c, steps, m, key, version, p);
    }
    if p: nat :| NewerRecorded(c, steps, m, key, version, p) {
      RecordedIsTracked(c, steps, m, p);
    }
  }

  /** A read at any node is flagged exactly when, at the check, a newer write of its key has been answered 201
      and recorded. */
  lemma StaleFlagIsExact(c: Config, steps: seq<Step>, i: nat, m: nat, g: nat)
    requires Begins(c, steps, i, g) && ChecksAt(c, steps, m, g)
    ensures i < m && AnsweredBy(c, steps, m, g) && At(c, steps, m).gets[g].outcome.entry.Some?
    ensures At(c, steps, m + 1).gets[g].stale == Some(true)
       <==> exists p: nat ::
              NewerRecorded(c, steps, m, steps[i].key, At(c, steps, m).gets[g].outcome.entry.value.version, p)
  {
    hide Apply, At;
    NotCheckedBeforeStart(c, steps, i, m + 1, g);
    CheckInOneStep(c, steps, i, m, g);
    AnswersArePositive(c, steps, m, g);
    StaleMeansNewerRecorded(c, steps, m, steps[i].key, At(c, steps, m).gets[g].outcome.entry.value.version);
  }

  /** The leader's answer is at least the version it held when the read began. */
  lemma AnswerNotOlderThanStart(c: Config, steps: seq<Step>, i: nat, m: nat, g: nat)
    requires Begins(c, steps, i, g) && AnsweredBy(c, steps, m, g) && steps[i].node == 0
    requires At(c, steps, m).gets[g].outcome.entry.Some?
    ensures At(c, steps, m).gets[g].outcome.entry.value.version >= Count(At(c, steps, i).log, steps[i].key)
  {
    BeginsBeforeAnswer(c, steps, i, m, g);
    InvAlways(c, steps, i);
    InvAlways(c, steps, m);
    var s, t := At(c, steps, i), At(c, steps, m);
    assert GetInv(t.log, t.gets[g]);
    assert Ver(s.stores[0], steps[i].key) == Count(s.log, steps[i].key);
    KnownVersions(t.log, steps[i].key, t.gets[g].outcome.entry.value);
  }

  lemma EarlyWriteCounted(c: Config, steps: seq<Step>, i: nat, m: nat, p: nat)
    requires i <= m <= |steps| && p < |At(c, steps, i).log|
    ensures p < |At(c, steps, m).log|
    ensures At(c, steps, m).log[p].version <= Count(At(c, steps, i).log, At(c, steps, m).log[p].key)
  {
    NothingIsTakenBack(c, steps, i, m);
    InvAlways(c, steps, i);
    var log := At(c, steps, i).log;
    assert FromLog(log, log[p].key, Entry(log[p].value, log[p].version));
    KnownVersions(log, log[p].key, Entry(log[p].value, log[p].version));
  }

  lemma AnswerBeforeCheck(c: Config, steps: seq<Step>, i: nat, a: nat, m: nat, g: nat)
    requires Begins(c, steps, i, g) && AnswersAt(c, steps, a, g) && AnsweredBy(c, steps, m, g)
    ensures i < a < m
  {
    hide Apply, At;
    AnsweredAfterBegin(c, steps, i, a + 1, g);
    PendingJustBegun(c, steps, i, g);
    if m <= a {
      AnswerStays(c, steps, m, a, g);
    }
  }

  lemma LoggedBetween(c: Config, steps: seq<Step>, i: nat, m: nat, p: nat) returns (s: nat)
    requires i < m <= |steps| && |At(c, steps, i).log| <= p < |At(c, steps, m).log|
    ensures i <= s < m && LogsAt(c, steps, s, p)
  {
    s := StepThatEstablishes((k: nat) => k <= |steps| && p < |At(c, steps, k).log|, i, m);
  }

  lemma LogLengthsOrdered(c: Config, steps: seq<Step>, i: nat, j: nat)
    requires i <= j <= |steps|
    ensures |At(c, steps, i).log| <= |At(c, steps, j).log|
  {
    NothingIsTakenBack(c, steps, i, j);
  }

  lemma ReadsLogNothing(c: Config, s: Cluster, step: Step)
    requires Shape(c, s) && !step.ClientSet?
    ensures Apply(c, s, step).log == s.log
  {
  }

  /** A leader read flagged stale was overtaken, not served old data: for every write it is flagged for, SetLocal
      ran after the read began and before the check; it ran before the answer exactly when the log already held
      the write at the answer. */
  lemma StaleLeaderReadWasOvertaken(c: Config, steps: seq<Step>, i: nat, a: nat, m: nat,
    g: nat, p: nat)
    returns (s: nat)
    requires Begins(c, steps, i, g) && steps[i].node == 0
    requires AnswersAt(c, steps, a, g) && ChecksAt(c, steps, m, g)
    requires AnsweredBy(c, steps, m, g) && At(c, steps, m).gets[g].outcome.entry.Some?
    requires NewerRecorded(c, steps, m, steps[i].key, At(c, steps, m).gets[g].outcome.entry.value.version, p)
    ensures i < a < m && i < s < m && LogsAt(c, steps, s, p)
    ensures s < a <==> p < |At(c, steps, a).log|
  {
    hide Apply, At, RecordedBy;
    AnswerBeforeCheck(c, steps, i, a, m, g);
    AnswerNotOlderThanStart(c, steps, i, m, g);
    if p < |At(c, steps, i).log| {
      EarlyWriteCounted(c, steps, i, m, p);
    }
    s := LoggedBetween(c, steps, i, m, p);
    NotTheReadItself(c, steps, i, s, p);
    if s < a {
      LogLengthsOrdered(c, steps, s + 1, a);
    } else {
      LogLengthsOrdered(c, steps, a, s);
    }
  }

  lemma NotTheReadItself(c: Config, steps: seq<Step>, i: nat, s: nat, p: nat)
    requires i < |steps| && steps[i].ClientGet? && LogsAt(c, steps, s, p)
    ensures s != i
  {
    if s == i {
      ReadsLogNothing(c, At(c, steps, i), steps[i]);
    }
  }

  /** With W = N a flag at any node, leader or follower, is always for a write that was still without its 201 when
      the read began. */
  lemma FlagsAreForConcurrentWrites(c: Config, steps: seq<Step>, i: nat, m: nat, g: nat, p: nat)
    requires c.w > c.followers && Begins(c, steps, i, g) && AnsweredBy(c, steps, m, g)
    requires At(c, steps, m).gets[g].outcome.entry.Some?
    requires NewerRecorded(c, steps, m, steps[i].key, At(c, steps, m).gets[g].outcome.entry.value.version, p)
    ensures !CreatedBy(c, steps, i, p)
  {
    hide Apply, At, RecordedBy;
    if CreatedBy(c, steps, i, p) {
      BeginsBeforeAnswer(c, steps, i, m, g);
      NothingIsTakenBack(c, steps, i, m);
      if steps[i].node == 0 {
        AnswerNotOlderThanStart(c, steps, i, m, g);
        EarlyWriteCounted(c, steps, i, m, p);
      } else {
        FollowerFreshWhenAllAck(c, steps, i, p, i, m, g);
      }
    }
  }

  /** For a read at any node: an answer older than a version that was already recorded when the read began is
      always flagged. */
  lemma {:induction false} OldAnswerIsAlwaysFlagged(c: Config, steps: seq<Step>, i: nat, j: nat, g: nat)
    requires Begins(c, steps, i, g) && CheckedBy(c, steps, j, g)
    requires At(c, steps, j).gets[g].outcome.Answered? && At(c, steps, j).gets[g].outcome.entry.Some?
    requires At(c, steps, j).gets[g].outcome.entry.value.version
             < Tracker.Expected(At(c, steps, i).tracked, steps[i].key)
    ensures At(c, steps, j).gets[g].stale == Some(true)
  {
    hide Apply, At;
    var m := CheckMoment(c, steps, i, j, g);
    TrackerOnlyClimbs(c, steps, i, m, steps[i].key);
    AnswersArePositive(c, steps, j, g);
  }
}
