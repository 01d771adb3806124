/** One batch of the queue processor: a loop that spawns a goroutine per message behind a counting
    semaphore, a payment semaphore of size one, and a wait group. Every schedule is a list of steps. */
module WorkerPool {
  /** A goroutine, from not yet spawned to done. `Paid` still holds the payment token, `Deleted` has tried to
      delete its message, `SlotFree` has given its worker slot back and has only wg.Done left. */
  datatype Phase = NotSpawned | Started | AwaitsPayment | Paying | Paid | Deleting | Deleted | SlotFree | Done

  /** The batch loop: taking a slot for message `next`, spawning it, or past wg.Wait. */
  datatype Main = Loop(next: nat) | Spawning(next: nat) | Returned

  /** `wellFormed[i]`: message i parses into an order. */
  datatype Batch = Batch(numWorkers: nat, wellFormed: seq<bool>)

  /** `sem` and `pay` are the fill levels of the two channels, `group` the wait group's counter; `payments`
      and `deletes` count what each goroutine did. */
  datatype Pool = Pool(main: Main, sem: nat, pay: nat, group: nat, phases: seq<Phase>,
                       payments: seq<nat>, deletes: seq<nat>)

  datatype Step = MainStep | WorkerStep(worker: nat)

  function Init(b: Batch): Pool {
    var n := |b.wellFormed|;
    Pool(Loop(0), 0, 0, 0, seq(n, _ => NotSpawned), seq(n, _ => 0), seq(n, _ => 0))
  }

  predicate Shape(b: Batch, s: Pool) {
    && |s.phases| == |s.payments| == |s.deletes| == |b.wellFormed|
    && (s.main.Loop? ==> s.main.next <= |b.wellFormed|)
    && (s.main.Spawning? ==> s.main.next < |b.wellFormed|)
  }

  /** A full channel blocks its sender, an empty one its receiver, a positive counter blocks wg.Wait. */
  predicate Enabled(b: Batch, s: Pool, step: Step)
    requires Shape(b, s)
  {
    match step
    case MainStep =>
      (match s.main
       case Loop(i) => if i < |b.wellFormed| then s.sem < b.numWorkers else s.group == 0
       case Spawning(_) => true
       case Returned => false)
    case WorkerStep(i) =>
      i < |s.phases|
      && (match s.phases[i]
          case NotSpawned => false
          case AwaitsPayment => s.pay < 1
          case Paid => s.pay > 0
          case Deleted => s.sem > 0
          case SlotFree => s.group > 0
          case Done => false
          case _ => true)
  }

  function Next(b: Batch, s: Pool, step: Step): (t: Pool)
    requires Shape(b, s)
    ensures Shape(b, t)
  {
    if !Enabled(b, s, step) then s else
    match step
    case MainStep =>
      (match s.main
       case Loop(i) =>
         if i < |b.wellFormed| then s.(main := Spawning(i), sem := s.sem + 1) else s.(main := Returned)
       case Spawning(i) =>
         s.(main := Loop(i + 1), group := s.group + 1, phases := s.phases[i := Started])
       case Returned => s)
    case WorkerStep(i) =>
      (match s.phases[i]
       case Started => s.(phases := s.phases[i := if b.wellFormed[i] then AwaitsPayment else Deleting])
       case AwaitsPayment => s.(phases := s.phases[i := Paying], pay := s.pay + 1)
       case Paying => s.(phases := s.phases[i := Paid], payments := s.payments[i := s.payments[i] + 1])
       case Paid => s.(phases := s.phases[i := Deleting], pay := s.pay - 1)
       case Deleting => s.(phases := s.phases[i := Deleted], deletes := s.deletes[i := s.deletes[i] + 1])
       case Deleted => s.(phases := s.phases[i := SlotFree], sem := s.sem - 1)
       case SlotFree => s.(phases := s.phases[i := Done], group := s.group - 1)
       case _ => s)
  }

  function At(b: Batch, steps: seq<Step>, i: nat): (s: Pool)
    requires i <= |steps|
    ensures Shape(b, s)
  {
    if i == 0 then Init(b) else Next(b, At(b, steps, i - 1), steps[i - 1])
  }

  // ---- Counting goroutines by phase --------------------------------------------------------------

  datatype Kind = Slot | Token | Member | Remaining

  /** What a goroutine in a phase holds of a resource, or how many steps it has left. */
  function Weight(kind: Kind, p: Phase): nat {
    match kind
    case Slot => if p.NotSpawned? || p.SlotFree? || p.Done? then 0 else 1
    case Token => if p.Paying? || p.Paid? then 1 else 0
    case Member => if p.NotSpawned? || p.Done? then 0 else 1
    case Remaining =>
      match p
      case NotSpawned => 8
      case Started => 7
      case AwaitsPayment => 6
      case Paying => 5
      case Paid => 4
      case Deleting => 3
      case Deleted => 2
      case SlotFree => 1
      case Done => 0
  }

  function Sum(kind: Kind, ps: seq<Phase>): nat {
    if ps == [] then 0 else Sum(kind, ps[..|ps| - 1]) + Weight(kind, ps[|ps| - 1])
  }

  lemma {:induction false} SumUpdate(kind: Kind, ps: seq<Phase>, i: nat, p: Phase)
    requires i < |ps|
    ensures Sum(kind, ps[i := p]) == Sum(kind, ps) - Weight(kind, ps[i]) + Weight(kind, p)
  {
    var init := ps[..|ps| - 1];
    if i == |ps| - 1 {
      assert ps[i := p][..|ps| - 1] == init;
    } else {
      assert ps[i := p][..|ps| - 1] == init[i := p];
      SumUpdate(kind, init, i, p);
    }
  }

  lemma {:induction false} SumAtLeast(kind: Kind, ps: seq<Phase>, i: nat)
    requires i < |ps|
    ensures Sum(kind, ps) >= Weight(kind, ps[i])
  {
    if i == |ps| - 1 {
    } else {
      SumAtLeast(kind, ps[..|ps| - 1], i);
    }
  }

  lemma {:induction false} SumPositive(kind: Kind, ps: seq<Phase>) returns (i: nat)
    requires Sum(kind, ps) > 0
    ensures i < |ps| && Weight(kind, ps[i]) > 0
  {
    if Weight(kind, ps[|ps| - 1]) > 0 {
      i := |ps| - 1;
    } else {
      i := SumPositive(kind, ps[..|ps| - 1]);
    }
  }

  lemma {:induction false} SumOfUnspawned(kind: Kind, n: nat)
    ensures Sum(kind, seq(n, _ => NotSpawned)) == n * Weight(kind, NotSpawned)
  {
    if n == 0 {
    } else {
      assert seq(n, _ => NotSpawned)[..n - 1] == seq(n - 1, _ => NotSpawned);
      SumOfUnspawned(kind, n - 1);
    }
  }

  // ---- The invariant -----------------------------------------------------------------------------

  /** The three counters are exactly what the goroutines and the loop hold. */
  predicate Counters(b: Batch, s: Pool) {
    && s.sem == Sum(Slot, s.phases) + (if s.main.Spawning? then 1 else 0)
    && s.pay == Sum(Token, s.phases)
    && s.group == Sum(Member, s.phases)
    && s.sem <= b.numWorkers
    && s.pay <= 1
  }

  function Spawned(b: Batch, main: Main): nat {
    if main.Returned? then |b.wellFormed| else main.next
  }

  /** What the record of goroutine `i` says in each phase: paid before it deletes, once, and only if its
      message is an order; one attempt to delete. */
  predicate RecordFits(b: Batch, s: Pool, i: nat)
    requires Shape(b, s) && i < |s.phases|
  {
    var p := s.phases[i];
    && (p.NotSpawned? <==> i >= Spawned(b, s.main))
    && (p.AwaitsPayment? || p.Paying? || p.Paid? ==> b.wellFormed[i])
    && (s.payments[i] == if b.wellFormed[i] && (p.Paid? || p.Deleting? || p.Deleted? || p.SlotFree? || p.Done?)
                         then 1 else 0)
    && (s.deletes[i] == if p.Deleted? || p.SlotFree? || p.Done? then 1 else 0)
  }

  ghost predicate Inv(b: Batch, s: Pool) {
    && Shape(b, s)
    && Counters(b, s)
    && (forall i :: 0 <= i < |s.phases| ==> RecordFits(b, s, i))
    && (s.main.Returned? ==> s.group == 0)
  }

  lemma InvInit(b: Batch)
    ensures Inv(b, Init(b))
  {
    SumOfUnspawned(Slot, |b.wellFormed|);
    SumOfUnspawned(Token, |b.wellFormed|);
    SumOfUnspawned(Member, |b.wellFormed|);
  }

  /** The phase an enabled step gives to the goroutine it moves. */
  function Moved(b: Batch, s: Pool, step: Step): nat
    requires Shape(b, s)
  {
    if step.WorkerStep? then step.worker else if s.main.Spawning? then s.main.next else 0
  }

  lemma StepCounts(b: Batch, s: Pool, step: Step, kind: Kind)
    requires Shape(b, s) && Enabled(b, s, step) && (step.WorkerStep? || s.main.Spawning?)
    ensures Moved(b, s, step) < |s.phases|
    ensures var i, t := Moved(b, s, step), Next(b, s, step);
            Sum(kind, t.phases) == Sum(kind, s.phases) - Weight(kind, s.phases[i]) + Weight(kind, t.phases[i])
  {
    var i, t := Moved(b, s, step), Next(b, s, step);
    assert t.phases == s.phases[i := t.phases[i]];
    SumUpdate(kind, s.phases, i, t.phases[i]);
  }

  lemma CountersStep(b: Batch, s: Pool, step: Step)
    requires Inv(b, s) && Enabled(b, s, step)
    ensures Counters(b, Next(b, s, step))
  {
    var t := Next(b, s, step);
    if step.WorkerStep? || s.main.Spawning? {
      StepCounts(b, s, step, Slot);
      StepCounts(b, s, step, Token);
      StepCounts(b, s, step, Member);
      assert RecordFits(b, s, Moved(b, s, step));
    }
  }

  lemma RecordStep(b: Batch, s: Pool, step: Step, i: nat)
    requires Shape(b, s) && Enabled(b, s, step) && i < |s.phases| && RecordFits(b, s, i)
    requires s.main.Spawning? ==> RecordFits(b, s, s.main.next)
    ensures RecordFits(b, Next(b, s, step), i)
  {
  }

  lemma InvStep(b: Batch, s: Pool, step: Step)
    requires Inv(b, s)
    ensures Inv(b, Next(b, s, step))
  {
    if Enabled(b, s, step) {
      var t := Next(b, s, step);
      CountersStep(b, s, step);
      forall i | 0 <= i < |t.phases|
        ensures RecordFits(b, t, i)
      {
        RecordStep(b, s, step, i);
      }
      if t.main.Returned? && step.WorkerStep? {
        assert s.group == 0;
        SumAtLeast(Member, s.phases, step.worker);
      }
    }
  }

  lemma {:induction false} InvAlways(b: Batch, steps: seq<Step>, i: nat)
    requires i <= |steps|
    ensures Inv(b, At(b, steps, i))
  {
    if i == 0 {
      InvInit(b);
    } else {
      InvAlways(b, steps, i - 1);
      InvStep(b, At(b, steps, i - 1), steps[i - 1]);
    }
  }

  // ---- Limits ------------------------------------------------------------------------------------

  /** The messages in process: their goroutines run and have not given their slot back. */
  function InProcess(ps: seq<Phase>): set<nat> {
    set x: nat | x < |ps| && !ps[x].NotSpawned? && !ps[x].SlotFree? && !ps[x].Done?
  }

  /** The goroutines that hold the payment token. */
  function AtPayment(ps: seq<Phase>): set<nat> {
    set x: nat | x < |ps| && (ps[x].Paying? || ps[x].Paid?)
  }

  lemma OneMoreInProcess(ps: seq<Phase>)
    requires ps != []
    ensures |InProcess(ps)| == |InProcess(ps[..|ps| - 1])| + Weight(Slot, ps[|ps| - 1])
  {
    var n := |ps| - 1;
    assert InProcess(ps) == InProcess(ps[..n]) + (if Weight(Slot, ps[n]) == 1 then {n} else {});
  }

  lemma OneMoreAtPayment(ps: seq<Phase>)
    requires ps != []
    ensures |AtPayment(ps)| == |AtPayment(ps[..|ps| - 1])| + Weight(Token, ps[|ps| - 1])
  {
    var n := |ps| - 1;
    assert AtPayment(ps) == AtPayment(ps[..n]) + (if Weight(Token, ps[n]) == 1 then {n} else {});
  }

  lemma {:induction false} SumsCountGoroutines(ps: seq<Phase>)
    ensures Sum(Slot, ps) == |InProcess(ps)|
    ensures Sum(Token, ps) == |AtPayment(ps)|
  {
    hide Weight;
    if ps == [] {
      assert InProcess(ps) == {} && AtPayment(ps) == {};
    } else {
      SumsCountGoroutines(ps[..|ps| - 1]);
      OneMoreInProcess(ps);
      OneMoreAtPayment(ps);
    }
  }

  /** At every moment of every schedule at most `numWorkers` messages are in process and at most one goroutine holds
      the payment token. */
  lemma {:induction false} LimitsHold(b: Batch, steps: seq<Step>, i: nat)
    requires i <= |steps|
    ensures |InProcess(At(b, steps, i).phases)| <= b.numWorkers
    ensures |AtPayment(At(b, steps, i).phases)| <= 1
  {
    InvAlways(b, steps, i);
    SumsCountGoroutines(At(b, steps, i).phases);
  }

  /** Exactly who is blocked, by what the goroutines are doing: one waits for the payment while another holds the
      token, and nothing else keeps a running goroutine. The loop waits for a slot only while `numWorkers` messages
      are in process, and at wg.Wait only until all goroutines are done. */
  lemma BlockedExactly(b: Batch, steps: seq<Step>, i: nat)
    requires i <= |steps|
    ensures var s := At(b, steps, i);
            && (forall x :: 0 <= x < |s.phases| ==>
                  (Enabled(b, s, WorkerStep(x)) <==>
                   && !s.phases[x].NotSpawned? && !s.phases[x].Done?
                   && (s.phases[x].AwaitsPayment? ==> AtPayment(s.phases) == {})))
            && (s.main.Loop? && s.main.next < |b.wellFormed| ==>
                  (Enabled(b, s, MainStep) <==> |InProcess(s.phases)| < b.numWorkers))
            && (s.main.Loop? && s.main.next == |b.wellFormed| ==>
                  (Enabled(b, s, MainStep) <==> forall x :: 0 <= x < |s.phases| ==> s.phases[x].Done?))
            && (s.main.Spawning? ==> Enabled(b, s, MainStep))
  {
    InvAlways(b, steps, i);
    var s := At(b, steps, i);
    SumsCountGoroutines(s.phases);
    forall x | 0 <= x < |s.phases|
      ensures Enabled(b, s, WorkerStep(x)) <==>
              && !s.phases[x].NotSpawned? && !s.phases[x].Done?
              && (s.phases[x].AwaitsPayment? ==> AtPayment(s.phases) == {})
    {
      SumAtLeast(Slot, s.phases, x);
      SumAtLeast(Token, s.phases, x);
      SumAtLeast(Member, s.phases, x);
    }
    if s.main.Loop? && s.main.next == |b.wellFormed| {
      AllSpawnedAreMembers(b, s);
    }
  }

  lemma AllSpawnedAreMembers(b: Batch, s: Pool)
    requires Inv(b, s) && Spawned(b, s.main) == |b.wellFormed|
    ensures s.group == 0 <==> forall x :: 0 <= x < |s.phases| ==> s.phases[x].Done?
  {
    if s.group > 0 {
      var x := SumPositive(Member, s.phases);
      assert !s.phases[x].Done?;
    } else {
      forall x | 0 <= x < |s.phases|
        ensures s.phases[x].Done?
      {
        SumAtLeast(Member, s.phases, x);
        assert RecordFits(b, s, x);
      }
    }
  }

  // ---- Parallelism -------------------------------------------------------------------------------

  lemma {:induction false} LongerSchedule(b: Batch, steps: seq<Step>, more: seq<Step>, i: nat)
    requires i <= |steps| && steps <= more
    ensures At(b, more, i) == At(b, steps, i)
  {
    if i == 0 {
    } else {
      LongerSchedule(b, steps, more, i - 1);
    }
  }

  lemma OneMore(b: Batch, steps: seq<Step>, step: Step)
    ensures At(b, steps + [step], |steps| + 1) == Next(b, At(b, steps, |steps|), step)
  {
    LongerSchedule(b, steps, steps + [step], |steps|);
  }

  /** The loop has spawned the first `k` goroutines, and none of them has run yet. */
  predicate JustSpawned(b: Batch, s: Pool, k: nat) {
    && Shape(b, s) && s.main == Loop(k) && s.sem == k
    && forall x :: 0 <= x < |s.phases| ==> s.phases[x] == if x < k then Started else NotSpawned
  }

  lemma SpawnOneMore(b: Batch, s: Pool, k: nat)
    requires JustSpawned(b, s, k) && k < |b.wellFormed| && k < b.numWorkers
    ensures JustSpawned(b, Next(b, Next(b, s, MainStep), MainStep), k + 1)
  {
  }

  lemma NothingSpawned(b: Batch)
    ensures JustSpawned(b, Init(b), 0)
  {
  }

  lemma {:induction false} SpawnMany(b: Batch, k: nat) returns (steps: seq<Step>)
    requires k <= |b.wellFormed| && k <= b.numWorkers
    ensures JustSpawned(b, At(b, steps, |steps|), k)
  {
    hide Next, JustSpawned, Init;
    if k == 0 {
      steps := [];
      NothingSpawned(b);
    } else {
      steps := SpawnMany(b, k - 1);
      SpawnOneMore(b, At(b, steps, |steps|), k - 1);
      OneMore(b, steps, MainStep);
      OneMore(b, steps + [MainStep], MainStep);
      steps := steps + [MainStep] + [MainStep];
    }
  }

  /** The limit is reached: as many messages as there are workers, or all of a smaller batch, can be in process
      at once. */
  lemma AllWorkersCanBeBusy(b: Batch) returns (steps: seq<Step>)
    ensures |InProcess(At(b, steps, |steps|).phases)|
         == if b.numWorkers < |b.wellFormed| then b.numWorkers else |b.wellFormed|
  {
    var k := if b.numWorkers < |b.wellFormed| then b.numWorkers else |b.wellFormed|;
    steps := SpawnMany(b, k);
    InvAlways(b, steps, |steps|);
    SumsCountGoroutines(At(b, steps, |steps|).phases);
  }

  // ---- Progress ----------------------------------------------------------------------------------

  ghost predicate CanMove(b: Batch, s: Pool)
    requires Shape(b, s)
  {
    exists step :: Enabled(b, s, step)
  }

  lemma ActiveWorkersMove(b: Batch, s: Pool)
    requires Inv(b, s) && s.group > 0
    ensures CanMove(b, s)
  {
    var i := SumPositive(Member, s.phases);
    SumAtLeast(Slot, s.phases, i);
    SumAtLeast(Token, s.phases, i);
    if s.phases[i].AwaitsPayment? && s.pay > 0 {
      var j := SumPositive(Token, s.phases);
      assert Enabled(b, s, WorkerStep(j));
    } else {
      assert Enabled(b, s, WorkerStep(i));
    }
  }

  lemma SlotsNeedMembers(ps: seq<Phase>)
    ensures Sum(Slot, ps) <= Sum(Member, ps)
  {
    if ps == [] {
    } else {
      SlotsNeedMembers(ps[..|ps| - 1]);
    }
  }

  lemma NeverStuck(b: Batch, s: Pool)
    requires Inv(b, s) && !s.main.Returned? && (b.numWorkers >= 1 || |b.wellFormed| == 0)
    ensures CanMove(b, s)
  {
    if s.group > 0 {
      ActiveWorkersMove(b, s);
    } else {
      SlotsNeedMembers(s.phases);
      assert Enabled(b, s, MainStep);
    }
  }

  /** In every schedule, some step is possible until wg.Wait returns. */
  ghost predicate DeadlockFree(b: Batch) {
    forall steps: seq<Step>, i: nat :: i <= |steps| && !At(b, steps, i).main.Returned? ==> CanMove(b, At(b, steps, i))
  }

  /** Deadlock freedom holds exactly when there is at least one worker; NUM_WORKERS=0 is accepted and blocks
      on the first message of any batch. */
  lemma DeadlockFreeExactly(b: Batch)
    ensures DeadlockFree(b) <==> b.numWorkers >= 1 || b.wellFormed == []
  {
    if b.numWorkers >= 1 || b.wellFormed == [] {
      forall steps: seq<Step>, i: nat | i <= |steps| && !At(b, steps, i).main.Returned?
        ensures CanMove(b, At(b, steps, i))
      {
        InvAlways(b, steps, i);
        NeverStuck(b, At(b, steps, i));
      }
    } else {
      var nothing: seq<Step> := [];
      assert !At(b, nothing, 0).main.Returned? && !CanMove(b, At(b, nothing, 0));
    }
  }

  function Measure(b: Batch, s: Pool): nat
    requires Shape(b, s)
  {
    Sum(Remaining, s.phases)
    + (match s.main
       case Loop(i) => 2 * (|b.wellFormed| - i) + 1
       case Spawning(i) => 2 * (|b.wellFormed| - i)
       case Returned => 0)
  }

  lemma EveryStepDescends(b: Batch, s: Pool, step: Step)
    requires Shape(b, s) && Enabled(b, s, step)
    requires s.main.Spawning? ==> s.phases[s.main.next].NotSpawned?
    ensures Measure(b, Next(b, s, step)) < Measure(b, s)
  {
    if step.WorkerStep? || s.main.Spawning? {
      StepCounts(b, s, step, Remaining);
    }
  }

  /** A schedule without idle steps. */
  ghost predicate Busy(b: Batch, steps: seq<Step>) {
    forall i :: 0 <= i < |steps| ==> MovesAt(b, steps, i)
  }

  predicate MovesAt(b: Batch, steps: seq<Step>, i: nat)
    requires i < |steps|
  {
    Enabled(b, At(b, steps, i), steps[i])
  }

  lemma {:induction false} MeasureBoundsPrefix(b: Batch, steps: seq<Step>, i: nat)
    requires i <= |steps| && Busy(b, steps)
    ensures Measure(b, At(b, steps, i)) + i <= 10 * |b.wellFormed| + 1
  {
    if i == 0 {
      InitialMeasure(b);
    } else {
      MeasureBoundsPrefix(b, steps, i - 1);
      DescendsAt(b, steps, i - 1);
    }
  }

  lemma InitialMeasure(b: Batch)
    ensures Measure(b, Init(b)) == 10 * |b.wellFormed| + 1
  {
    SumOfUnspawned(Remaining, |b.wellFormed|);
  }

  lemma DescendsAt(b: Batch, steps: seq<Step>, i: nat)
    requires i < |steps| && Busy(b, steps)
    ensures Measure(b, At(b, steps, i + 1)) < Measure(b, At(b, steps, i))
  {
    InvAlways(b, steps, i);
    assert MovesAt(b, steps, i);
    InvStepDescends(b, At(b, steps, i), steps[i]);
  }

  lemma InvStepDescends(b: Batch, s: Pool, step: Step)
    requires Inv(b, s) && Enabled(b, s, step)
    ensures Measure(b, Next(b, s, step)) < Measure(b, s)
  {
    if s.main.Spawning? {
      assert RecordFits(b, s, s.main.next);
    }
    EveryStepDescends(b, s, step);
  }

  /** Every schedule ends: a batch of n messages takes at most 10n + 1 steps, and a schedule that cannot go on
      has passed wg.Wait. */
  lemma EveryScheduleEnds(b: Batch, steps: seq<Step>)
    requires b.numWorkers >= 1 && Busy(b, steps)
    ensures |steps| <= 10 * |b.wellFormed| + 1
    ensures !CanMove(b, At(b, steps, |steps|)) <==> At(b, steps, |steps|).main.Returned?
  {
    MeasureBoundsPrefix(b, steps, |steps|);
    InvAlways(b, steps, |steps|);
    var s := At(b, steps, |steps|);
    if !s.main.Returned? {
      NeverStuck(b, s);
    } else {
      forall step
        ensures !Enabled(b, s, step)
      {
        if step.WorkerStep? && step.worker < |s.phases| {
          SumAtLeast(Member, s.phases, step.worker);
          assert RecordFits(b, s, step.worker);
        }
      }
    }
  }

  /** With a worker every batch has a schedule that gets past wg.Wait. */
  lemma {:induction false} ScheduleCompletes(b: Batch, steps: seq<Step>) returns (more: seq<Step>)
    requires b.numWorkers >= 1
    ensures steps <= more && At(b, more, |more|).main.Returned?
    decreases Measure(b, At(b, steps, |steps|))
  {
    hide Next, Inv, Measure;
    InvAlways(b, steps, |steps|);
    var s := At(b, steps, |steps|);
    if s.main.Returned? {
      more := steps;
    } else {
      NeverStuck(b, s);
      var step :| Enabled(b, s, step);
      InvStepDescends(b, s, step);
      OneMore(b, steps, step);
      more := ScheduleCompletes(b, steps + [step]);
    }
  }

  /** When wg.Wait has returned, every message had one attempt to delete it, every order was paid exactly once
      and nothing else was paid, and all channels and counters are empty. */
  lemma BatchIsComplete(b: Batch, steps: seq<Step>, i: nat)
    requires i <= |steps| && At(b, steps, i).main.Returned?
    ensures var s := At(b, steps, i);
            && s.sem == 0 && s.pay == 0 && s.group == 0
            && (forall x :: 0 <= x < |b.wellFormed| ==>
                  s.phases[x].Done? && s.deletes[x] == 1 && s.payments[x] == if b.wellFormed[x] then 1 else 0)
  {
    InvAlways(b, steps, i);
    var s := At(b, steps, i);
    SlotsNeedMembers(s.phases);
    TokensNeedMembers(s.phases);
    forall x | 0 <= x < |b.wellFormed|
      ensures s.phases[x].Done? && s.deletes[x] == 1 && s.payments[x] == if b.wellFormed[x] then 1 else 0
    {
      SumAtLeast(Member, s.phases, x);
      assert RecordFits(b, s, x);
    }
  }

  lemma TokensNeedMembers(ps: seq<Phase>)
    ensures Sum(Token, ps) <= Sum(Member, ps)
  {
    if ps == [] {
    } else {
      TokensNeedMembers(ps[..|ps| - 1]);
    }
  }
}
