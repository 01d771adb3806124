/** Several processors over many batches: at-least-once delivery from one queue, deletes that may fail, and
    processors that restart in the middle of a batch. */
module PayBeforeDelete {
  import opened WorkerPool

  /** `numWorkers[p]` is the NUM_WORKERS setting of processor p; `orders` are the messages whose bodies parse. */
  datatype Config = Config(numWorkers: seq<nat>, orders: set<nat>)

  /** One processor: the messages of its batch and the goroutines at work on them. */
  datatype Processor = Processor(batch: seq<nat>, pool: Pool)

  /** `published` and `paid` record every message ever sent and every message whose payment completed. */
  datatype System = System(published: set<nat>, queue: set<nat>, paid: set<nat>, processors: seq<Processor>)

  datatype Event =
    | Publish(id: nat)
    | Receive(processor: nat, ids: seq<nat>)
    | Run(processor: nat, step: Step, deleteFails: bool)
    | Restart(processor: nat)

  function Flags(numWorkers: nat, orders: set<nat>, ids: seq<nat>): Batch {
    Batch(numWorkers, seq(|ids|, i requires 0 <= i < |ids| => ids[i] in orders))
  }

  /** A processor that is polling. */
  function Polling(numWorkers: nat, orders: set<nat>): Processor {
    Processor([], Init(Flags(numWorkers, orders, [])).(main := Returned))
  }

  function Start(c: Config): System {
    System({}, {}, {},
           seq(|c.numWorkers|, p requires 0 <= p < |c.numWorkers| => Polling(c.numWorkers[p], c.orders)))
  }

  predicate Fits(c: Config, s: System) {
    && |s.processors| == |c.numWorkers|
    && forall p :: 0 <= p < |s.processors| ==>
         Shape(Flags(c.numWorkers[p], c.orders, s.processors[p].batch), s.processors[p].pool)
  }

  /** Whether a pool step makes a payment, or tries a delete, for the message of its goroutine. */
  predicate Pays(s: Pool, step: Step) {
    step.WorkerStep? && step.worker < |s.phases| && s.phases[step.worker].Paying?
  }

  predicate TriesDelete(s: Pool, step: Step) {
    step.WorkerStep? && step.worker < |s.phases| && s.phases[step.worker].Deleting?
  }

  /** A batch may name any messages ever published, more than once, in the hands of other processors as well,
      or again after a delete that succeeded. A restart forgets the batch wherever its goroutines were. */
  function Happens(c: Config, s: System, e: Event): (t: System)
    requires Fits(c, s)
    ensures Fits(c, t)
  {
    if !e.Publish? && e.processor >= |s.processors| then s else
    match e
    case Publish(id) =>
      if id in s.published then s else s.(published := s.published + {id}, queue := s.queue + {id})
    case Receive(p, ids) =>
      if s.processors[p].pool.main.Returned? && ids != [] && (forall i :: 0 <= i < |ids| ==> ids[i] in s.published) then
        s.(processors := s.processors[p := Processor(ids, Init(Flags(c.numWorkers[p], c.orders, ids)))])
      else s
    case Run(p, step, deleteFails) =>
      var one := s.processors[p];
      var moved := one.(pool := Next(Flags(c.numWorkers[p], c.orders, one.batch), one.pool, step));
      s.(processors := s.processors[p := moved],
         paid := if Pays(one.pool, step) then s.paid + {one.batch[step.worker]} else s.paid,
         queue := if TriesDelete(one.pool, step) && !deleteFails then s.queue - {one.batch[step.worker]} else s.queue)
    case Restart(p) =>
      s.(processors := s.processors[p := Polling(c.numWorkers[p], c.orders)])
  }

  function After(c: Config, es: seq<Event>): (s: System)
    ensures Fits(c, s)
  {
    if es == [] then Start(c) else Happens(c, After(c, es[..|es| - 1]), es[|es| - 1])
  }

  predicate PastPayment(p: Phase) {
    p.Paid? || p.Deleting? || p.Deleted? || p.SlotFree? || p.Done?
  }

  /** Whoever is past the payment of an order has paid it, and only orders are taken to payment. */
  ghost predicate BatchInv(orders: set<nat>, paid: set<nat>, one: Processor) {
    && |one.pool.phases| == |one.batch|
    && forall i :: 0 <= i < |one.batch| ==>
         && (one.batch[i] in orders && PastPayment(one.pool.phases[i]) ==> one.batch[i] in paid)
         && (one.pool.phases[i].AwaitsPayment? || one.pool.phases[i].Paying? ==> one.batch[i] in orders)
  }

  ghost predicate PaidInv(c: Config, s: System) {
    && Fits(c, s)
    && s.queue <= s.published
    && (forall p :: 0 <= p < |s.processors| ==> BatchInv(c.orders, s.paid, s.processors[p]))
    && (forall id :: id in s.published && id in c.orders && id !in s.queue ==> id in s.paid)
  }

  /** A step of one processor's pool. */
  lemma BatchStep(numWorkers: nat, orders: set<nat>, paid: set<nat>, one: Processor, step: Step)
    requires Shape(Flags(numWorkers, orders, one.batch), one.pool) && BatchInv(orders, paid, one)
    ensures var moved := one.(pool := Next(Flags(numWorkers, orders, one.batch), one.pool, step));
            BatchInv(orders, if Pays(one.pool, step) then paid + {one.batch[step.worker]} else paid, moved)
  {
    var b := Flags(numWorkers, orders, one.batch);
    forall i | 0 <= i < |one.batch|
      ensures b.wellFormed[i] <==> one.batch[i] in orders
    {
    }
  }

  lemma PaidStep(c: Config, s: System, p: nat, step: Step, deleteFails: bool)
    requires PaidInv(c, s) && p < |s.processors|
    ensures PaidInv(c, Happens(c, s, Run(p, step, deleteFails)))
  {
    var t := Happens(c, s, Run(p, step, deleteFails));
    BatchStep(c.numWorkers[p], c.orders, s.paid, s.processors[p], step);
    forall q | 0 <= q < |t.processors|
      ensures BatchInv(c.orders, t.paid, t.processors[q])
    {
      assert BatchInv(c.orders, s.paid, s.processors[q]);
    }
  }

  /** Pay before delete, over every run of any number of processors with redelivery, failing deletes and
      restarts: an order that has left the queue has been paid. */
  lemma {:induction false} NoOrderLeavesUnpaid(c: Config, es: seq<Event>)
    ensures PaidInv(c, After(c, es))
    ensures forall id :: id in After(c, es).published && id in c.orders && id !in After(c, es).queue ==>
                           id in After(c, es).paid
  {
    if es == [] {
    } else {
      var init, e := es[..|es| - 1], es[|es| - 1];
      NoOrderLeavesUnpaid(c, init);
      if e.Run? && e.processor < |After(c, init).processors| {
        PaidStep(c, After(c, init), e.processor, e.step, e.deleteFails);
      }
    }
  }

  // ---- What leaves the queue, and when -----------------------------------------------------------

  /** The event is a delete of the message that succeeds. */
  predicate Deletes(c: Config, s: System, e: Event, id: nat)
    requires Fits(c, s)
  {
    && e.Run? && !e.deleteFails && e.processor < |s.processors|
    && TriesDelete(s.processors[e.processor].pool, e.step)
    && s.processors[e.processor].batch[e.step.worker] == id
  }

  /** Some event of the run deleted the message. */
  ghost predicate Deleted(c: Config, es: seq<Event>, id: nat) {
    exists n :: 0 <= n < |es| && DeletedAt(c, es, n, id)
  }

  predicate DeletedAt(c: Config, es: seq<Event>, n: nat, id: nat)
    requires n < |es|
  {
    Deletes(c, After(c, es[..n]), es[n], id)
  }

  ghost predicate BatchesPublished(s: System) {
    forall p, i :: 0 <= p < |s.processors| && 0 <= i < |s.processors[p].batch| ==>
      s.processors[p].batch[i] in s.published
  }

  lemma {:induction false} OnlyPublishedAreReceived(c: Config, es: seq<Event>)
    ensures BatchesPublished(After(c, es))
  {
    if es == [] {
    } else {
      OnlyPublishedAreReceived(c, es[..|es| - 1]);
    }
  }

  lemma DeletedStep(c: Config, es: seq<Event>, id: nat)
    requires es != []
    ensures Deleted(c, es, id) <==>
            Deleted(c, es[..|es| - 1], id) || Deletes(c, After(c, es[..|es| - 1]), es[|es| - 1], id)
  {
    hide After, Deletes;
    var init := es[..|es| - 1];
    forall n | 0 <= n < |init|
      ensures DeletedAt(c, es, n, id) <==> DeletedAt(c, init, n, id)
    {
      assert es[..n] == init[..n];
    }
    assert DeletedAt(c, es, |init|, id) <==> Deletes(c, After(c, init), es[|init|], id);
  }

  /** A delete that succeeds takes its message out of the queue, and nothing else takes any message out. */
  lemma {:induction false} QueueHoldsTheUndeleted(c: Config, es: seq<Event>, id: nat)
    ensures id in After(c, es).queue <==> id in After(c, es).published && !Deleted(c, es, id)
    ensures Deleted(c, es, id) ==> id in After(c, es).published
  {
    if es == [] {
    } else {
      var init := es[..|es| - 1];
      QueueHoldsTheUndeleted(c, init, id);
      DeletedStep(c, es, id);
      OnlyPublishedAreReceived(c, init);
    }
  }

  // ---- A batch that is served --------------------------------------------------------------------

  /** Processor `p` is still at the batch, its pool is as the pool's own schedules leave it, and what its goroutines
      have deleted is gone. */
  ghost predicate AtWork(c: Config, s: System, p: nat, ids: seq<nat>) {
    && Fits(c, s) && p < |s.processors| && s.processors[p].batch == ids
    && WorkerPool.Inv(Flags(c.numWorkers[p], c.orders, ids), s.processors[p].pool)
    && (forall i :: 0 <= i < |ids| ==> ids[i] in s.published)
    && (forall i :: 0 <= i < |ids| && HasDeleted(s.processors[p].pool.phases[i]) ==> ids[i] !in s.queue)
  }

  predicate HasDeleted(ph: Phase) {
    ph.Deleted? || ph.SlotFree? || ph.Done?
  }

  /** Events that leave processor `p` at its batch, with deletes that succeed; the other processors do as they like. */
  predicate Undisturbed(p: nat, e: Event) {
    e.Publish? || e.processor != p || (e.Run? && !e.deleteFails)
  }

  lemma AtWorkStep(c: Config, s: System, p: nat, ids: seq<nat>, e: Event)
    requires AtWork(c, s, p, ids) && Undisturbed(p, e)
    ensures AtWork(c, Happens(c, s, e), p, ids)
  {
    var t := Happens(c, s, e);
    if e.Run? && e.processor == p {
      WorkerPool.InvStep(Flags(c.numWorkers[p], c.orders, ids), s.processors[p].pool, e.step);
      forall i | 0 <= i < |ids| && HasDeleted(t.processors[p].pool.phases[i])
        ensures ids[i] !in t.queue
      {
      }
    } else {
      assert t.processors[p] == s.processors[p];
    }
  }

  /** The processor is polling and the queue has these messages to give. */
  predicate Accepts(s: System, p: nat, ids: seq<nat>) {
    && p < |s.processors| && s.processors[p].pool.main.Returned? && ids != []
    && forall i :: 0 <= i < |ids| ==> ids[i] in s.published
  }

  /** When wg.Wait has returned and no delete of the batch failed, none of its messages is in the queue. */
  lemma {:induction false} ServedBatchIsGone(c: Config, es: seq<Event>, start: nat, p: nat, ids: seq<nat>)
    requires 0 < start <= |es| && es[start - 1] == Receive(p, ids) && p < |c.numWorkers|
    requires Accepts(After(c, es[..start - 1]), p, ids)
    requires forall n :: start <= n < |es| ==> Undisturbed(p, es[n])
    ensures AtWork(c, After(c, es), p, ids)
    ensures After(c, es).processors[p].pool.main.Returned? ==>
              forall i :: 0 <= i < |ids| ==> ids[i] !in After(c, es).queue
  {
    if start == |es| {
      assert es[..start] == es && es[..start][..start - 1] == es[..start - 1];
      WorkerPool.InvInit(Flags(c.numWorkers[p], c.orders, ids));
    } else {
      var init := es[..|es| - 1];
      assert init[..start] == es[..start] && init[..start - 1] == es[..start - 1];
      ServedBatchIsGone(c, init, start, p, ids);
      AtWorkStep(c, After(c, init), p, ids, es[|es| - 1]);
    }
    if After(c, es).processors[p].pool.main.Returned? {
      WorkerPool.AllSpawnedAreMembers(Flags(c.numWorkers[p], c.orders, ids), After(c, es).processors[p].pool);
    }
  }

  /** The events of one processor's pool, every delete succeeding. */
  function Runs(p: nat, steps: seq<Step>): seq<Event> {
    seq(|steps|, i requires 0 <= i < |steps| => Run(p, steps[i], false))
  }

  lemma RunMovesThePool(c: Config, es: seq<Event>, p: nat, step: Step)
    requires p < |c.numWorkers|
    ensures var one := After(c, es).processors[p];
            After(c, es + [Run(p, step, false)]).processors[p]
            == one.(pool := Next(Flags(c.numWorkers[p], c.orders, one.batch), one.pool, step))
  {
    assert (es + [Run(p, step, false)])[..|es|] == es;
  }

  lemma {:induction false} RunsFollowThePool(c: Config, es: seq<Event>, p: nat, ids: seq<nat>, steps: seq<Step>)
    requires p < |c.numWorkers|
    requires After(c, es).processors[p] == Processor(ids, Init(Flags(c.numWorkers[p], c.orders, ids)))
    ensures After(c, es + Runs(p, steps)).processors[p]
         == Processor(ids, At(Flags(c.numWorkers[p], c.orders, ids), steps, |steps|))
  {
    hide After, Next, Happens;
    if steps == [] {
      assert es + Runs(p, steps) == es;
    } else {
      var init, last := steps[..|steps| - 1], steps[|steps| - 1];
      RunsFollowThePool(c, es, p, ids, init);
      OneMore(Flags(c.numWorkers[p], c.orders, ids), init, last);
      assert init + [last] == steps;
      RunMovesThePool(c, es + Runs(p, init), p, last);
      assert es + Runs(p, steps) == es + Runs(p, init) + [Run(p, last, false)];
    }
  }

  /** Whatever has happened, a polling processor with a worker can take any published messages out of the queue. */
  lemma BatchCanBeServed(c: Config, es: seq<Event>, p: nat, ids: seq<nat>) returns (more: seq<Event>)
    requires p < |c.numWorkers| && c.numWorkers[p] >= 1 && Accepts(After(c, es), p, ids)
    ensures es <= more
    ensures forall i :: 0 <= i < |ids| ==> ids[i] in After(c, more).published && ids[i] !in After(c, more).queue
  {
    var b := Flags(c.numWorkers[p], c.orders, ids);
    var received := es + [Receive(p, ids)];
    assert received[..|es|] == es;
    var steps := ScheduleCompletes(b, []);
    RunsFollowThePool(c, received, p, ids, steps);
    more := received + Runs(p, steps);
    assert more[..|es| + 1] == received && more[..|es|] == es;
    ServedBatchIsGone(c, more, |es| + 1, p, ids);
  }

  /** A restart in the middle of a batch loses nothing: whatever the processor was doing, it polls again, and the
      messages it held can be delivered to it again and taken out of the queue. */
  lemma RestartLosesNothing(c: Config, es: seq<Event>, p: nat, ids: seq<nat>) returns (more: seq<Event>)
    requires p < |c.numWorkers| && c.numWorkers[p] >= 1 && ids != []
    requires After(c, es).processors[p].batch == ids
    ensures es + [Restart(p)] <= more
    ensures var t := After(c, es + [Restart(p)]);
            && t.processors[p].batch == [] && t.processors[p].pool.main.Returned?
            && t.queue == After(c, es).queue && t.paid == After(c, es).paid
    ensures forall i :: 0 <= i < |ids| ==> ids[i] in After(c, more).published && ids[i] !in After(c, more).queue
  {
    var again := es + [Restart(p)];
    assert again[..|es|] == es;
    OnlyPublishedAreReceived(c, es);
    more := BatchCanBeServed(c, again, p, ids);
  }

  lemma {:induction false} PoolsKeepInv(c: Config, es: seq<Event>, p: nat)
    requires p < |c.numWorkers|
    ensures var one := After(c, es).processors[p];
            WorkerPool.Inv(Flags(c.numWorkers[p], c.orders, one.batch), one.pool)
  {
    if es == [] {
    } else {
      var init, e := es[..|es| - 1], es[|es| - 1];
      PoolsKeepInv(c, init, p);
      var one := After(c, init).processors[p];
      if e.Receive? && e.processor == p {
        WorkerPool.InvInit(Flags(c.numWorkers[p], c.orders, e.ids));
      } else if e.Run? && e.processor == p {
        WorkerPool.InvStep(Flags(c.numWorkers[p], c.orders, one.batch), one.pool, e.step);
      }
    }
  }

  ghost predicate SomeoneWorks(c: Config) {
    exists p :: 0 <= p < |c.numWorkers| && c.numWorkers[p] >= 1
  }

  /** The order has been published, paid and removed. */
  ghost predicate Completed(c: Config, es: seq<Event>, id: nat) {
    && id in c.orders && id in After(c, es).published && id in After(c, es).paid && id !in After(c, es).queue
  }

  lemma DeletingNeedsWorkers(c: Config, es: seq<Event>, id: nat)
    requires Deleted(c, es, id)
    ensures SomeoneWorks(c)
  {
    var n :| 0 <= n < |es| && DeletedAt(c, es, n, id);
    var p := es[n].processor;
    PoolsKeepInv(c, es[..n], p);
    WorkerPool.SumAtLeast(Slot, After(c, es[..n]).processors[p].pool.phases, es[n].step.worker);
  }

  /** Orders get through, from publication over payment to removal, exactly where some processor has a worker. */
  lemma OrdersGetThrough(c: Config, id: nat)
    requires id in c.orders
    ensures (exists es: seq<Event> :: Completed(c, es, id)) <==> SomeoneWorks(c)
  {
    if es: seq<Event> :| Completed(c, es, id) {
      QueueHoldsTheUndeleted(c, es, id);
      DeletingNeedsWorkers(c, es, id);
    }
    if p :| 0 <= p < |c.numWorkers| && c.numWorkers[p] >= 1 {
      var sent := [Publish(id)];
      assert sent[..0] == [];
      var es := BatchCanBeServed(c, sent, p, [id]);
      assert [id][0] == id;
      NoOrderLeavesUnpaid(c, es);
      assert Completed(c, es, id);
    }
  }
}
