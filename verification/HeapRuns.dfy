/** Runs of the heap form of the queue reach the states that the value form predicts. */
module HeapRuns {
  import opened Types
  import opened QueueModel
  import opened BatchNack
  import opened BatchLaws
  import opened QueueRuns
  import opened LinkedQueue

  ghost function ConfigOf(ll: LinkedList): Config {
    Config(ll.cap, ll.fetchLimit, ll.nodeTTL)
  }

  method Perform(ll: LinkedList, op: Op, ghost log: seq<Event>)
    requires ll.ValidPair()
    requires Step(ConfigOf(ll), Trace(ll.PairValue(), log), op).Some?
    modifies ll.Repr, ll.DeadRepr()
    ensures ll.ValidPair() && fresh(ll.Repr - old(ll.Repr)) && fresh(ll.DeadRepr() - old(ll.DeadRepr()))
    ensures ll.PairValue() == Step(ConfigOf(ll), Trace(old(ll.PairValue()), log), op).value.s
  {
    match op {
      case DoNack(c, id) =>
        var reply := ll.Unlock(c, id);
      case DoBatchNack(c, ids) => PerformBatchNack(ll, c, ids, log);
      case _ => PerformAlone(ll, op, log);
    }
  }

  /** The operations that leave the dead-letter queue alone. */
  method PerformAlone(ll: LinkedList, op: Op, ghost log: seq<Event>)
    requires ll.ValidPair() && !op.DoNack? && !op.DoBatchNack?
    requires Step(ConfigOf(ll), Trace(ll.PairValue(), log), op).Some?
    modifies ll.Repr
    ensures ll.ValidPair() && fresh(ll.Repr - old(ll.Repr))
    ensures ll.PairValue() == Step(ConfigOf(ll), Trace(old(ll.PairValue()), log), op).value.s
    ensures ll.DeadRepr() == old(ll.DeadRepr())
  {
    PerformOne(ll, op, log);
    ghost var kept := ll.deadLetter.To? ==> ll.deadLetter.queue.Valid();
    assert kept;
  }

  method PerformOne(ll: LinkedList, op: Op, ghost log: seq<Event>)
    requires ll.ValidPair() && !op.DoNack? && !op.DoBatchNack?
    requires Step(ConfigOf(ll), Trace(ll.PairValue(), log), op).Some?
    modifies ll.Repr
    ensures ll.Valid() && fresh(ll.Repr - old(ll.Repr))
    ensures ll.Value() == Step(ConfigOf(ll), Trace(old(ll.PairValue()), log), op).value.s.q
  {
    hide Fetch, UnlockAll, BatchAck, Ack, QueueModel.BatchEnqueue, QueueModel.Enqueue;
    match op {
      case DoEnqueue(id, val) => ll.Enqueue(id, val);
      case DoBatchEnqueue(batch) => ll.BatchEnqueue(batch);
      case DoFetch(amount, c, now) => var data, ids := ll.Dequeue(amount, c, now);
      case DoAck(c, id) => var reply := ll.UnlockAndEmpty(c, id);
      case DoUnlockAll(c) => ll.UnlockAllFromConsumer(c);
      case DoBatchAck(c, ids) => PerformBatchAck(ll, c, ids, log);
    }
  }

  method PerformBatchAck(ll: LinkedList, c: Bytes, ids: seq<Bytes>, ghost log: seq<Event>)
    requires ll.Valid()
    requires Step(ConfigOf(ll), Trace(ll.PairValue(), log), DoBatchAck(c, ids)).Some?
    modifies ll.Repr
    ensures ll.Valid() && ll.Repr == old(ll.Repr)
    ensures ll.Value() == Step(ConfigOf(ll), Trace(old(ll.PairValue()), log), DoBatchAck(c, ids)).value.s.q
  {
    ll.Sized();
    hide LinkedList.ChainedTo;
    var reply := ll.UnlockAndEmptyBatch(c, ids);
    if |ids| != 1 {
      ll.SizedTo(BatchAck(old(ll.Value()), c, ids).tail);
    }
  }

  method PerformBatchNack(ll: LinkedList, c: Bytes, ids: seq<Bytes>, ghost log: seq<Event>)
    requires ll.ValidPair()
    requires Step(ConfigOf(ll), Trace(ll.PairValue(), log), DoBatchNack(c, ids)).Some?
    modifies ll.Repr, ll.DeadRepr()
    ensures ll.ValidPair() && ll.Repr == old(ll.Repr) && fresh(ll.DeadRepr() - old(ll.DeadRepr()))
    ensures ll.PairValue() == Step(ConfigOf(ll), Trace(old(ll.PairValue()), log), DoBatchNack(c, ids)).value.s
  {
    hide Step, LinkedList.Valid, NackMany, Severed, Expiring, NackMarks, Walk, LinkedList.Spares, TailAfter;
    BatchNackSteps(ConfigOf(ll), Trace(ll.PairValue(), log), c, ids);
    var reply := ll.BatchUnlock(c, ids);
  }

  /** A batch nack that a run goes through is refused, or succeeds and links in no reset node. */
  lemma BatchNackSteps(cfg: Config, t: Trace, c: Bytes, ids: seq<Bytes>)
    requires Step(cfg, t, DoBatchNack(c, ids)).Some?
    ensures var r := NackMany(t.s, cfg.fetchLimit, ids);
      && r.1 != Panicked && Step(cfg, t, DoBatchNack(c, ids)).value.s == r.0
      && (r.1 == Done ==> !Severed(Expiring(t.s.q.live, NackMarks(t.s.q.live, ids), cfg.fetchLimit)))
  {
    hide NackMany, Severed, OneRun, Expiring, NackMarks, NackLog;
    var ex := Expiring(t.s.q.live, NackMarks(t.s.q.live, ids), cfg.fetchLimit);
    if OneRun(ex) {
      NotSevered(ex);
    }
    RefusedChangesNothing(t.s, cfg.fetchLimit, ids);
  }

  lemma RunUnfold(cfg: Config, t: Trace, ops: seq<Op>)
    requires Run(cfg, t, ops).Some? && ops != []
    ensures Step(cfg, t, ops[0]).Some? && Run(cfg, t, ops) == Run(cfg, Step(cfg, t, ops[0]).value, ops[1..])
  {
  }

  /** After every run of operations the chain is well formed and its messages, the counter
      and the dead-letter queue are those of the value form. */
  method PerformAll(ll: LinkedList, ops: seq<Op>, ghost log: seq<Event>)
    requires ll.ValidPair()
    requires Run(ConfigOf(ll), Trace(ll.PairValue(), log), ops).Some?
    modifies ll.Repr, ll.DeadRepr()
    ensures ll.ValidPair()
    ensures ll.PairValue() == Run(ConfigOf(ll), Trace(old(ll.PairValue()), log), ops).value.s
  {
    hide Step, Run, LinkedList.Valid, LinkedList.ValidPair;
    ghost var t := Trace(ll.PairValue(), log);
    ghost var end := Run(ConfigOf(ll), t, ops).value;
    var i := 0;
    while i < |ops|
      invariant 0 <= i <= |ops|
      invariant ll.ValidPair() && fresh(ll.Repr - old(ll.Repr)) && fresh(ll.DeadRepr() - old(ll.DeadRepr()))
      invariant ll.PairValue() == t.s && Run(ConfigOf(ll), t, ops[i..]) == Some(end)
    {
      RunUnfold(ConfigOf(ll), t, ops[i..]);
      assert ops[i..][0] == ops[i] && ops[i..][1..] == ops[i + 1..];
      Perform(ll, ops[i], t.log);
      t := Step(ConfigOf(ll), t, ops[i]).value;
      i := i + 1;
    }
    RunNone(ConfigOf(ll), t);
  }

  lemma RunNone(cfg: Config, t: Trace)
    ensures Run(cfg, t, []) == Some(t)
  {
  }
}
