/** Runs of the queue manager: what holds of every manager that can be reached, how long a queue and
    its dead-letter queue stay paired, and that no message is lost between the two. */
module ManagerRuns {
  import opened Types
  import opened Marks
  import opened QueueModel
  import opened BatchNack
  import opened BrokerModel
  import opened QueueRuns
  import opened ManagerLaws

  /** The manager offers all operations of a queue but the unlocking of all that a consumer holds. */
  type Request = op: Op | !op.DoUnlockAll? witness DoAck([], [])

  datatype ManagerOp =
    | Create(name: string, size: uint32, retryLimit: uint32, hasDLQ: bool)
    | Remove(name: string)
    | Ask(name: string, op: Request)

  function ManagerAsk(qm: Manager, name: string, op: Request): (Manager, Status) {
    match op
    case DoEnqueue(id, val) =>
      (DeliverTo(qm, name, One(id, val)), if name in qm.queues then Ok else Err(QueueMissing))
    case DoBatchEnqueue(batch) =>
      (DeliverTo(qm, name, Many(batch)), if name in qm.queues then Ok else Err(QueueMissing))
    case DoFetch(amount, c, now) =>
      var r := ManagerGet(qm, name, amount, c, now);
      (r.0, r.1)
    case DoNack(c, id) => ManagerNack(qm, name, c, id)
    case DoAck(c, id) => ManagerAck(qm, name, c, id)
    case DoBatchAck(c, ids) => ManagerBatchAck(qm, name, c, ids)
    case DoBatchNack(c, ids) => ManagerBatchNack(qm, name, ids)
  }

  function ManagerStep(qm: Manager, op: ManagerOp): (Manager, Status) {
    match op
    case Create(name, size, retryLimit, hasDLQ) => ManagerCreate(qm, name, size, retryLimit, hasDLQ)
    case Remove(name) => ManagerDelete(qm, name)
    case Ask(name, request) => ManagerAsk(qm, name, request)
  }

  function ManagerRun(qm: Manager, ops: seq<ManagerOp>): Manager
    decreases |ops|
  {
    if ops == [] then qm else ManagerRun(ManagerStep(qm, ops[0]).0, ops[1..])
  }

  // ----- reachable managers

  /** No two queues have the same dead-letter queue. */
  ghost predicate Unshared(qm: Manager) {
    forall h, k | h in qm.objects && k in qm.objects && h != k ::
      qm.objects[h].dead.Ref? ==> qm.objects[h].dead != qm.objects[k].dead
  }

  /** No two names lead to the same queue. */
  ghost predicate OneName(qm: Manager) {
    forall n, m | n in qm.queues && m in qm.queues && qm.queues[n] == qm.queues[m] :: n == m
  }

  ghost predicate Sane(qm: Manager) {
    WellFormed(qm) && Unshared(qm) && OneName(qm)
  }

  /** The dead-letter part has the same shape as before. */
  predicate SameShape(dead: Dead, dead': Dead) {
    if dead.Dlq? then dead'.Dlq? && dead'.cap == dead.cap else dead' == dead
  }

  lemma BuryAllKeepsShape(dead: Dead, ms: seq<Msg>)
    ensures SameShape(dead, BuryAll(dead, ms))
  {
    if ms != [] {
      BuryAllKeepsShape(dead, ms[..|ms| - 1]);
    }
  }

  /** What a request comes to on the queue it names and its dead-letter queue. */
  function Asked(s: State, cfg: Config, op: Request): State {
    match op
    case DoEnqueue(id, val) => s.(q := Enqueue(s.q, cfg.cap, id, val))
    case DoBatchEnqueue(batch) => s.(q := BatchEnqueue(s.q, cfg.cap, batch))
    case DoFetch(amount, c, now) => s.(q := s.q.(live := Fetch(s.q.live, amount, c, now, cfg.ttl).live))
    case DoNack(c, id) => Nack(s, cfg.fetchLimit, c, id).0
    case DoAck(c, id) => s.(q := Ack(s.q, c, id).0)
    case DoBatchAck(c, ids) =>
      if |ids| == 1 then s.(q := Ack(s.q, c, ids[0]).0)
      else
        var r := BatchAck(s.q, c, ids);
        if r.reply == Panicked || r.tail != |r.live| - 1 then s else s.(q := s.q.(live := r.live))
    case DoBatchNack(c, ids) =>
      var r := NackMany(s, cfg.fetchLimit, ids);
      if r.1 != Done || Severed(Expiring(s.q.live, NackMarks(s.q.live, ids), cfg.fetchLimit)) then s else r.0
  }

  lemma AskedKeepsShape(s: State, cfg: Config, op: Request)
    ensures SameShape(s.dead, Asked(s, cfg, op).dead)
  {
    hide Fetch, BatchAck, Ack, Severed, Expiring, NackMarks, Reachable;
    match op
    case DoNack(c, id) => NackKeepsDead(s, cfg.fetchLimit, c, id);
    case DoBatchNack(c, ids) =>
      BuryAllKeepsShape(s.dead, Taken(s.q.live, Expiring(s.q.live, NackMarks(s.q.live, ids), cfg.fetchLimit)));
    case _ =>
  }

  /** Storing back what was read changes nothing. */
  lemma WithSamePair(qm: Manager, h: Handle)
    requires WellFormed(qm) && h in qm.objects
    ensures WithPair(qm, h, Pair(qm, h)) == qm
  {
    var qm' := WithPair(qm, h, Pair(qm, h));
    assert qm'.objects == qm.objects;
  }

  lemma DeliveredTo(qm: Manager, h: Handle, d: Delivery)
    requires WellFormed(qm) && h in qm.objects
    ensures qm.(objects := qm.objects[h := Deliver(qm.objects[h], d)])
            == WithPair(qm, h, Pair(qm, h).(q := Deliver(qm.objects[h], d).q))
  {
    hide Enqueue, BatchEnqueue;
    var qm' := WithPair(qm, h, Pair(qm, h).(q := Deliver(qm.objects[h], d).q));
    assert qm'.objects == qm.objects[h := Deliver(qm.objects[h], d)];
  }

  /** A request is carried out on the named queue with its dead-letter queue, and nowhere else. */
  lemma AskIs(qm: Manager, name: string, op: Request)
    requires WellFormed(qm)
    ensures var r := ManagerAsk(qm, name, op);
      if name in qm.queues then
        var h := qm.queues[name];
        r.0 == WithPair(qm, h, Asked(Pair(qm, h), qm.objects[h].cfg, op))
      else r == (qm, Err(QueueMissing))
  {
    if name in qm.queues {
      var h := qm.queues[name];
      WithSamePair(qm, h);
      match op
      case DoEnqueue(id, val) => DeliveredTo(qm, h, One(id, val));
      case DoBatchEnqueue(batch) => DeliveredTo(qm, h, Many(batch));
      case _ =>
    }
    hide Fetch, BatchAck, Ack, Nack, NackMany, Severed, Expiring, NackMarks, Pair, WithPair, WellFormed, Enqueue,
         BatchEnqueue;
  }

  lemma AskKeeps(qm: Manager, name: string, op: Request)
    requires WellFormed(qm) && name in qm.queues
    ensures var h, qm' := qm.queues[name], ManagerAsk(qm, name, op).0;
      && WellFormed(qm') && qm'.queues == qm.queues && qm'.objects.Keys == qm.objects.Keys
      && Pair(qm', h) == Asked(Pair(qm, h), qm.objects[h].cfg, op)
      && (forall k | k in qm.objects && k != h && qm.objects[h].dead != Ref(k) :: qm'.objects[k] == qm.objects[k])
      && (forall k | k in qm.objects ::
            qm'.objects[k].cfg == qm.objects[k].cfg && qm'.objects[k].dead == qm.objects[k].dead)
  {
    var h := qm.queues[name];
    AskIs(qm, name, op);
    AskedKeepsShape(Pair(qm, h), qm.objects[h].cfg, op);
    hide Asked, ManagerAsk;
    WithPairLaw(qm, h, Asked(Pair(qm, h), qm.objects[h].cfg, op));
  }

  lemma SaneStep(qm: Manager, op: ManagerOp)
    requires Sane(qm)
    ensures Sane(ManagerStep(qm, op).0)
  {
    match op
    case Create(name, size, retryLimit, hasDLQ) =>
      CreateLaw(qm, name, size, retryLimit, hasDLQ);
      CreateKeepsApart(qm, name, size, retryLimit, hasDLQ);
    case Remove(name) =>
    case Ask(name, request) =>
      hide ManagerAsk;
      AskIs(qm, name, request);
      if name in qm.queues {
        AskKeeps(qm, name, request);
        hide Asked, WithPair, Pair, WellFormed;
      }
  }

  lemma CreateKeepsApart(qm: Manager, name: string, size: uint32, retryLimit: uint32, hasDLQ: bool)
    requires Sane(qm)
    ensures var qm' := ManagerCreate(qm, name, size, retryLimit, hasDLQ).0; Unshared(qm') && OneName(qm')
  {
    assert |name + "-dlq"| == |name| + 4;
  }

  lemma {:induction false} SaneFrom(qm: Manager, ops: seq<ManagerOp>)
    requires Sane(qm)
    ensures Sane(ManagerRun(qm, ops))
    decreases |ops|
  {
    if ops != [] {
      SaneStep(qm, ops[0]);
      hide Sane, ManagerStep;
      SaneFrom(ManagerStep(qm, ops[0]).0, ops[1..]);
    }
  }

  /** Every manager that operations lead to from an empty one is well formed; each dead-letter queue
      belongs to one queue, and each queue has at most one name. */
  lemma EveryManagerWellFormed(ttl: int64, ops: seq<ManagerOp>)
    ensures var qm := ManagerRun(Manager(map[], map[], 0, ttl), ops);
      WellFormed(qm) && Unshared(qm) && OneName(qm)
  {
    SaneFrom(Manager(map[], map[], 0, ttl), ops);
  }

  /** So after every run a creation that takes a name over strands the queue that had it. */
  lemma EveryTakeoverStrands(ttl: int64, ops: seq<ManagerOp>, name: string, size: uint32, retryLimit: uint32)
    requires var qm := ManagerRun(Manager(map[], map[], 0, ttl), ops);
      name + "-dlq" in qm.queues && ManagerCreate(qm, name, size, retryLimit, true).1 == Ok
    ensures
      var qm := ManagerRun(Manager(map[], map[], 0, ttl), ops);
      var qm', h := ManagerCreate(qm, name, size, retryLimit, true).0, qm.queues[name + "-dlq"];
      && h in qm.objects && h in qm'.objects && qm'.objects[h] == qm.objects[h]
      && forall n | n in qm'.queues :: qm'.queues[n] != h
  {
    EveryManagerWellFormed(ttl, ops);
    hide ManagerRun;
    TakeoverStrands(ManagerRun(Manager(map[], map[], 0, ttl), ops), name, size, retryLimit);
  }

  // ----- pairs

  /** The operations that part a queue from its dead-letter queue: deleting either name, or creating a
      queue whose dead-letter queue takes the name over. */
  predicate Parts(qm: Manager, op: ManagerOp, name: string) {
    || op == Remove(name) || op == Remove(name + "-dlq")
    || (op.Create? && op.hasDLQ && op.name + "-dlq" == name && ManagerStep(qm, op).1 == Ok)
  }

  /** A queue stays paired in a step exactly unless the step parts it. */
  lemma PairedStepIff(qm: Manager, op: ManagerOp, name: string)
    requires WellFormed(qm) && Paired(qm, name)
    ensures Paired(ManagerStep(qm, op).0, name) <==> !Parts(qm, op, name)
    ensures !Parts(qm, op, name) ==> ManagerStep(qm, op).0.queues[name] == qm.queues[name]
  {
    assert |name + "-dlq"| == |name| + 4;
    match op
    case Create(other, size, retryLimit, hasDLQ) =>
      CreateLaw(qm, other, size, retryLimit, hasDLQ);
      if other + "-dlq" == name + "-dlq" {
        assert (other + "-dlq")[..|other|] == other && (name + "-dlq")[..|name|] == name;
      }
    case Remove(other) =>
    case Ask(other, request) =>
      hide ManagerAsk;
      AskIs(qm, other, request);
      if other in qm.queues {
        AskKeeps(qm, other, request);
        hide Asked, WithPair, Pair, WellFormed;
      }
  }

  ghost predicate NeverParts(qm: Manager, ops: seq<ManagerOp>, name: string)
    decreases |ops|
  {
    ops == [] || (!Parts(qm, ops[0], name) && NeverParts(ManagerStep(qm, ops[0]).0, ops[1..], name))
  }

  /** Over every run in which nothing parts them, a queue stays paired with its dead-letter queue. */
  lemma {:induction false} PairedLasts(qm: Manager, ops: seq<ManagerOp>, name: string)
    requires Sane(qm) && Paired(qm, name) && NeverParts(qm, ops, name)
    ensures Paired(ManagerRun(qm, ops), name) && ManagerRun(qm, ops).queues[name] == qm.queues[name]
    decreases |ops|
  {
    if ops != [] {
      SaneStep(qm, ops[0]);
      PairedStepIff(qm, ops[0], name);
      hide Sane, WellFormed, ManagerStep, Parts, Paired;
      PairedLasts(ManagerStep(qm, ops[0]).0, ops[1..], name);
    }
  }
}
