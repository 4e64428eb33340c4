/** The broker and the queue manager as values: routing lists over named queues. */
module BrokerModel {
  import opened Types
  import opened QueueModel
  import opened BatchNack
  import opened Strings

  type Handle = nat

  /** The dead-letter pointer of a queue: nil, a pointer to a nil interface, or another queue. */
  datatype DeadRef = NoPointer | NilInterface | Ref(queue: Handle)

  datatype QueueObject = QueueObject(cfg: Config, q: Queue, dead: DeadRef)

  /** The queue manager's map of names, and the queues that names and dead-letter pointers refer to. */
  datatype Manager = Manager(queues: map<string, Handle>, objects: map<Handle, QueueObject>, next: Handle,
                             nodeTTL: int64)

  datatype Broker = Broker(routing: map<string, seq<string>>, qm: Manager)

  datatype Error =
    | InvalidQueueName | InvalidQueueSize | QueueAlreadyExists | QueueMissing
    | FailedQueueCreation | MissingRoutingKey | RoutingKeyDoesNotExist | QueueDoesNotExist
    | QueueMustHaveOneRoutingKey | EmptyData | FailedEmpty | NotHeld

  /** What an operation reports. A panic ends the process; a damaged list is one that a failed
      batch operation has left with a misplaced tail or a reset node in it. */
  datatype Status = Ok | Err(error: Error) | Panic | Damaged

  /** Every reference leads to a queue, and dead-letter queues have none of their own. */
  ghost predicate WellFormed(qm: Manager) {
    && (forall n | n in qm.queues :: qm.queues[n] in qm.objects)
    && (forall h | h in qm.objects :: h < qm.next)
    && (forall h | h in qm.objects && qm.objects[h].dead.Ref? ::
          && qm.objects[h].dead.queue in qm.objects && qm.objects[h].dead.queue != h
          && qm.objects[qm.objects[h].dead.queue].dead == DeadRef.NoPointer)
  }

  // ----- the queue manager

  function ManagerCreate(qm: Manager, name: string, size: uint32, retryLimit: uint32, hasDLQ: bool): (Manager, Status) {
    if name == [] then (qm, Err(InvalidQueueName))
    else if size == 0 then (qm, Err(InvalidQueueSize))
    else if name in qm.queues then (qm, Err(QueueAlreadyExists))
    else
      var cfg := Config(size, retryLimit, qm.nodeTTL);
      var none := Queue([], 0);
      if hasDLQ then
        (qm.(queues := qm.queues[name + "-dlq" := qm.next][name := qm.next + 1],
             objects := qm.objects[qm.next := QueueObject(cfg, none, DeadRef.NoPointer)]
                                  [qm.next + 1 := QueueObject(cfg, none, Ref(qm.next))],
             next := qm.next + 2), Ok)
      else
        (qm.(queues := qm.queues[name := qm.next],
             objects := qm.objects[qm.next := QueueObject(cfg, none, DeadRef.NilInterface)],
             next := qm.next + 1), Ok)
  }

  function ManagerDelete(qm: Manager, name: string): (Manager, Status) {
    if name in qm.queues then (qm.(queues := qm.queues - {name}), Ok) else (qm, Err(QueueMissing))
  }

  /** The queue at a handle with its dead-letter queue. */
  function Pair(qm: Manager, h: Handle): State
    requires h in qm.objects
  {
    var o := qm.objects[h];
    State(o.q,
          match o.dead
          case NoPointer => QueueModel.NoPointer
          case NilInterface => QueueModel.NilInterface
          case Ref(d) =>
            if d in qm.objects then Dlq(qm.objects[d].cfg.cap, qm.objects[d].q) else QueueModel.NilInterface)
  }

  /** Stores a queue and its dead-letter queue back. */
  function WithPair(qm: Manager, h: Handle, s: State): Manager
    requires h in qm.objects
  {
    var o := qm.objects[h];
    var own := qm.objects[h := o.(q := s.q)];
    qm.(objects :=
      if o.dead.Ref? && o.dead.queue in own && s.dead.Dlq?
      then own[o.dead.queue := own[o.dead.queue].(q := s.dead.queue)] else own)
  }

  /** What a fetcher is given of the messages. */
  function Handed(got: seq<Msg>): (r: seq<MessageBatch>)
    ensures |r| == |got| && forall i | 0 <= i < |got| :: r[i] == MessageBatch(got[i].id, got[i].val)
  {
    seq(|got|, i requires 0 <= i < |got| => MessageBatch(got[i].id, got[i].val))
  }

  function ManagerGet(qm: Manager, name: string, amount: uint32, c: Bytes, now: int64)
    : (Manager, Status, seq<MessageBatch>)
  {
    if name !in qm.queues || qm.queues[name] !in qm.objects then (qm, Err(QueueMissing), [])
    else
      var h := qm.queues[name];
      var s := Pair(qm, h);
      var r := Fetch(s.q.live, amount, c, now, qm.objects[h].cfg.ttl);
      (WithPair(qm, h, s.(q := s.q.(live := r.live))), Ok, Handed(r.got))
  }

  function ManagerAck(qm: Manager, name: string, c: Bytes, id: Bytes): (Manager, Status) {
    if name !in qm.queues || qm.queues[name] !in qm.objects then (qm, Err(QueueMissing))
    else
      var h := qm.queues[name];
      var s := Pair(qm, h);
      var (q, reply) := Ack(s.q, c, id);
      (WithPair(qm, h, s.(q := q)), if reply == Done then Ok else Err(NotHeld))
  }

  function ManagerNack(qm: Manager, name: string, c: Bytes, id: Bytes): (Manager, Status) {
    if name !in qm.queues || qm.queues[name] !in qm.objects then (qm, Err(QueueMissing))
    else
      var h := qm.queues[name];
      var (s, reply) := Nack(Pair(qm, h), qm.objects[h].cfg.fetchLimit, c, id);
      (WithPair(qm, h, s), if reply == Done then Ok else if reply == Refused then Err(FailedEmpty) else Panic)
  }

  function ManagerBatchAck(qm: Manager, name: string, c: Bytes, ids: seq<Bytes>): (Manager, Status) {
    if name !in qm.queues || qm.queues[name] !in qm.objects then (qm, Err(QueueMissing))
    else if |ids| == 1 then ManagerAck(qm, name, c, ids[0])
    else
      var h := qm.queues[name];
      var s := Pair(qm, h);
      var r := BatchAck(s.q, c, ids);
      match r.reply
      case Panicked => (qm, Panic)
      case _ =>
        if r.tail != |r.live| - 1 then (qm, Damaged)
        else (WithPair(qm, h, s.(q := s.q.(live := r.live))), if r.reply == Done then Ok else Err(NotHeld))
  }

  function ManagerBatchNack(qm: Manager, name: string, ids: seq<Bytes>): (Manager, Status) {
    if name !in qm.queues || qm.queues[name] !in qm.objects then (qm, Err(QueueMissing))
    else
      var h := qm.queues[name];
      var s, limit := Pair(qm, h), qm.objects[h].cfg.fetchLimit;
      var (s', reply) := NackMany(s, limit, ids);
      match reply
      case Panicked => (qm, Panic)
      case Refused => (qm, Err(NotHeld))
      case Done =>
        if Severed(Expiring(s.q.live, NackMarks(s.q.live, ids), limit)) then (qm, Damaged)
        else (WithPair(qm, h, s'), Ok)
  }

  // ----- routing

  function Bind(routing: map<string, seq<string>>, key: string, name: string): map<string, seq<string>> {
    if key in routing then routing[key := Sort(routing[key] + [name])] else routing[key := [name]]
  }

  function CreateQueue(b: Broker, name: string, key: string, size: uint32, retryLimit: uint32, hasDLQ: bool)
    : (Broker, Status)
  {
    if key == [] then (b, Err(MissingRoutingKey))
    else
      var (qm, status) := ManagerCreate(b.qm, name, size, retryLimit, hasDLQ);
      if status != Ok then (b, Err(FailedQueueCreation))
      else (Broker(Bind(b.routing, key, name), qm), Ok)
  }

  function AddRouteKey(b: Broker, key: string, name: string): (Broker, Status) {
    if key == [] then (b, Err(MissingRoutingKey))
    else if name == [] then (b, Err(InvalidQueueName))
    else if name !in b.qm.queues then (b, Err(QueueDoesNotExist))
    else (b.(routing := Bind(b.routing, key, name)), Ok)
  }

  function IndexOf(xs: seq<string>, x: string): (i: nat)
    ensures i <= |xs|
    ensures i < |xs| ==> xs[i] == x
    ensures forall j | 0 <= j < i :: xs[j] != x
  {
    if xs == [] || xs[0] == x then 0 else 1 + IndexOf(xs[1..], x)
  }

  function Unbind(routing: map<string, seq<string>>, key: string, name: string): map<string, seq<string>>
    requires key in routing && name in routing[key]
  {
    routing[key := RemoveAt(routing[key], IndexOf(routing[key], name))]
  }

  /** The keys that a queue is bound under. */
  function KeysOf(routing: map<string, seq<string>>, name: string): set<string> {
    set key | key in routing && name in routing[key]
  }

  /** DeleteQueue when the walk over the routing map meets the given key first among those that
      hold the name. */
  function DeleteQueueAt(b: Broker, name: string, key: string): (Broker, Status)
    requires key in KeysOf(b.routing, name)
  {
    var (qm, status) := ManagerDelete(b.qm, name);
    if status != Ok then (b, status) else (Broker(Unbind(b.routing, key, name), qm), Ok)
  }

  /** Some order of the walk over the routing map makes DeleteQueue end like this. */
  ghost predicate DeleteQueueMay(b: Broker, name: string, r: (Broker, Status)) {
    if KeysOf(b.routing, name) == {} then r == (b, Ok)
    else exists key :: key in KeysOf(b.routing, name) && r == DeleteQueueAt(b, name, key)
  }

  function DeleteRoutingKey(b: Broker, key: string, name: string): (Broker, Status) {
    if key == [] then (b, Err(MissingRoutingKey))
    else if name == [] then (b, Err(InvalidQueueName))
    else if name !in b.qm.queues then (b, Err(QueueDoesNotExist))
    else if key !in b.routing then (b, Err(MissingRoutingKey))
    else if |KeysOf(b.routing, name)| == 1 then (b, Err(QueueMustHaveOneRoutingKey))
    else if name !in b.routing[key] then (b, Panic)
    else (b.(routing := Unbind(b.routing, key, name)), Ok)
  }

  // ----- delivery

  /** What a submission puts into each queue. */
  datatype Delivery = One(id: Bytes, data: Bytes) | Many(batch: seq<MessageBatch>)

  function Deliver(o: QueueObject, d: Delivery): QueueObject {
    match d
    case One(id, data) => o.(q := Enqueue(o.q, o.cfg.cap, id, data))
    case Many(batch) => o.(q := BatchEnqueue(o.q, o.cfg.cap, batch))
  }

  /** Delivery to one name; a missing queue is dropped silently. */
  function DeliverTo(qm: Manager, name: string, d: Delivery): Manager {
    if name in qm.queues && qm.queues[name] in qm.objects then
      var h := qm.queues[name];
      qm.(objects := qm.objects[h := Deliver(qm.objects[h], d)])
    else qm
  }

  /** Delivery to the names of a routing list, one after the other. */
  function DeliverAll(qm: Manager, names: seq<string>, d: Delivery): Manager
    decreases |names|
  {
    if names == [] then qm else DeliverAll(DeliverTo(qm, names[0], d), names[1..], d)
  }

  function AddMessage(b: Broker, key: string, data: Bytes, id: Bytes): (Broker, Status) {
    if data == [] then (b, Err(EmptyData))
    else if key !in b.routing then (b, Err(RoutingKeyDoesNotExist))
    else (b.(qm := DeliverAll(b.qm, b.routing[key], One(id, data))), Ok)
  }

  function BatchAddMessage(b: Broker, key: string, datas: seq<Bytes>, ids: seq<Bytes>): (Broker, Status) {
    if [] in datas then (b, Err(EmptyData))
    else if key !in b.routing then (b, Err(RoutingKeyDoesNotExist))
    else if |ids| < |datas| then
      // the goroutines index past the ids, unless no queue is found
      (b, if exists n | n in b.routing[key] :: n in b.qm.queues then Panic else Ok)
    else (b.(qm := DeliverAll(b.qm, b.routing[key], Many(Batch(datas, ids)))), Ok)
  }

  function Batch(datas: seq<Bytes>, ids: seq<Bytes>): (r: seq<MessageBatch>)
    requires |ids| >= |datas|
    ensures |r| == |datas|
  {
    seq(|datas|, i requires 0 <= i < |datas| => MessageBatch(ids[i], datas[i]))
  }
}
