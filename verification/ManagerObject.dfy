/** The queue manager as an object: a map of names to linked lists on the heap, some of which are
    the dead-letter queues of others. */
module ManagerObject {
  import opened Types
  import opened QueueModel
  import opened BatchNack
  import opened BrokerModel
  import opened LinkedQueue

  class QueueManager {
    var queues: map<string, LinkedList>
    const nodeTTL: int64

    ghost var store: seq<LinkedList>     // every queue that was made; its position is its handle
    ghost var dead: seq<DeadRef>         // the dead-letter pointer of each
    ghost var handles: map<string, Handle>
    ghost var Repr: set<object>

    ghost predicate Valid()
      reads this, Repr
    {
      ValidWith(Repr)
    }

    /** The queues are in good order, own the given objects and share none of them. */
    ghost predicate ValidWith(repr: set<object>)
      reads this, repr
    {
      && this in repr && Named()
      && (forall h {:trigger store[h]} | 0 <= h < |store| ::
           store[h] in repr && store[h].Repr <= repr && Sound(store[h]))
      && forall h, k {:trigger store[h], store[k]} | 0 <= h < |store| && 0 <= k < |store| && h != k ::
           store[h].Repr !! store[k].Repr
    }

    /** The names, handles and dead-letter pointers fit together. */
    ghost predicate Named()
      reads this
    {
      && |dead| == |store| && handles.Keys == queues.Keys
      && (forall n {:trigger handles[n]} | n in handles :: handles[n] < |store| && queues[n] == store[handles[n]])
      && forall h {:trigger dead[h]} | 0 <= h < |store| :: Linked(store[h].deadLetter, dead[h], store, dead)
    }

    ghost predicate Sound(l: LinkedList)
      reads l, l.Repr
    {
      l.Valid() && l in l.Repr && this !in l.Repr
    }

    /** The pointer leads where its handle says, to a queue without a dead-letter queue. */
    static ghost predicate Linked(pointer: DeadLetter, d: DeadRef, store: seq<LinkedList>, dead: seq<DeadRef>)
      requires |dead| == |store|
    {
      match d
      case NoPointer => pointer == DeadLetter.NoPointer
      case NilInterface => pointer == DeadLetter.NilInterface
      case Ref(k) => k < |store| && dead[k] == DeadRef.NoPointer && pointer == To(store[k])
    }

    ghost function Object(h: Handle): QueueObject
      requires h < |store| == |dead|
      reads this, store[h]
    {
      QueueObject(Config(store[h].cap, store[h].fetchLimit, store[h].nodeTTL), store[h].Value(), dead[h])
    }

    ghost function Objects(): (r: seq<QueueObject>)
      requires |store| == |dead|
      reads this, store
      ensures |r| == |store| && forall h {:trigger r[h]} | 0 <= h < |store| :: r[h] == Object(h)
    {
      seq(|store|, h requires 0 <= h < |store| == |dead| reads this, store => Object(h))
    }

    /** The manager stands for the given value. */
    ghost predicate Shows(qm: Manager)
      reads this, store
    {
      |dead| == |store| && Mirrors(qm, Objects(), handles, nodeTTL)
    }

    static ghost predicate Mirrors(qm: Manager, objects: seq<QueueObject>, handles: map<string, Handle>,
                                   nodeTTL: int64) {
      && qm.queues == handles && qm.nodeTTL == nodeTTL && qm.next == |objects|
      && (forall h: Handle :: h in qm.objects <==> h < |objects|)
      && forall h {:trigger qm.objects[h]} | h in qm.objects :: qm.objects[h] == objects[h]
    }

    /** Dead-letter pointers lead to queues without one. */
    static ghost predicate Refs(objects: seq<QueueObject>) {
      forall h {:trigger objects[h]} | 0 <= h < |objects| && objects[h].dead.Ref? ::
        var d := objects[h].dead.queue;
        d < |objects| && d != h && objects[d].dead == DeadRef.NoPointer
    }

    /** The value of the queue at a handle with its dead-letter queue. */
    static ghost function PairIn(objects: seq<QueueObject>, h: Handle): State
      requires h < |objects| && Refs(objects)
    {
      var o := objects[h];
      State(o.q, match o.dead
                 case NoPointer => QueueModel.NoPointer
                 case NilInterface => QueueModel.NilInterface
                 case Ref(d) => Dlq(objects[d].cfg.cap, objects[d].q))
    }

    static ghost function WithPairIn(objects: seq<QueueObject>, h: Handle, s: State): seq<QueueObject>
      requires h < |objects| && Refs(objects)
    {
      var o := objects[h];
      var own := objects[h := o.(q := s.q)];
      if o.dead.Ref? && s.dead.Dlq? then own[o.dead.queue := own[o.dead.queue].(q := s.dead.queue)] else own
    }

    static lemma WithQueue(objects: seq<QueueObject>, h: Handle, q: Queue)
      requires h < |objects| && Refs(objects)
      ensures WithPairIn(objects, h, PairIn(objects, h).(q := q)) == objects[h := objects[h].(q := q)]
    {
    }

    static lemma MirrorsPair(qm: Manager, objects: seq<QueueObject>, handles: map<string, Handle>, nodeTTL: int64,
                             h: Handle, s: State)
      requires Mirrors(qm, objects, handles, nodeTTL) && Refs(objects) && h < |objects|
      ensures h in qm.objects && qm.objects[h] == objects[h] && Pair(qm, h) == PairIn(objects, h)
      ensures Mirrors(WithPair(qm, h, s), WithPairIn(objects, h, s), handles, nodeTTL)
    {
    }

    static lemma MirrorsAdd(qm: Manager, objects: seq<QueueObject>, handles: map<string, Handle>, nodeTTL: int64,
                            name: string, o: QueueObject)
      requires Mirrors(qm, objects, handles, nodeTTL)
      ensures Mirrors(qm.(queues := qm.queues[name := qm.next], objects := qm.objects[qm.next := o],
                              next := qm.next + 1),
                      objects + [o], handles[name := |objects|], nodeTTL)
    {
    }

    static lemma MirrorsDeliver(qm: Manager, objects: seq<QueueObject>, handles: map<string, Handle>, nodeTTL: int64,
                                name: string, d: Delivery)
      requires Mirrors(qm, objects, handles, nodeTTL) && forall n | n in handles :: handles[n] < |objects|
      ensures name in qm.queues <==> name in handles
      ensures Mirrors(DeliverTo(qm, name, d),
                      if name in handles then objects[handles[name] := Deliver(objects[handles[name]], d)] else objects,
                      handles, nodeTTL)
    {
    }

    /** The queue, the reply, and whether the list is left in good order. */
    static ghost function AfterBatchAck(q: Queue, c: Bytes, ids: seq<Bytes>): (Queue, Reply, bool) {
      if |ids| == 1 then
        var r := QueueModel.Ack(q, c, ids[0]);
        (r.0, r.1, true)
      else
        var r := QueueModel.BatchAck(q, c, ids);
        (q.(live := r.live), r.reply, r.reply != Panicked && r.tail == |r.live| - 1)
    }

    static lemma MirrorsBatchAck(qm: Manager, objects: seq<QueueObject>, handles: map<string, Handle>, nodeTTL: int64,
                                 name: string, c: Bytes, ids: seq<Bytes>)
      requires Mirrors(qm, objects, handles, nodeTTL) && Refs(objects) && name in handles && handles[name] < |objects|
      ensures
        var h, m := handles[name], ManagerBatchAck(qm, name, c, ids);
        var s := PairIn(objects, h);
        var r := AfterBatchAck(s.q, c, ids);
        && m.1 == (if r.1 == Panicked then Panic
                   else if !r.2 then Damaged
                   else if r.1 == Done then Ok else Err(NotHeld))
        && (r.2 ==> Mirrors(m.0, WithPairIn(objects, h, s.(q := r.0)), handles, nodeTTL))
    {
      var h := handles[name];
      MirrorsPair(qm, objects, handles, nodeTTL, h, PairIn(objects, h).(q := AfterBatchAck(objects[h].q, c, ids).0));
      MirrorsNames(qm, objects, handles, nodeTTL);
      hide Mirrors, Refs, WithPair, WithPairIn, Pair, QueueModel.Ack, QueueModel.BatchAck;
    }

    /** A walk from Head does not end in a node that has been reset. */
    static ghost predicate Unsevered(s: State, limit: uint32, ids: seq<Bytes>) {
      !Severed(Expiring(s.q.live, NackMarks(s.q.live, ids), limit))
    }

    static lemma MirrorsBatchNack(qm: Manager, objects: seq<QueueObject>, handles: map<string, Handle>, nodeTTL: int64,
                                  name: string, ids: seq<Bytes>)
      requires Mirrors(qm, objects, handles, nodeTTL) && Refs(objects) && name in handles && handles[name] < |objects|
      ensures
        var h, m := handles[name], ManagerBatchNack(qm, name, ids);
        var s, limit := PairIn(objects, h), objects[h].cfg.fetchLimit;
        var r := NackMany(s, limit, ids);
        && m.1 == (if r.1 == Panicked then Panic else if r.1 == Refused then Err(NotHeld)
                   else if Unsevered(s, limit, ids) then Ok else Damaged)
        && (m.1 == Ok || m.1.Err? ==> Mirrors(m.0, WithPairIn(objects, h, r.0), handles, nodeTTL))
    {
      var h := handles[name];
      var s, limit := PairIn(objects, h), objects[h].cfg.fetchLimit;
      MirrorsPair(qm, objects, handles, nodeTTL, h, NackMany(s, limit, ids).0);
      MirrorsNames(qm, objects, handles, nodeTTL);
      RefusedChangesNothing(s, limit, ids);
      assert NackMany(s, limit, ids).1 == Refused ==> WithPairIn(objects, h, s) == objects;
      hide Mirrors, Refs, WithPair, WithPairIn, Pair, NackMany, Expiring, NackMarks, Severed;
    }

    constructor (nodeTTL: int64)
      ensures Valid() && fresh(Repr)
      ensures Shows(Manager(map[], map[], 0, nodeTTL))
    {
      this.nodeTTL, queues := nodeTTL, map[];
      store, dead, handles := [], [], map[];
      new;
      Repr := {this};
    }

    /** The dead-letter queue of a queue, or the queue itself. */
    ghost function Mate(h: Handle): Handle
      requires h < |dead|
      reads this
    {
      if dead[h].Ref? && dead[h].queue < |dead| then dead[h].queue else h
    }

    /** What Valid says of a name. */
    lemma Find(name: string)
      requires Valid()
      ensures this in Repr && |dead| == |store|
      ensures queues.Keys == handles.Keys
      ensures forall n {:trigger handles[n]} | n in handles :: handles[n] < |store|
      ensures name in queues ==> queues[name] == store[handles[name]]
      ensures Refs(Objects())
    {
      forall h {:trigger Objects()[h]} | 0 <= h < |store| && dead[h].Ref?
        ensures dead[h].queue < |store| && dead[h].queue != h && dead[dead[h].queue] == DeadRef.NoPointer
      {
        assert Linked(store[h].deadLetter, dead[h], store, dead);
      }
      hide Sound, LinkedList.Value;
    }

    /** What Valid says of a queue and its dead-letter queue. */
    lemma At(h: Handle)
      requires Valid() && h < |store|
      ensures |dead| == |store| && this in Repr
      ensures store[h] in Repr && store[h].Repr <= Repr && this !in store[h].Repr
      ensures store[h] in store[h].Repr && store[h].Valid()
      ensures Linked(store[h].deadLetter, dead[h], store, dead)
    {
      hide LinkedList.Valid;
      assert Linked(store[h].deadLetter, dead[h], store, dead);
    }

    lemma Apart(h: Handle, k: Handle)
      requires Valid() && h < |store| && k < |store| && h != k
      ensures store[h].Repr !! store[k].Repr
    {
    }

    /** A queue and its dead-letter queue have changed within their own objects and new ones. */
    twostate predicate Changed(h: Handle)
      requires h < |store| == |dead|
      reads this, Repr, store[h], store[h].Repr, store[Mate(h)], store[Mate(h)].Repr
    {
      var d := Mate(h);
      && old(Valid()) && unchanged(this)
      && (forall o: object {:trigger o in old(Repr)} ::
            o in old(Repr) && o !in old(store[h].Repr) && o !in old(store[d].Repr) ==> unchanged(o))
      && store[h].Valid() && fresh(store[h].Repr - old(store[h].Repr))
      && store[d].Valid() && fresh(store[d].Repr - old(store[d].Repr))
      && (h != d ==> store[h].Repr !! store[d].Repr)
    }

    /** After such a change the manager is in good order with what the two own now. */
    twostate lemma Settles(h: Handle)
      requires h < |store| == |dead| && Changed(h)
      ensures ValidWith(Repr + store[h].Repr + store[Mate(h)].Repr)
      ensures Objects() == old(Objects())[h := Object(h)][Mate(h) := Object(Mate(h))]
    {
      var d := Mate(h);
      forall k {:trigger store[k]} | 0 <= k < |store| && k != h && k != d
        ensures Sound(store[k]) && store[k].Value() == old(store[k].Value()) && store[k].Repr == old(store[k].Repr)
      {
        assert old(store[k] in Repr && store[k].Repr <= Repr && Sound(store[k]));
        assert old(store[h] in Repr && store[d] in Repr);
        assert old(store[k].Repr !! store[h].Repr) && old(store[k].Repr !! store[d].Repr);
        assert unchanged(store[k]);
        assert forall o | o in old(store[k].Repr) :: unchanged(o);
        assert unchanged(old(store[k].Repr));
      }
    }

    /** The same when only the queue itself has a new value. */
    twostate lemma SettlesOne(h: Handle)
      requires h < |store| == |dead| && Changed(h) && MateSame(h)
      ensures ValidWith(Repr + store[h].Repr + store[Mate(h)].Repr)
      ensures Objects() == old(Objects())[h := Object(h)]
    {
      hide Changed, ValidWith, LinkedList.Value;
      Settles(h);
      assert old(Objects())[Mate(h)] == old(Object(Mate(h)));
    }

    twostate predicate MateSame(h: Handle)
      requires h < |store| == |dead|
      reads this, store
    {
      && Mate(h) < |store| && store == old(store) && dead == old(dead)
      && (Mate(h) != h ==> store[Mate(h)].Value() == old(store[Mate(h)].Value()))
    }

    ghost method Adopt(repr: set<object>)
      requires ValidWith(repr)
      modifies `Repr
      ensures Valid() && Repr == repr
      ensures |store| == |dead| && Objects() == old(Objects())
    {
      Repr := repr;
    }

    /** The value of a queue and its dead-letter queue, through the pointer and through the handles. */
    lemma PairAt(h: Handle)
      requires Valid() && h < |store|
      ensures |store| == |dead| && Refs(Objects()) && store[h].ValidPair()
      ensures store[h].PairValue() == PairIn(Objects(), h)
      ensures store[h].DeadRepr() == if dead[h].Ref? then {store[Mate(h)]} + store[Mate(h)].Repr else {}
    {
      Find("");
      At(h);
      At(Mate(h));
      if h != Mate(h) {
        Apart(h, Mate(h));
      }
      hide Valid, Sound, LinkedList.Valid, LinkedList.Value;
    }

    method AddMessage(name: string, data: Bytes, id: Bytes, ghost qm: Manager) returns (status: Status)
      requires Valid() && Shows(qm)
      modifies Repr
      ensures Valid() && fresh(Repr - old(Repr))
      ensures Shows(DeliverTo(qm, name, One(id, data)))
      ensures status == if name in qm.queues then Ok else Err(QueueMissing)
    {
      Find(name);
      hide Valid, Deliver, Mirrors, Objects, Object;
      MirrorsDeliver(qm, Objects(), handles, nodeTTL, name, One(id, data));
      if name !in queues {
        return Err(QueueMissing);
      }
      DeliverAt(queues[name], One(id, data), handles[name]);
      return Ok;
    }

    /** Builds the batch and appends it; with too few ids the loop indexes past their end. */
    method BatchAddMessage(name: string, datas: seq<Bytes>, ids: seq<Bytes>, ghost qm: Manager) returns (status: Status)
      requires Valid() && Shows(qm)
      modifies Repr
      ensures Valid() && fresh(Repr - old(Repr))
      ensures status == if name !in qm.queues then Err(QueueMissing) else if |ids| < |datas| then Panic else Ok
      ensures Shows(if |ids| < |datas| then qm else DeliverTo(qm, name, Many(Batch(datas, ids))))
    {
      hide Valid, Shows, Batch;
      var found := Exists(name, qm);
      if !found {
        return Err(QueueMissing);
      }
      var messages, panicked := BuildBatch(datas, ids);
      if panicked {
        return Panic;
      }
      AddBatch(name, messages, qm);
      return Ok;
    }

    method AddBatch(name: string, messages: seq<MessageBatch>, ghost qm: Manager)
      requires Valid() && Shows(qm) && name in qm.queues
      modifies Repr
      ensures Valid() && fresh(Repr - old(Repr))
      ensures Shows(DeliverTo(qm, name, Many(messages)))
    {
      Find(name);
      hide Valid, Deliver, Mirrors, Objects, Object;
      MirrorsDeliver(qm, Objects(), handles, nodeTTL, name, Many(messages));
      DeliverAt(queues[name], Many(messages), handles[name]);
    }

    method Exists(name: string, ghost qm: Manager) returns (found: bool)
      requires Valid() && Shows(qm)
      ensures found <==> name in qm.queues
      ensures !found ==> forall d :: DeliverTo(qm, name, d) == qm
    {
      Find(name);
      found := name in queues;
    }

    static method BuildBatch(datas: seq<Bytes>, ids: seq<Bytes>) returns (messages: seq<MessageBatch>, panicked: bool)
      ensures panicked <==> |ids| < |datas|
      ensures !panicked ==> messages == Batch(datas, ids)
    {
      messages := [];
      for i := 0 to |datas|
        invariant i <= |ids| && |messages| == i
        invariant forall j | 0 <= j < i :: messages[j] == MessageBatch(ids[j], datas[j])
      {
        if i == |ids| {
          return messages, true;
        }
        messages := messages + [MessageBatch(ids[i], datas[i])];
      }
      return messages, false;
    }

    static method Pack(data: seq<Bytes>, ids: seq<Bytes>, ghost got: seq<Msg>) returns (messages: seq<MessageBatch>)
      requires data == Vals(got) && ids == Ids(got)
      ensures messages == Handed(got)
    {
      messages := [];
      for i := 0 to |ids|
        invariant |messages| == i && forall j | 0 <= j < i :: messages[j] == MessageBatch(ids[j], data[j])
      {
        messages := messages + [MessageBatch(ids[i], data[i])];
      }
    }

    static lemma MirrorsNames(qm: Manager, objects: seq<QueueObject>, handles: map<string, Handle>, nodeTTL: int64)
      requires Mirrors(qm, objects, handles, nodeTTL)
      ensures qm.queues == handles && qm.nodeTTL == nodeTTL && qm.next == |objects|
      ensures forall h: Handle :: h in qm.objects <==> h < |objects|
    {
    }

    method DeliverAt(queue: LinkedList, d: Delivery, ghost h: Handle)
      requires Valid() && h < |store| == |dead| && store[h] == queue
      modifies Repr
      ensures Valid() && fresh(Repr - old(Repr)) && unchanged(`store, `dead, `handles)
      ensures Objects() == old(Objects())[h := Deliver(old(Object(h)), d)]
    {
      Find("");
      hide Valid, LinkedList.Value, ValidWith, Changed, MateSame, QueueModel.Enqueue, QueueModel.BatchEnqueue;
      match d {
        case One(id, data) => EnqueueIn(queue, id, data, h);
        case Many(batch) => BatchEnqueueIn(queue, batch, h);
      }
      SettlesOne(h);
      Adopt(Repr + store[h].Repr + store[Mate(h)].Repr);
    }

    method EnqueueIn(queue: LinkedList, id: Bytes, data: Bytes, ghost h: Handle)
      requires Valid() && h < |store| == |dead| && store[h] == queue
      modifies Repr
      ensures unchanged(this) && Changed(h) && MateSame(h)
      ensures queue.Value() == QueueModel.Enqueue(old(queue.Value()), queue.cap, id, data)
    {
      Two(h);
      hide Valid, ValidWith, Sound, LinkedList.Valid, LinkedList.Value, QueueModel.Enqueue;
      queue.Enqueue(id, data);
    }

    method BatchEnqueueIn(queue: LinkedList, batch: seq<MessageBatch>, ghost h: Handle)
      requires Valid() && h < |store| == |dead| && store[h] == queue
      modifies Repr
      ensures unchanged(this) && Changed(h) && MateSame(h)
      ensures queue.Value() == QueueModel.BatchEnqueue(old(queue.Value()), queue.cap, batch)
    {
      Two(h);
      hide Valid, ValidWith, Sound, LinkedList.Valid, LinkedList.Value, QueueModel.BatchEnqueue;
      queue.BatchEnqueue(batch);
    }

    method DequeueIn(queue: LinkedList, amount: uint32, c: Bytes, now: int64, ghost h: Handle)
      returns (data: seq<Bytes>, ids: seq<Bytes>)
      requires Valid() && h < |store| == |dead| && store[h] == queue
      modifies Repr
      ensures unchanged(this) && Changed(h) && MateSame(h)
      ensures
        var q := old(queue.Value());
        var r := Fetch(q.live, amount, c, now, queue.nodeTTL);
        queue.Value() == q.(live := r.live) && data == Vals(r.got) && ids == Ids(r.got)
    {
      Two(h);
      hide Valid, ValidWith, Sound, LinkedList.Valid, Fetch, Vals, Ids;
      data, ids := queue.Dequeue(amount, c, now);
    }

    method AckIn(queue: LinkedList, c: Bytes, id: Bytes, ghost h: Handle) returns (reply: Reply)
      requires Valid() && h < |store| == |dead| && store[h] == queue
      modifies Repr
      ensures unchanged(this) && Changed(h) && MateSame(h)
      ensures (queue.Value(), reply) == QueueModel.Ack(old(queue.Value()), c, id)
    {
      Two(h);
      hide Valid, ValidWith, Sound, LinkedList.Valid, LinkedList.Value, QueueModel.Ack;
      reply := queue.UnlockAndEmpty(c, id);
    }

    /** What Valid says of a queue and its dead-letter queue together. */
    lemma Two(h: Handle)
      requires Valid() && h < |store|
      ensures |dead| == |store| && this in Repr && Mate(h) < |store|
      ensures store[h] in Repr && store[h].Repr <= Repr && this !in store[h].Repr
      ensures store[h] in store[h].Repr && store[h].Valid()
      ensures var m := store[Mate(h)]; m in Repr && m.Repr <= Repr && this !in m.Repr && m in m.Repr && m.Valid()
      ensures Mate(h) != h ==> store[h].Repr !! store[Mate(h)].Repr
    {
      hide LinkedList.Valid;
      At(h);
      At(Mate(h));
      if h != Mate(h) {
        Apart(h, Mate(h));
      }
    }

    method GetMessage(name: string, amount: uint32, c: Bytes, now: int64, ghost qm: Manager)
      returns (status: Status, messages: seq<MessageBatch>)
      requires Valid() && Shows(qm)
      modifies Repr
      ensures Valid() && fresh(Repr - old(Repr))
      ensures var r := ManagerGet(qm, name, amount, c, now); Shows(r.0) && status == r.1 && messages == r.2
    {
      Find(name);
      hide Valid, Mirrors, Objects, Object, Fetch, WithPair, Pair, Handed, Refs;
      MirrorsNames(qm, Objects(), handles, nodeTTL);
      if name !in queues {
        return Err(QueueMissing), [];
      }
      status := Ok;
      messages := FetchFrom(queues[name], amount, c, now, handles[name], qm);
    }

    method FetchFrom(queue: LinkedList, amount: uint32, c: Bytes, now: int64, ghost h: Handle, ghost qm: Manager)
      returns (messages: seq<MessageBatch>)
      requires Valid() && Shows(qm) && h < |store| == |dead| && store[h] == queue && h in qm.objects && Refs(Objects())
      modifies Repr
      ensures Valid() && fresh(Repr - old(Repr))
      ensures
        var s := Pair(qm, h);
        var r := Fetch(s.q.live, amount, c, now, qm.objects[h].cfg.ttl);
        Shows(WithPair(qm, h, s.(q := s.q.(live := r.live)))) && messages == Handed(r.got)
    {
      hide Valid, Mirrors, Objects, Object, Fetch, WithPair, Pair, Handed, WithPairIn, Refs;
      ghost var objects := Objects();
      ghost var got := Fetch(objects[h].q.live, amount, c, now, objects[h].cfg.ttl);
      MirrorsPair(qm, objects, handles, nodeTTL, h, PairIn(objects, h).(q := objects[h].q.(live := got.live)));
      var data, ids := DequeueAt(queue, amount, c, now, h);
      messages := Pack(data, ids, got.got);
    }

    method DequeueAt(queue: LinkedList, amount: uint32, c: Bytes, now: int64, ghost h: Handle)
      returns (data: seq<Bytes>, ids: seq<Bytes>)
      requires Valid() && h < |store| == |dead| && store[h] == queue && Refs(Objects())
      modifies Repr
      ensures Valid() && fresh(Repr - old(Repr)) && unchanged(`store, `dead, `handles)
      ensures
        var objects := old(Objects());
        var r := Fetch(objects[h].q.live, amount, c, now, objects[h].cfg.ttl);
        && Objects() == WithPairIn(objects, h, PairIn(objects, h).(q := objects[h].q.(live := r.live)))
        && data == Vals(r.got) && ids == Ids(r.got)
    {
      Find("");
      ghost var o := Objects()[h];
      WithQueue(Objects(), h, o.q.(live := Fetch(o.q.live, amount, c, now, o.cfg.ttl).live));
      hide Valid, LinkedList.Value, ValidWith, Changed, MateSame, Fetch, Vals, Ids, WithPairIn, PairIn;
      data, ids := DequeueIn(queue, amount, c, now, h);
      SettlesOne(h);
      Adopt(Repr + store[h].Repr + store[Mate(h)].Repr);
    }

    /** Pointers lead where they led when a queue is added. */
    static lemma LinkedMore(store: seq<LinkedList>, dead: seq<DeadRef>, l: LinkedList, e: DeadRef)
      requires |dead| == |store|
      ensures forall pointer, d :: Linked(pointer, d, store, dead) ==> Linked(pointer, d, store + [l], dead + [e])
    {
    }

    /** Takes a new queue in under a name. */
    method Add(name: string, l: LinkedList, ghost d: DeadRef)
      requires Valid() && |store| == |dead| && l.Valid() && l in l.Repr && this !in l.Repr && l.Repr !! Repr
      requires Linked(l.deadLetter, d, store, dead)
      modifies `queues, `handles, `store, `dead, `Repr
      ensures Valid() && Repr == old(Repr) + l.Repr && store == old(store) + [l] && |dead| == |store|
      ensures dead == old(dead) + [d] && queues == old(queues)[name := l]
      ensures handles == old(handles)[name := |old(store)|]
      ensures Objects() == old(Objects()) + [QueueObject(Config(l.cap, l.fetchLimit, l.nodeTTL), l.Value(), d)]
    {
      hide LinkedList.Valid, LinkedList.Value, Linked;
      LinkedMore(store, dead, l, d);
      queues, handles := queues[name := l], handles[name := |store|];
      store, dead := store + [l], dead + [d];
      Repr := Repr + l.Repr;
    }

    method CreateQueue(name: string, size: uint32, retryLimit: uint32, hasDLQ: bool, ghost qm: Manager)
      returns (status: Status)
      requires Valid() && Shows(qm)
      modifies this
      ensures Valid() && fresh(Repr - old(Repr))
      ensures var r := ManagerCreate(qm, name, size, retryLimit, hasDLQ); Shows(r.0) && status == r.1
    {
      Find(name);
      hide Valid, Mirrors, Objects;
      MirrorsNames(qm, Objects(), handles, nodeTTL);
      if |name| == 0 {
        return Err(InvalidQueueName);
      }
      if size == 0 {
        return Err(InvalidQueueSize);
      }
      if name in queues {
        return Err(QueueAlreadyExists);
      }
      if hasDLQ {
        CreatePair(name, size, retryLimit, qm);
      } else {
        var queue := CreateOne(name, size, retryLimit, DeadLetter.NilInterface, DeadRef.NilInterface, qm);
      }
      return Ok;
    }

    /** A queue and, before it, its dead-letter queue. */
    method CreatePair(name: string, size: uint32, retryLimit: uint32, ghost qm: Manager)
      requires Valid() && Shows(qm)
      modifies `queues, `handles, `store, `dead, `Repr
      ensures Valid() && fresh(Repr - old(Repr))
      ensures Shows(Created(Created(qm, name + "-dlq", size, retryLimit, DeadRef.NoPointer), name, size, retryLimit,
                            Ref(qm.next)))
    {
      Find(name);
      hide Valid, Shows, Created;
      var dlq := CreateOne(name + "-dlq", size, retryLimit, DeadLetter.NoPointer, DeadRef.NoPointer, qm);
      ghost var qm1 := Created(qm, name + "-dlq", size, retryLimit, DeadRef.NoPointer);
      var queue := CreateOne(name, size, retryLimit, To(dlq), Ref(qm.next), qm1);
    }

    static ghost function Created(qm: Manager, name: string, size: uint32, retryLimit: uint32, d: DeadRef): Manager {
      qm.(queues := qm.queues[name := qm.next],
          objects := qm.objects[qm.next := QueueObject(Config(size, retryLimit, qm.nodeTTL), Queue([], 0), d)],
          next := qm.next + 1)
    }

    method CreateOne(name: string, size: uint32, retryLimit: uint32, dlq: DeadLetter, ghost d: DeadRef,
                     ghost qm: Manager)
      returns (queue: LinkedList)
      requires Valid() && Shows(qm) && |store| == |dead| && Linked(dlq, d, store, dead)
      modifies `queues, `handles, `store, `dead, `Repr
      ensures Valid() && fresh(Repr - old(Repr)) && Shows(Created(qm, name, size, retryLimit, d))
      ensures |store| == |dead| && (d == DeadRef.NoPointer ==> Linked(To(queue), Ref(qm.next), store, dead))
    {
      Find(name);
      hide Valid, Mirrors, Objects;
      MirrorsNames(qm, Objects(), handles, nodeTTL);
      MirrorsAdd(qm, Objects(), handles, nodeTTL, name,
                 QueueObject(Config(size, retryLimit, nodeTTL), Queue([], 0), d));
      queue := new LinkedList(size, retryLimit, nodeTTL, dlq);
      Add(name, queue, d);
    }

    method Delete(name: string, ghost qm: Manager) returns (status: Status)
      requires Valid() && Shows(qm)
      modifies `queues, `handles
      ensures Valid()
      ensures var r := ManagerDelete(qm, name); Shows(r.0) && status == r.1
    {
      hide LinkedList.Valid, LinkedList.Value, Objects;
      if name !in queues {
        return Err(QueueMissing);
      }
      queues, handles := queues - {name}, handles - {name};
      return Ok;
    }

    method Ack(name: string, c: Bytes, id: Bytes, ghost qm: Manager) returns (status: Status)
      requires Valid() && Shows(qm)
      modifies Repr
      ensures Valid() && fresh(Repr - old(Repr))
      ensures var r := ManagerAck(qm, name, c, id); Shows(r.0) && status == r.1
    {
      Find(name);
      hide Valid, Mirrors, Objects, Object, QueueModel.Ack, WithPair, Pair, WithPairIn, Refs;
      MirrorsNames(qm, Objects(), handles, nodeTTL);
      if name !in queues {
        return Err(QueueMissing);
      }
      ghost var h, objects := handles[name], Objects();
      MirrorsPair(qm, objects, handles, nodeTTL, h, PairIn(objects, h).(q := QueueModel.Ack(objects[h].q, c, id).0));
      var reply := AckAt(queues[name], c, id, handles[name]);
      return if reply == Done then Ok else Err(NotHeld);
    }

    method AckAt(queue: LinkedList, c: Bytes, id: Bytes, ghost h: Handle) returns (reply: Reply)
      requires Valid() && h < |store| == |dead| && store[h] == queue && Refs(Objects())
      modifies Repr
      ensures Valid() && fresh(Repr - old(Repr)) && unchanged(`store, `dead, `handles)
      ensures
        var objects := old(Objects());
        var r := QueueModel.Ack(objects[h].q, c, id);
        Objects() == WithPairIn(objects, h, PairIn(objects, h).(q := r.0)) && reply == r.1
    {
      Find("");
      WithQueue(Objects(), h, QueueModel.Ack(Objects()[h].q, c, id).0);
      hide Valid, LinkedList.Value, ValidWith, Changed, MateSame, QueueModel.Ack, WithPairIn, PairIn;
      reply := AckIn(queue, c, id, h);
      SettlesOne(h);
      Adopt(Repr + store[h].Repr + store[Mate(h)].Repr);
    }

    /** After a crash nothing is promised of the queues. */
    method Nack(name: string, c: Bytes, id: Bytes, ghost qm: Manager) returns (status: Status)
      requires Valid() && Shows(qm)
      modifies Repr
      ensures status == ManagerNack(qm, name, c, id).1
      ensures status != Panic ==> Valid() && fresh(Repr - old(Repr)) && Shows(ManagerNack(qm, name, c, id).0)
    {
      Find(name);
      hide Valid, Mirrors, Objects, Object, QueueModel.Nack, WithPair, Pair, WithPairIn, Refs;
      MirrorsNames(qm, Objects(), handles, nodeTTL);
      if name !in queues {
        return Err(QueueMissing);
      }
      ghost var h, objects := handles[name], Objects();
      MirrorsPair(qm, objects, handles, nodeTTL, h,
                  QueueModel.Nack(PairIn(objects, h), objects[h].cfg.fetchLimit, c, id).0);
      var reply := NackAt(queues[name], c, id, handles[name]);
      return if reply == Done then Ok else if reply == Refused then Err(FailedEmpty) else Panic;
    }

    method NackAt(queue: LinkedList, c: Bytes, id: Bytes, ghost h: Handle) returns (reply: Reply)
      requires Valid() && h < |store| == |dead| && store[h] == queue && Refs(Objects())
      modifies Repr
      ensures
        var objects := old(Objects());
        var r := QueueModel.Nack(PairIn(objects, h), objects[h].cfg.fetchLimit, c, id);
        && reply == r.1
        && (reply != Panicked ==>
              && Valid() && fresh(Repr - old(Repr)) && unchanged(`store, `dead, `handles)
              && Objects() == WithPairIn(objects, h, r.0))
    {
      Find("");
      hide Valid, ValidWith, QueueModel.Nack, Changed;
      reply := UnlockAt(queue, c, id, h);
      if reply != Panicked {
        Settles(h);
        Adopt(Repr + store[h].Repr + store[Mate(h)].Repr);
      }
    }

    method UnlockAt(queue: LinkedList, c: Bytes, id: Bytes, ghost h: Handle) returns (reply: Reply)
      requires Valid() && h < |store| == |dead| && store[h] == queue && Refs(Objects())
      modifies Repr
      ensures unchanged(this) && Mate(h) < |store|
      ensures
        var r := QueueModel.Nack(PairIn(old(Objects()), h), store[h].fetchLimit, c, id);
        reply == r.1 && (reply != Panicked ==> Changed(h) && Holds(h, r.0))
    {
      PairAt(h);
      LinkedAt(h);
      hide Valid, Changed, QueueModel.Nack;
      reply := UnlockIn(queue, c, id, h);
    }

    method UnlockIn(queue: LinkedList, c: Bytes, id: Bytes, ghost h: Handle) returns (reply: Reply)
      requires Valid() && h < |store| == |dead| && store[h] == queue
      modifies Repr
      ensures unchanged(this)
      ensures (queue.PairValue(), reply) == QueueModel.Nack(old(queue.PairValue()), queue.fetchLimit, c, id)
      ensures reply != Panicked ==> Changed(h)
    {
      hide Valid, ValidWith, Sound, LinkedList.Valid, LinkedList.PairValue, QueueModel.Nack;
      Two(h);
      PairAt(h);
      LinkedAt(h);
      reply := queue.Unlock(c, id);
    }

    lemma LinkedAt(h: Handle)
      requires Valid() && h < |store|
      ensures |dead| == |store| && Mate(h) < |store|
      ensures dead[h].Ref? ==> store[h].deadLetter == To(store[Mate(h)])
    {
      hide LinkedList.Valid;
      assert Linked(store[h].deadLetter, dead[h], store, dead);
    }

    /** The queue and its dead-letter queue have this value. */
    ghost predicate Holds(h: Handle, s: State)
      requires h < |store| == |dead|
      reads this, store
    {
      store[h].Value() == s.q && (dead[h].Ref? ==> s.dead.Dlq? && store[Mate(h)].Value() == s.dead.queue)
    }

    /** After a crash, or a refusal that leaves a damaged list, nothing is promised of the queues. */
    method BatchAck(name: string, c: Bytes, ids: seq<Bytes>, ghost qm: Manager) returns (status: Status)
      requires Valid() && Shows(qm)
      modifies Repr
      ensures var r := ManagerBatchAck(qm, name, c, ids);
        && (status == Panic <==> r.1 == Panic)
        && (r.1 == Ok || r.1.Err? ==> status == r.1 && Valid() && fresh(Repr - old(Repr)) && Shows(r.0))
    {
      Find(name);
      MirrorsNames(qm, Objects(), handles, nodeTTL);
      hide Valid, Mirrors, Objects, Object, AfterBatchAck, WithPairIn, Refs, PairIn;
      if name !in queues {
        return Err(QueueMissing);
      }
      MirrorsBatchAck(qm, Objects(), handles, nodeTTL, name, c, ids);
      hide ManagerBatchAck;
      var reply := BatchAckAt(queues[name], c, ids, handles[name]);
      return if reply == Done then Ok else if reply == Refused then Err(NotHeld) else Panic;
    }

    method BatchAckAt(queue: LinkedList, c: Bytes, ids: seq<Bytes>, ghost h: Handle) returns (reply: Reply)
      requires Valid() && h < |store| == |dead| && store[h] == queue && Refs(Objects())
      modifies Repr
      ensures
        var objects := old(Objects());
        var r := AfterBatchAck(objects[h].q, c, ids);
        && reply == r.1
        && (r.2 ==>
              && Valid() && fresh(Repr - old(Repr)) && unchanged(`store, `dead, `handles)
              && Objects() == WithPairIn(objects, h, PairIn(objects, h).(q := r.0)))
    {
      Find("");
      hide Valid, ValidWith, AfterBatchAck, Changed;
      ghost var r := AfterBatchAck(Objects()[h].q, c, ids);
      reply := ReleaseAt(queue, c, ids, h);
      if r.2 {
        Settles(h);
        Adopt(Repr + store[h].Repr + store[Mate(h)].Repr);
      }
    }

    method ReleaseAt(queue: LinkedList, c: Bytes, ids: seq<Bytes>, ghost h: Handle) returns (reply: Reply)
      requires Valid() && h < |store| == |dead| && store[h] == queue && Refs(Objects())
      modifies Repr
      ensures unchanged(this) && Mate(h) < |store|
      ensures
        var s := PairIn(old(Objects()), h);
        var r := AfterBatchAck(s.q, c, ids);
        reply == r.1 && (r.2 ==> Changed(h) && Holds(h, s.(q := r.0)))
    {
      hide Valid, ValidWith, Sound, LinkedList.Valid, AfterBatchAck;
      Two(h);
      PairAt(h);
      reply := Release(queue, c, ids);
    }

    static method Release(queue: LinkedList, c: Bytes, ids: seq<Bytes>) returns (reply: Reply)
      requires queue.Valid()
      modifies queue.Repr
      ensures queue.Repr == old(queue.Repr)
      ensures var r := AfterBatchAck(old(queue.Value()), c, ids);
        reply == r.1 && (r.2 ==> queue.Valid() && queue.Value() == r.0)
    {
      hide LinkedList.ChainedTo, QueueModel.BatchAck, QueueModel.Ack;
      ghost var r := AfterBatchAck(queue.Value(), c, ids);
      reply := queue.UnlockAndEmptyBatch(c, ids);
      if r.2 && |ids| != 1 {
        queue.SizedTo(|r.0.live| - 1);
      }
    }

    /** After a crash, or a batch that leaves a damaged list, nothing is promised of the queues. */
    method BatchNack(name: string, c: Bytes, ids: seq<Bytes>, ghost qm: Manager) returns (status: Status)
      requires Valid() && Shows(qm)
      modifies Repr
      ensures var r := ManagerBatchNack(qm, name, ids);
        && (status == Panic <==> r.1 == Panic)
        && (r.1 == Ok || r.1.Err? ==> status == r.1 && Valid() && fresh(Repr - old(Repr)) && Shows(r.0))
    {
      Find(name);
      MirrorsNames(qm, Objects(), handles, nodeTTL);
      hide Valid, Mirrors, Objects, Object, NackMany, WithPairIn, Refs, PairIn, Unsevered;
      if name !in queues {
        return Err(QueueMissing);
      }
      MirrorsBatchNack(qm, Objects(), handles, nodeTTL, name, ids);
      hide ManagerBatchNack;
      var reply := BatchNackAt(queues[name], c, ids, handles[name]);
      return if reply == Done then Ok else if reply == Refused then Err(NotHeld) else Panic;
    }

    method BatchNackAt(queue: LinkedList, c: Bytes, ids: seq<Bytes>, ghost h: Handle) returns (reply: Reply)
      requires Valid() && h < |store| == |dead| && store[h] == queue && Refs(Objects())
      modifies Repr
      ensures
        var objects := old(Objects());
        var s, limit := PairIn(objects, h), objects[h].cfg.fetchLimit;
        var r := NackMany(s, limit, ids);
        && reply == r.1
        && (reply == Refused || (reply == Done && Unsevered(s, limit, ids)) ==>
              && Valid() && fresh(Repr - old(Repr)) && unchanged(`store, `dead, `handles)
              && Objects() == WithPairIn(objects, h, r.0))
    {
      Find("");
      hide Valid, ValidWith, NackMany, Changed, Unsevered;
      ghost var s, limit := PairIn(Objects(), h), store[h].fetchLimit;
      reply := BatchUnlockAt(queue, c, ids, h);
      if reply == Refused || (reply == Done && Unsevered(s, limit, ids)) {
        Settles(h);
        Adopt(Repr + store[h].Repr + store[Mate(h)].Repr);
      }
    }

    method BatchUnlockAt(queue: LinkedList, c: Bytes, ids: seq<Bytes>, ghost h: Handle) returns (reply: Reply)
      requires Valid() && h < |store| == |dead| && store[h] == queue && Refs(Objects())
      modifies Repr
      ensures unchanged(this) && Mate(h) < |store|
      ensures
        var s, limit := PairIn(old(Objects()), h), store[h].fetchLimit;
        var r := NackMany(s, limit, ids);
        && reply == r.1
        && (reply == Refused || (reply == Done && Unsevered(s, limit, ids)) ==> Changed(h) && Holds(h, r.0))
    {
      PairAt(h);
      LinkedAt(h);
      hide Valid, Changed, NackMany, Unsevered;
      reply := BatchUnlockIn(queue, c, ids, h);
    }

    method BatchUnlockIn(queue: LinkedList, c: Bytes, ids: seq<Bytes>, ghost h: Handle) returns (reply: Reply)
      requires Valid() && h < |store| == |dead| && store[h] == queue
      modifies Repr
      ensures unchanged(this)
      ensures
        var s := old(queue.PairValue());
        var r := NackMany(s, queue.fetchLimit, ids);
        && reply == r.1
        && (reply != Panicked ==> queue.PairValue() == r.0)
        && (reply == Refused || (reply == Done && Unsevered(s, queue.fetchLimit, ids)) ==> Changed(h))
    {
      hide Valid, ValidWith, Sound, LinkedList.Valid, LinkedList.PairValue, NackMany, Severed, Expiring, NackMarks,
           Walk;
      Two(h);
      PairAt(h);
      LinkedAt(h);
      reply := queue.BatchUnlock(c, ids);
    }
  }
}
