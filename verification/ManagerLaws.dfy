/** The queue manager: pairing of queues with their dead-letter queues, and when a nack crashes. */
module ManagerLaws {
  import opened Types
  import opened QueueModel
  import opened QueueLaws
  import opened BatchNack
  import opened BatchLaws
  import opened BrokerModel

  /** The name leads to a queue whose dead-letter queue is found under the name with "-dlq". */
  predicate Paired(qm: Manager, name: string) {
    && name in qm.queues && qm.queues[name] in qm.objects
    && name + "-dlq" in qm.queues
    && qm.objects[qm.queues[name]].dead == Ref(qm.queues[name + "-dlq"])
    && qm.queues[name + "-dlq"] in qm.objects
    && qm.queues[name + "-dlq"] != qm.queues[name]
  }

  /** The name leads to an empty queue of the given capacity and retry limit and of the manager's lease time. */
  predicate IsNew(qm: Manager, name: string, size: uint32, retryLimit: uint32) {
    && name in qm.queues && qm.queues[name] in qm.objects
    && var o := qm.objects[qm.queues[name]];
       o.q == Queue([], 0) && o.cfg.cap == size && o.cfg.fetchLimit == retryLimit && o.cfg.ttl == qm.nodeTTL
  }

  /** Creating a queue succeeds exactly on a new non-empty name and a positive size. It then exists,
      new, with a new dead-letter queue beside it if one was asked for and a dangling pointer if not;
      no other name is touched, except that "-dlq" is taken over from a queue that had it. */
  lemma CreateLaw(qm: Manager, name: string, size: uint32, retryLimit: uint32, hasDLQ: bool)
    requires WellFormed(qm)
    ensures var (qm', status) := ManagerCreate(qm, name, size, retryLimit, hasDLQ);
      && (status == Ok <==> name != [] && size > 0 && name !in qm.queues)
      && WellFormed(qm')
      && (status != Ok ==> qm' == qm)
      && (status == Err(InvalidQueueName) <==> name == [])
      && (status == Err(InvalidQueueSize) <==> name != [] && size == 0)
      && (status == Err(QueueAlreadyExists) <==> name in qm.queues && name != [] && size != 0)
      && qm'.nodeTTL == qm.nodeTTL
      && (status == Ok ==>
            && IsNew(qm', name, size, retryLimit)
            && (hasDLQ ==>
                  && Paired(qm', name) && Pair(qm', qm'.queues[name]).dead == Dlq(size, Queue([], 0))
                  && IsNew(qm', name + "-dlq", size, retryLimit)
                  && qm'.objects[qm'.queues[name + "-dlq"]].dead == DeadRef.NoPointer)
            && (forall n | n in qm'.queues && n !in qm.queues :: n == name || (hasDLQ && n == name + "-dlq"))
            && (!hasDLQ ==> Pair(qm', qm'.queues[name]).dead == QueueModel.NilInterface)
            && (forall n | n in qm.queues && !(hasDLQ && n == name + "-dlq") ::
                  n in qm'.queues && qm'.queues[n] == qm.queues[n])
            && (forall h | h in qm.objects :: h in qm'.objects && qm'.objects[h] == qm.objects[h]))
  {
    if ManagerCreate(qm, name, size, retryLimit, hasDLQ).1 == Ok {
      CreatedQueues(qm, name, size, retryLimit, hasDLQ);
    }
    CreatedWellFormed(qm, name, size, retryLimit, hasDLQ);
    CreateReports(qm, name, size, retryLimit, hasDLQ);
    hide ManagerCreate, WellFormed, IsNew, Paired, Pair;
  }

  lemma CreatedWellFormed(qm: Manager, name: string, size: uint32, retryLimit: uint32, hasDLQ: bool)
    requires WellFormed(qm)
    ensures WellFormed(ManagerCreate(qm, name, size, retryLimit, hasDLQ).0)
  {
  }

  lemma CreateReports(qm: Manager, name: string, size: uint32, retryLimit: uint32, hasDLQ: bool)
    ensures var (qm', status) := ManagerCreate(qm, name, size, retryLimit, hasDLQ);
      && (status == Ok <==> name != [] && size > 0 && name !in qm.queues)
      && (status != Ok ==> qm' == qm)
      && (status == Err(InvalidQueueName) <==> name == [])
      && (status == Err(InvalidQueueSize) <==> name != [] && size == 0)
      && (status == Err(QueueAlreadyExists) <==> name in qm.queues && name != [] && size != 0)
      && qm'.nodeTTL == qm.nodeTTL
  {
  }

  lemma CreatedQueues(qm: Manager, name: string, size: uint32, retryLimit: uint32, hasDLQ: bool)
    requires WellFormed(qm) && ManagerCreate(qm, name, size, retryLimit, hasDLQ).1 == Ok
    ensures var qm' := ManagerCreate(qm, name, size, retryLimit, hasDLQ).0;
      && IsNew(qm', name, size, retryLimit)
      && (hasDLQ ==>
            && Paired(qm', name) && Pair(qm', qm'.queues[name]).dead == Dlq(size, Queue([], 0))
            && IsNew(qm', name + "-dlq", size, retryLimit)
            && qm'.objects[qm'.queues[name + "-dlq"]].dead == DeadRef.NoPointer)
      && (!hasDLQ ==> Pair(qm', qm'.queues[name]).dead == QueueModel.NilInterface)
      && (forall n | n in qm'.queues && n !in qm.queues :: n == name || (hasDLQ && n == name + "-dlq"))
      && (forall n | n in qm.queues && !(hasDLQ && n == name + "-dlq") ::
            n in qm'.queues && qm'.queues[n] == qm.queues[n])
      && (forall h | h in qm.objects :: h in qm'.objects && qm'.objects[h] == qm.objects[h])
  {
    assert |name + "-dlq"| == |name| + 4;
  }

  /** When creating a queue succeeds, the names that existed keep their queues, all of them, exactly
      unless a dead-letter queue was asked for and its name was taken. */
  lemma NamesKeptIff(qm: Manager, name: string, size: uint32, retryLimit: uint32, hasDLQ: bool)
    requires WellFormed(qm) && ManagerCreate(qm, name, size, retryLimit, hasDLQ).1 == Ok
    ensures var qm' := ManagerCreate(qm, name, size, retryLimit, hasDLQ).0;
      (forall n | n in qm.queues :: n in qm'.queues && qm'.queues[n] == qm.queues[n])
      <==> !(hasDLQ && name + "-dlq" in qm.queues)
  {
    var qm', d := ManagerCreate(qm, name, size, retryLimit, hasDLQ).0, name + "-dlq";
    assert |d| == |name| + 4;
    if hasDLQ && d in qm.queues {
      assert qm'.queues[d] == qm.next != qm.queues[d];
    }
  }

  /** A queue whose name a new dead-letter queue takes over keeps its messages, but no name leads to it
      any more. */
  lemma TakeoverStrands(qm: Manager, name: string, size: uint32, retryLimit: uint32)
    requires WellFormed(qm) && ManagerCreate(qm, name, size, retryLimit, true).1 == Ok
    requires name + "-dlq" in qm.queues
    requires forall n | n in qm.queues && qm.queues[n] == qm.queues[name + "-dlq"] :: n == name + "-dlq"
    ensures var qm', h := ManagerCreate(qm, name, size, retryLimit, true).0, qm.queues[name + "-dlq"];
      && h in qm'.objects && qm'.objects[h] == qm.objects[h]
      && forall n | n in qm'.queues :: qm'.queues[n] != h
  {
    assert |name + "-dlq"| == |name| + 4;
  }

  /** A message submitted to a queue named "x-dlq" cannot be fetched under any name once "x" has been
      created with a dead-letter queue. */
  lemma StrandedMessage(ttl: int64, size: uint32, limit: uint32, id: Bytes, data: Bytes)
    requires size > 0
    ensures
      var qm0 := Manager(map[], map[], 0, ttl);
      var (qm1, made) := ManagerCreate(qm0, "x-dlq", size, limit, false);
      var qm2 := DeliverTo(qm1, "x-dlq", One(id, data));
      var (qm3, taken) := ManagerCreate(qm2, "x", size, limit, true);
      && made == Ok && taken == Ok
      && (forall c, now :: ManagerGet(qm2, "x-dlq", 1, c, now).2 == [MessageBatch(id, data)])
      && (forall n, amount, c, now :: ManagerGet(qm3, n, amount, c, now).2 == [])
  {
    var qm1 := ManagerCreate(Manager(map[], map[], 0, ttl), "x-dlq", size, limit, false).0;
    var qm2 := DeliverTo(qm1, "x-dlq", One(id, data));
    assert qm2.objects[0].q == Queue([] + [Fresh(id, data)], 1);
    assert [] + [Fresh(id, data)] == [Fresh(id, data)];
    assert "x" + "-dlq" == "x-dlq";
    var qm3 := ManagerCreate(qm2, "x", size, limit, true).0;
    hide Fetch, Handed, Enqueue;
    forall c, now ensures ManagerGet(qm2, "x-dlq", 1, c, now).2 == [MessageBatch(id, data)] {
      FetchesFree(Fresh(id, data), c, now, ttl);
    }
    forall n, amount: uint32, c, now ensures ManagerGet(qm3, n, amount, c, now).2 == [] {
      if n in qm3.queues {
        assert qm3.objects[qm3.queues[n]].q.live == [];
        FetchesNothing(amount, c, now, ttl);
      }
    }
  }

  lemma FetchesFree(m: Msg, c: Bytes, now: int64, ttl: int64)
    requires m.owner == NO_CONSUMER
    ensures Handed(Fetch([m], 1, c, now, ttl).got) == [MessageBatch(m.id, m.val)]
  {
    assert [m][1..] == [] && [m] + [] == [m];
    assert Fetch([], 0, c, now, ttl) == Fetched([], []);
    assert Handed([m]) == [MessageBatch(m.id, m.val)];
  }

  lemma FetchesNothing(amount: nat, c: Bytes, now: int64, ttl: int64)
    ensures Handed(Fetch([], amount, c, now, ttl).got) == []
  {
  }

  /** Storing a pair back changes that queue and its dead-letter queue and nothing else. */
  lemma WithPairLaw(qm: Manager, h: Handle, s: State)
    requires WellFormed(qm) && h in qm.objects
    requires s.dead.Dlq? ==> Pair(qm, h).dead.Dlq? && s.dead.cap == Pair(qm, h).dead.cap
    requires !s.dead.Dlq? ==> s.dead == Pair(qm, h).dead
    ensures var qm' := WithPair(qm, h, s);
      && WellFormed(qm') && h in qm'.objects && Pair(qm', h) == s
      && qm'.queues == qm.queues && qm'.objects.Keys == qm.objects.Keys
      && forall k | k in qm.objects && k != h && qm.objects[h].dead != Ref(k) :: qm'.objects[k] == qm.objects[k]
  {
  }

  lemma NackKeepsDead(s: State, limit: uint32, c: Bytes, id: Bytes)
    ensures var d := Nack(s, limit, c, id).0.dead;
      if s.dead.Dlq? then d.Dlq? && d.cap == s.dead.cap else d == s.dead
  {
  }

  /** A nack is carried out on the named queue and its dead-letter queue; all other queues keep their state. */
  lemma NackLaw(qm: Manager, name: string, c: Bytes, id: Bytes)
    requires WellFormed(qm) && name in qm.queues
    ensures var h := qm.queues[name];
      var (qm', status) := ManagerNack(qm, name, c, id);
      var (s, reply) := Nack(Pair(qm, h), qm.objects[h].cfg.fetchLimit, c, id);
      && WellFormed(qm') && qm'.queues == qm.queues && h in qm'.objects && Pair(qm', h) == s
      && (status == Ok <==> reply == Done) && (status == Panic <==> reply == Panicked)
      && forall k | k in qm.objects && k != h && qm.objects[h].dead != Ref(k) ::
           k in qm'.objects && qm'.objects[k] == qm.objects[k]
  {
    var h := qm.queues[name];
    NackKeepsDead(Pair(qm, h), qm.objects[h].cfg.fetchLimit, c, id);
    WithPairLaw(qm, h, Nack(Pair(qm, h), qm.objects[h].cfg.fetchLimit, c, id).0);
    hide Nack, Pair, WithPair, WellFormed;
  }

  /** A nack crashes the process exactly when its holder brings a message to the retry limit in
      a queue created without a dead-letter queue. */
  lemma NackPanicsIff(qm: Manager, name: string, c: Bytes, id: Bytes)
    requires WellFormed(qm)
    ensures ManagerNack(qm, name, c, id).1 == Panic <==>
      && name in qm.queues
      && var o := qm.objects[qm.queues[name]];
         && o.dead == DeadRef.NilInterface
         && var i := FirstId(o.q.live, id);
            i < |o.q.live| && o.q.live[i].owner == c && NextCount(o.q.live[i]) >= o.cfg.fetchLimit
  {
  }

  /** A batch nack, by whomever, crashes the process exactly when its ids are distinct and all present in
      a queue created without a dead-letter queue and one of the messages is at the retry limit. */
  lemma BatchNackPanicsIff(qm: Manager, name: string, ids: seq<Bytes>)
    requires WellFormed(qm) && (name in qm.queues ==> UniqueIds(qm.objects[qm.queues[name]].q.live))
    ensures ManagerBatchNack(qm, name, ids).1 == Panic <==>
      && name in qm.queues
      && var o := qm.objects[qm.queues[name]];
         o.dead == DeadRef.NilInterface && Fits(o.q, ids) && SomeExpires(o.q.live, o.cfg.fetchLimit, ids)
  {
    if name in qm.queues {
      BatchNackSucceedsIff(Pair(qm, qm.queues[name]), qm.objects[qm.queues[name]].cfg.fetchLimit, ids);
    }
    hide NackMany, Severed, Expiring, NackMarks, Fits, SomeExpires;
  }

  /** The message whose retries a nack uses up can next be fetched from the queue named with "-dlq",
      if that has room, and from no longer from its own. */
  lemma LastNackMovesToNamed(qm: Manager, name: string, i: nat)
    requires WellFormed(qm) && Paired(qm, name)
    requires var o := qm.objects[qm.queues[name]];
      && i < |o.q.live| && FirstId(o.q.live, o.q.live[i].id) == i && NextCount(o.q.live[i]) >= o.cfg.fetchLimit
    ensures var o := qm.objects[qm.queues[name]];
      var m := o.q.live[i];
      var (qm', status) := ManagerNack(qm, name, m.owner, m.id);
      var dlq := qm.objects[qm.queues[name + "-dlq"]];
      && status == Ok && Paired(qm', name)
      && qm'.objects[qm'.queues[name]].q.live == RemoveAt(o.q.live, i)
      && qm'.objects[qm'.queues[name + "-dlq"]].q == Enqueue(dlq.q, dlq.cfg.cap, m.id, m.val)
  {
  }

  /** A queue that was created without a dead-letter queue and with a retry limit of at most one:
      the first nack of its first message crashes. */
  lemma NoDeadLetterCrash(ttl: int64, limit: uint32, id: Bytes, data: Bytes, c: Bytes)
    requires limit <= 1 && c != NO_CONSUMER && data != []
    ensures
      var b0 := Broker(map[], Manager(map[], map[], 0, ttl));
      var (b1, created) := CreateQueue(b0, "q", "k", 1, limit, false);
      var (b2, added) := AddMessage(b1, "k", data, id);
      var (qm3, fetched, got) := ManagerGet(b2.qm, "q", 1, c, 0);
      var (qm4, nacked) := ManagerNack(qm3, "q", c, id);
      created == Ok && added == Ok && fetched == Ok && got == [MessageBatch(id, data)] && nacked == Panic
  {
    var b0 := Broker(map[], Manager(map[], map[], 0, ttl));
    var (b1, created) := CreateQueue(b0, "q", "k", 1, limit, false);
    var cfg := Config(1, limit, ttl);
    assert b1.qm.objects[0] == QueueObject(cfg, Queue([], 0), DeadRef.NilInterface);
    var (b2, added) := AddMessage(b1, "k", data, id);
    var m := Fresh(id, data);
    assert b1.routing["k"] == ["q"] && ["q"][1..] == [];
    assert DeliverAll(b1.qm, ["q"], One(id, data)) == DeliverTo(b1.qm, "q", One(id, data));
    assert b2.qm.objects[0].q == Queue([m], 1);
    var (qm3, fetched, got) := ManagerGet(b2.qm, "q", 1, c, 0);
    var leased := m.(owner := c, time := 0);
    assert [m][1..] == [];
    assert Fetch([m], 1, c, 0, ttl) == Fetched([leased] + [], [m] + []);
    assert qm3.objects[0].q.live == [leased];
    assert FirstId([leased], id) == 0;
  }
}
