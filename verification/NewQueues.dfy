/** How a queue behaves that has just been created: what it was given for its size, its retry limit and
    the lease time of its manager shows in what it admits, gives up and hands out. */
module NewQueues {
  import opened Types
  import opened QueueModel
  import opened QueueLaws
  import opened BrokerModel
  import opened ManagerLaws

  /** Submits the messages to a queue one by one. */
  function SubmitEach(qm: Manager, name: string, batch: seq<MessageBatch>): Manager
    decreases |batch|
  {
    if batch == [] then qm
    else SubmitEach(DeliverTo(qm, name, One(batch[0].id, batch[0].data)), name, batch[1..])
  }

  lemma {:induction false} SubmitEachIs(qm: Manager, name: string, batch: seq<MessageBatch>)
    requires name in qm.queues && qm.queues[name] in qm.objects
    ensures var h := qm.queues[name];
      var o := qm.objects[h];
      SubmitEach(qm, name, batch) == qm.(objects := qm.objects[h := o.(q := EnqueueAll(o.q, o.cfg.cap, batch))])
    decreases |batch|
  {
    var h := qm.queues[name];
    if batch == [] {
      assert qm.objects[h := qm.objects[h]] == qm.objects;
    } else {
      hide Enqueue;
      SubmitEachIs(DeliverTo(qm, name, One(batch[0].id, batch[0].data)), name, batch[1..]);
    }
  }

  /** A new queue admits of single messages exactly as many as its size. */
  lemma NewQueueHolds(qm: Manager, name: string, size: uint32, retryLimit: uint32, batch: seq<MessageBatch>)
    requires IsNew(qm, name, size, retryLimit)
    ensures var h, qm' := qm.queues[name], SubmitEach(qm, name, batch);
      && h in qm'.objects
      && var live := qm'.objects[h].q.live;
      && |live| == (if |batch| <= size then |batch| else size)
      && forall i | 0 <= i < |live| :: live[i] == Msg(batch[i].id, batch[i].data, [], 0, 0)
  {
    SubmitEachIs(qm, name, batch);
    EnqueueAllFits(Queue([], 0), size, batch);
  }

  /** Fetches and nacks the same message k times. */
  function Rounds(qm: Manager, name: string, c: Bytes, id: Bytes, k: nat): Manager {
    if k == 0 then qm
    else ManagerNack(ManagerGet(Rounds(qm, name, c, id, k - 1), name, 1, c, 0).0, name, c, id).0
  }

  /** The queue of the name and its dead-letter queue hold these messages. */
  ghost predicate Hold(qm: Manager, name: string, size: uint32, retryLimit: uint32, live: seq<Msg>, spare: seq<Msg>) {
    && WellFormed(qm) && Paired(qm, name)
    && var o, d := qm.objects[qm.queues[name]], qm.objects[qm.queues[name + "-dlq"]];
       && o.cfg == Config(size, retryLimit, qm.nodeTTL) && d.cfg.cap == size
       && o.q == Queue(live, |live|) && d.q == Queue(spare, |spare|)
  }

  lemma Submitted(qm: Manager, name: string, size: uint32, retryLimit: uint32, id: Bytes, data: Bytes)
    requires WellFormed(qm) && Paired(qm, name) && size > 0
    requires IsNew(qm, name, size, retryLimit) && IsNew(qm, name + "-dlq", size, retryLimit)
    ensures Hold(DeliverTo(qm, name, One(id, data)), name, size, retryLimit, [Msg(id, data, [], 0, 0)], [])
  {
    assert [] + [Fresh(id, data)] == [Fresh(id, data)];
  }

  lemma FetchRound(qm: Manager, name: string, size: uint32, retryLimit: uint32, m: Msg, c: Bytes)
    requires Hold(qm, name, size, retryLimit, [m], []) && m.owner == [] && m.time == 0
    ensures Hold(ManagerGet(qm, name, 1, c, 0).0, name, size, retryLimit, [m.(owner := c)], [])
  {
    assert [m][1..] == [];
    assert Fetch([m], 1, c, 0, qm.nodeTTL) == Fetched([m.(owner := c)] + [], [m] + []);
    hide Fetch, Handed;
  }

  lemma NackRound(qm: Manager, name: string, size: uint32, retryLimit: uint32, m: Msg)
    requires Hold(qm, name, size, retryLimit, [m], []) && size > 0
    requires m.fetched < if retryLimit > 1 then retryLimit else 1
    ensures var qm' := ManagerNack(qm, name, m.owner, m.id).0;
      if m.fetched + 1 < retryLimit then
        Hold(qm', name, size, retryLimit, [m.(owner := [], fetched := m.fetched + 1)], [])
      else Hold(qm', name, size, retryLimit, [], [Msg(m.id, m.val, [], 0, 0)])
  {
    var h := qm.queues[name];
    SoleNack(Pair(qm, h), retryLimit, m);
    NackKeepsDead(Pair(qm, h), retryLimit, m.owner, m.id);
    hide Nack;
  }

  lemma SoleNack(s: State, limit: uint32, m: Msg)
    requires s.q == Queue([m], 1) && s.dead.Dlq? && s.dead.queue == Queue([], 0) && s.dead.cap > 0
    requires m.fetched < if limit > 1 then limit else 1
    ensures Nack(s, limit, m.owner, m.id).0 ==
            if m.fetched + 1 < limit then State(Queue([m.(owner := [], fetched := m.fetched + 1)], 1), s.dead)
            else State(Queue([], 0), Dlq(s.dead.cap, Queue([Msg(m.id, m.val, [], 0, 0)], 1)))
  {
    var live := [m];
    assert FirstId(live, m.id) == 0 && RemoveAt(live, 0) == [];
    assert live[0 := Returned(m)] == [Returned(m)];
    assert [] + [Fresh(m.id, m.val)] == [Fresh(m.id, m.val)];
    hide FirstId;
  }

  /** In a new queue a message that is fetched and nacked again and again is there, counted, until its
      max(1, retryLimit)-th nack, which moves it to the dead-letter queue. */
  lemma {:induction false} NewQueueRetries(qm: Manager, name: string, size: uint32, retryLimit: uint32,
                                           id: Bytes, data: Bytes, c: Bytes, k: nat)
    requires WellFormed(qm) && Paired(qm, name) && size > 0
    requires IsNew(qm, name, size, retryLimit) && IsNew(qm, name + "-dlq", size, retryLimit)
    requires k <= if retryLimit > 1 then retryLimit else 1
    ensures var last := if retryLimit > 1 then retryLimit else 1;
      var qm' := Rounds(DeliverTo(qm, name, One(id, data)), name, c, id, k);
      if k < last then Hold(qm', name, size, retryLimit, [Msg(id, data, [], 0, k)], [])
      else Hold(qm', name, size, retryLimit, [], [Msg(id, data, [], 0, 0)])
  {
    hide Hold, DeliverTo, ManagerNack, ManagerGet, IsNew, WellFormed, Paired;
    if k == 0 {
      Submitted(qm, name, size, retryLimit, id, data);
    } else {
      var before, m := Rounds(DeliverTo(qm, name, One(id, data)), name, c, id, k - 1), Msg(id, data, [], 0, k - 1);
      NewQueueRetries(qm, name, size, retryLimit, id, data, c, k - 1);
      FetchRound(before, name, size, retryLimit, m, c);
      NackRound(ManagerGet(before, name, 1, c, 0).0, name, size, retryLimit, m.(owner := c));
    }
  }

  /** A message fetched from a new queue is handed to another consumer only when more than the lease time
      of the manager has gone by. */
  lemma NewQueueLeases(qm: Manager, name: string, size: uint32, retryLimit: uint32,
                       id: Bytes, data: Bytes, c: Bytes, c': Bytes, before: int64, now: int64)
    requires WellFormed(qm) && IsNew(qm, name, size, retryLimit) && size > 0 && c != [] && c' != c
    ensures
      var first := ManagerGet(DeliverTo(qm, name, One(id, data)), name, 1, c, before);
      var second := ManagerGet(first.0, name, 1, c', now);
      && first.2 == [MessageBatch(id, data)]
      && second.2 == if Sub64(now, before) > qm.nodeTTL then [MessageBatch(id, data)] else []
  {
    var m := Fresh(id, data);
    var leased := m.(owner := c, time := before);
    assert [] + [m] == [m] && [m][1..] == [] && [leased][1..] == [];
    assert Fetch([m], 1, c, before, qm.nodeTTL) == Fetched([leased] + [], [m] + []);
    assert [leased] + [] == [leased] && [m] + [] == [m];
    var taken := leased.(owner := c', time := now);
    assert Fetch([leased], 1, c', now, qm.nodeTTL) ==
           if Sub64(now, before) > qm.nodeTTL then Fetched([taken] + [], [leased] + []) else Fetched([leased] + [], []);
    assert Handed([m]) == [MessageBatch(id, data)] && Handed([leased]) == [MessageBatch(id, data)] && Handed([]) == [];
    hide Fetch;
  }
}
