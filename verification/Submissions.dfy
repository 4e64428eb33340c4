/** What a submission puts into which queue, in the submitter's own terms. */
module Submissions {
  import opened Types
  import opened QueueModel
  import opened QueueLaws
  import opened BrokerModel
  import opened FanOut

  /** How often the list names the queue at h. */
  ghost function Times(qm: Manager, names: seq<string>, h: Handle): nat {
    |set i: nat | i < |names| && names[i] in qm.queues && qm.queues[names[i]] == h|
  }

  lemma TimesIsBound(qm: Manager, names: seq<string>, h: Handle)
    requires h in qm.objects
    ensures Times(qm, names, h) == |Bound(qm, names, |names|, h)|
  {
    var listed := set i: nat | i < |names| && names[i] in qm.queues && qm.queues[names[i]] == h;
    assert Bound(qm, names, |names|, h) == listed;
  }

  function Copies<T>(x: T, n: nat): (r: seq<T>)
    ensures |r| == n && forall i | 0 <= i < n :: r[i] == x
  {
    seq(n, _ => x)
  }

  // ----- one message

  /** How many of n single messages a queue with this counter and capacity admits. */
  function Admits(amount: int, cap: uint32, n: nat): nat {
    if amount >= cap then 0 else if amount + n <= cap then n else cap - amount
  }

  lemma {:induction false} SameAgainAndAgain(o: QueueObject, id: Bytes, data: Bytes, n: nat)
    ensures var k := Admits(o.q.amount, o.cfg.cap, n);
      ObjectTimes(o, One(id, data), n) ==
      o.(q := Queue(o.q.live + Copies(Msg(id, data, [], 0, 0), k), o.q.amount + k))
  {
    var m := Msg(id, data, [], 0, 0);
    if n == 0 {
      assert o.q.live + Copies(m, 0) == o.q.live;
    } else {
      SameAgainAndAgain(o, id, data, n - 1);
      var k := Admits(o.q.amount, o.cfg.cap, n - 1);
      assert (o.q.live + Copies(m, k)) + [m] == o.q.live + Copies(m, k + 1);
    }
  }

  /** A submission is refused without data and under an unknown key, and then changes nothing. Otherwise
      every queue gets the message, with this id and this data, once for each time it is listed under the
      key, as long as it has room; nothing else changes. */
  lemma SubmissionLaw(b: Broker, key: string, data: Bytes, id: Bytes)
    ensures var (b', status) := AddMessage(b, key, data, id);
      && status == (if data == [] then Err(EmptyData)
                    else if key !in b.routing then Err(RoutingKeyDoesNotExist) else Ok)
      && (status != Ok ==> b' == b)
      && (status == Ok ==>
            && b'.routing == b.routing && b'.qm.(objects := b.qm.objects) == b.qm
            && b'.qm.objects.Keys == b.qm.objects.Keys
            && forall h | h in b.qm.objects ::
                 var o := b.qm.objects[h];
                 var k := Admits(o.q.amount, o.cfg.cap, Times(b.qm, b.routing[key], h));
                 b'.qm.objects[h] == o.(q := Queue(o.q.live + Copies(Msg(id, data, [], 0, 0), k), o.q.amount + k)))
  {
    if data != [] && key in b.routing {
      var names := b.routing[key];
      DeliverAllCounts(b.qm, names, One(id, data), |names|);
      assert names[..|names|] == names;
      hide DeliverAll, ObjectTimes, Bound, Times, Admits;
      forall h | h in b.qm.objects
        ensures var o := b.qm.objects[h];
          var k := Admits(o.q.amount, o.cfg.cap, Times(b.qm, names, h));
          DeliverAll(b.qm, names, One(id, data)).objects[h] ==
          o.(q := Queue(o.q.live + Copies(Msg(id, data, [], 0, 0), k), o.q.amount + k))
      {
        TimesIsBound(b.qm, names, h);
        SameAgainAndAgain(b.qm.objects[h], id, data, Times(b.qm, names, h));
      }
    }
  }

  // ----- a batch

  /** The messages of a batch, each with its own id and data. */
  ghost predicate Made(ms: seq<Msg>, datas: seq<Bytes>, ids: seq<Bytes>) {
    |ids| >= |datas| == |ms| && forall i | 0 <= i < |datas| :: ms[i] == Msg(ids[i], datas[i], [], 0, 0)
  }

  /** The queue has got the messages n times over. */
  ghost predicate Gained(o: QueueObject, o': QueueObject, ms: seq<Msg>, n: nat)
    decreases n
  {
    if n == 0 then o' == o
    else
      exists mid ::
        && Gained(o, mid, ms, n - 1)
        && o' == if mid.q.amount < mid.cfg.cap then mid.(q := Queue(mid.q.live + ms, mid.q.amount + |ms|)) else mid
  }

  lemma BatchDelivered(o: QueueObject, datas: seq<Bytes>, ids: seq<Bytes>, ms: seq<Msg>)
    requires Made(ms, datas, ids)
    ensures Deliver(o, Many(Batch(datas, ids))) ==
            if o.q.amount < o.cfg.cap then o.(q := Queue(o.q.live + ms, o.q.amount + |ms|)) else o
  {
    var q := BatchEnqueue(o.q, o.cfg.cap, Batch(datas, ids));
    BatchEnqueueWhole(o.q, o.cfg.cap, Batch(datas, ids));
    hide BatchEnqueue;
    if o.q.amount < o.cfg.cap {
      assert q.live == q.live[..|o.q.live|] + q.live[|o.q.live|..];
      assert q.live[|o.q.live|..] == ms;
    }
  }

  lemma {:induction false} BatchAgainAndAgain(o: QueueObject, datas: seq<Bytes>, ids: seq<Bytes>, ms: seq<Msg>, n: nat)
    requires Made(ms, datas, ids)
    ensures Gained(o, ObjectTimes(o, Many(Batch(datas, ids)), n), ms, n)
  {
    hide Batch, Deliver;
    if n > 0 {
      var mid := ObjectTimes(o, Many(Batch(datas, ids)), n - 1);
      BatchAgainAndAgain(o, datas, ids, ms, n - 1);
      BatchDelivered(mid, datas, ids, ms);
    }
  }

  /** A batch submission is refused with an empty message in it and under an unknown key; with too few ids
      it crashes if a queue is found. Otherwise every queue gets all the messages, each with its own id and
      data, once for each time it is listed under the key, as long as it is not full before. */
  lemma BatchSubmissionLaw(b: Broker, key: string, datas: seq<Bytes>, ids: seq<Bytes>)
    ensures var (b', status) := BatchAddMessage(b, key, datas, ids);
      && status == (if [] in datas then Err(EmptyData)
                    else if key !in b.routing then Err(RoutingKeyDoesNotExist)
                    else if |ids| < |datas| && exists i :: 0 <= i < |b.routing[key]| && b.routing[key][i] in b.qm.queues
                    then Panic else Ok)
      && (status != Ok || |ids| < |datas| ==> b' == b)
      && (status == Ok && |ids| >= |datas| ==>
            && b'.routing == b.routing && b'.qm.(objects := b.qm.objects) == b.qm
            && b'.qm.objects.Keys == b.qm.objects.Keys
            && forall h, ms | h in b.qm.objects && Made(ms, datas, ids) ::
                 Gained(b.qm.objects[h], b'.qm.objects[h], ms, Times(b.qm, b.routing[key], h)))
  {
    if [] !in datas && key in b.routing {
      var names := b.routing[key];
      assert (exists n :: n in names && n in b.qm.queues) <==> exists i :: 0 <= i < |names| && names[i] in b.qm.queues;
      if |ids| >= |datas| {
        var d := Many(Batch(datas, ids));
        DeliverAllCounts(b.qm, names, d, |names|);
        assert names[..|names|] == names;
        hide DeliverAll, ObjectTimes, Bound, Times, Gained, Made, Batch;
        forall h, ms | h in b.qm.objects && Made(ms, datas, ids)
          ensures Gained(b.qm.objects[h], DeliverAll(b.qm, names, d).objects[h], ms, Times(b.qm, names, h))
        {
          TimesIsBound(b.qm, names, h);
          BatchAgainAndAgain(b.qm.objects[h], datas, ids, ms, Times(b.qm, names, h));
        }
      }
    }
  }

  // ----- pooled nodes

  /** Single messages take a pooled node each, whether they are admitted or not; a batch takes one for each
      of its messages if the queue is not full, and none otherwise. */
  lemma {:induction false} SpareLaw(o: QueueObject, spare: nat, id: Bytes, data: Bytes, batch: seq<MessageBatch>,
                                    n: nat)
    ensures SpareTimes(o, spare, One(id, data), n) == if spare > n then spare - n else 0
    ensures SpareTimes(o, spare, Many(batch), 1) ==
            if o.q.amount >= o.cfg.cap then spare else if spare > |batch| then spare - |batch| else 0
  {
    if n > 0 {
      SpareLaw(o, spare, id, data, batch, n - 1);
    }
    assert ObjectTimes(o, Many(batch), 0) == o && SpareTimes(o, spare, Many(batch), 0) == spare;
  }

  // ----- a batch against its messages

  /** Submits the messages one by one. */
  function AddEach(b: Broker, key: string, datas: seq<Bytes>, ids: seq<Bytes>): Broker
    requires |ids| >= |datas|
    decreases |datas|
  {
    if datas == [] then b else AddEach(AddMessage(b, key, datas[0], ids[0]).0, key, datas[1..], ids[1..])
  }

  /** No queue is listed twice. */
  ghost predicate ListedOnce(qm: Manager, names: seq<string>) {
    forall h | h in qm.objects :: Times(qm, names, h) <= 1
  }

  /** A queue that is listed gets the batch, and any other stays as it is. */
  function Each(o: QueueObject, listed: nat, batch: seq<MessageBatch>): QueueObject {
    if listed == 0 then o else o.(q := EnqueueAll(o.q, o.cfg.cap, batch))
  }

  lemma {:induction false} AddEachIs(b: Broker, key: string, datas: seq<Bytes>, ids: seq<Bytes>)
    requires |ids| >= |datas| && [] !in datas && key in b.routing && ListedOnce(b.qm, b.routing[key])
    ensures var b' := AddEach(b, key, datas, ids);
      && b'.routing == b.routing && b'.qm.(objects := b.qm.objects) == b.qm
      && b'.qm.objects.Keys == b.qm.objects.Keys
      && forall h | h in b.qm.objects ::
           b'.qm.objects[h] == Each(b.qm.objects[h], Times(b.qm, b.routing[key], h), Batch(datas, ids))
    decreases |datas|
  {
    if datas != [] {
      var b1 := AddMessage(b, key, datas[0], ids[0]).0;
      SubmissionLaw(b, key, datas[0], ids[0]);
      hide AddMessage, Times;
      assert ListedOnce(b1.qm, b1.routing[key]) by {
        forall h | h in b1.qm.objects ensures Times(b1.qm, b1.routing[key], h) <= 1 {
          SameTimes(b.qm, b1.qm, b.routing[key], h);
        }
      }
      AddEachIs(b1, key, datas[1..], ids[1..]);
      forall h | h in b.qm.objects
        ensures AddEach(b, key, datas, ids).qm.objects[h] ==
                Each(b.qm.objects[h], Times(b.qm, b.routing[key], h), Batch(datas, ids))
      {
        SameTimes(b.qm, b1.qm, b.routing[key], h);
        OneMore(b.qm.objects[h], b1.qm.objects[h], Times(b.qm, b.routing[key], h), datas, ids);
      }
    }
  }

  lemma SameTimes(qm: Manager, qm': Manager, names: seq<string>, h: Handle)
    requires qm'.queues == qm.queues
    ensures Times(qm', names, h) == Times(qm, names, h)
  {
  }

  lemma OneMore(o: QueueObject, o1: QueueObject, listed: nat, datas: seq<Bytes>, ids: seq<Bytes>)
    requires |ids| >= |datas| > 0 && listed <= 1
    requires var k := Admits(o.q.amount, o.cfg.cap, listed);
      o1 == o.(q := Queue(o.q.live + Copies(Msg(ids[0], datas[0], [], 0, 0), k), o.q.amount + k))
    ensures Each(o1, listed, Batch(datas[1..], ids[1..])) == Each(o, listed, Batch(datas, ids))
  {
    var m := Msg(ids[0], datas[0], [], 0, 0);
    assert Batch(datas, ids)[1..] == Batch(datas[1..], ids[1..]);
    assert o.q.live + Copies(m, 0) == o.q.live && Copies(m, 1) == [m];
    assert listed == 1 ==> o1.q == Enqueue(o.q, o.cfg.cap, ids[0], datas[0]);
    hide Batch, Copies, Admits;
  }

  /** With no queue listed twice under the key, a batch submission does what submitting its messages one by
      one does, in order and each with its own id, if and only if each queue listed is full before or has
      room for the whole batch. */
  lemma BatchIsSinglesIff(b: Broker, key: string, datas: seq<Bytes>, ids: seq<Bytes>)
    requires |ids| >= |datas| && [] !in datas && key in b.routing && ListedOnce(b.qm, b.routing[key])
    ensures BatchAddMessage(b, key, datas, ids).0 == AddEach(b, key, datas, ids) <==>
            forall h | h in b.qm.objects && Times(b.qm, b.routing[key], h) == 1 ::
              var o := b.qm.objects[h]; o.q.amount >= o.cfg.cap || o.q.amount + |datas| <= o.cfg.cap
  {
    var names, batch, d := b.routing[key], Batch(datas, ids), Many(Batch(datas, ids));
    var b', each := BatchAddMessage(b, key, datas, ids).0, AddEach(b, key, datas, ids);
    AddEachIs(b, key, datas, ids);
    DeliverAllCounts(b.qm, names, d, |names|);
    assert names[..|names|] == names;
    assert b'.qm.(objects := b.qm.objects) == b.qm;
    hide DeliverAll, Bound, Times, BatchEnqueue, AddEach, Batch;
    forall h | h in b.qm.objects
      ensures b'.qm.objects[h] == each.qm.objects[h] <==>
              Times(b.qm, names, h) == 1 ==>
                var o := b.qm.objects[h]; o.q.amount >= o.cfg.cap || o.q.amount + |datas| <= o.cfg.cap
    {
      var o := b.qm.objects[h];
      TimesIsBound(b.qm, names, h);
      BatchEnqueueIsFoldIff(o.q, o.cfg.cap, batch);
      assert ObjectTimes(o, d, 0) == o && ObjectTimes(o, d, 1) == Deliver(o, d);
    }
    hide ListedOnce, Each, Deliver, ObjectTimes;
    assert b' == each <==> b'.qm.objects == each.qm.objects;
  }

  // ----- queues that are listed several times

  /** Each message n times, one after the other. */
  function Blocks(ms: seq<Msg>, n: nat): seq<Msg> {
    if ms == [] then [] else Copies(ms[0], n) + Blocks(ms[1..], n)
  }

  /** All messages, n times over. */
  function Repeated(ms: seq<Msg>, n: nat): (r: seq<Msg>)
    decreases n
  {
    if n == 0 then [] else ms + Repeated(ms, n - 1)
  }

  /** Which message stands at position j of the blocks. */
  function BlockOf(j: nat, n: nat): (k: nat)
    requires n > 0
    ensures k <= j && (n > 1 && j > 0 ==> k < j)
    decreases j
  {
    if j < n then 0 else 1 + BlockOf(j - n, n)
  }

  lemma {:induction false} BlocksAt(ms: seq<Msg>, n: nat, j: nat)
    requires n > 0 && j < |ms|
    ensures j < |Blocks(ms, n)| && Blocks(ms, n)[j] == ms[BlockOf(j, n)]
  {
    BlocksLength(ms, n);
    if j >= n {
      BlocksAt(ms[1..], n, j - n);
    }
  }

  lemma {:induction false} BlocksLength(ms: seq<Msg>, n: nat)
    requires n > 0
    ensures |Blocks(ms, n)| >= |ms|
  {
    if ms != [] {
      BlocksLength(ms[1..], n);
    }
  }

  predicate Alike(ms: seq<Msg>) {
    forall i | 0 <= i < |ms| :: ms[i] == ms[0]
  }

  lemma {:induction false} BackToFirst(ms: seq<Msg>, n: nat, j: nat)
    requires n >= 2 && j < |ms| && forall i | 0 <= i < |ms| :: ms[i] == ms[BlockOf(i, n)]
    ensures ms[j] == ms[0]
  {
    if j > 0 {
      BackToFirst(ms, n, BlockOf(j, n));
    }
  }

  lemma {:induction false} BlocksAlike(ms: seq<Msg>, n: nat, x: Msg)
    requires forall i | 0 <= i < |ms| :: ms[i] == x
    ensures Blocks(ms, n) == Copies(x, n * |ms|)
  {
    if ms == [] {
      assert n * |ms| == 0;
    } else {
      BlocksAlike(ms[1..], n, x);
      assert n * |ms| == n + n * (|ms| - 1);
    }
  }

  lemma {:induction false} RepeatedAlike(ms: seq<Msg>, n: nat, x: Msg)
    requires forall i | 0 <= i < |ms| :: ms[i] == x
    ensures Repeated(ms, n) == Copies(x, n * |ms|)
    decreases n
  {
    if n == 0 {
      assert n * |ms| == 0;
    } else {
      RepeatedAlike(ms, n - 1, x);
      assert n * |ms| == |ms| + (n - 1) * |ms|;
    }
  }

  /** Listing a queue twice or more shows exactly unless all messages are alike. */
  lemma RepeatedIsBlocksIff(ms: seq<Msg>, n: nat)
    requires n >= 2
    ensures Repeated(ms, n) == Blocks(ms, n) <==> Alike(ms)
  {
    if ms == [] {
      RepeatedAlike(ms, n, Msg([], [], [], 0, 0));
      BlocksAlike(ms, n, Msg([], [], [], 0, 0));
    } else if Alike(ms) {
      RepeatedAlike(ms, n, ms[0]);
      BlocksAlike(ms, n, ms[0]);
    } else if Repeated(ms, n) == Blocks(ms, n) {
      BlocksInOrder(ms, n);
    }
  }

  lemma BlocksInOrder(ms: seq<Msg>, n: nat)
    requires n >= 2 && Repeated(ms, n) == Blocks(ms, n)
    ensures Alike(ms)
  {
    forall j | 0 <= j < |ms| ensures ms[j] == ms[BlockOf(j, n)] {
      BlocksAt(ms, n, j);
      assert Repeated(ms, n) == ms + Repeated(ms, n - 1);
    }
    forall j | 0 <= j < |ms| ensures ms[j] == ms[0] {
      BackToFirst(ms, n, j);
    }
  }

  lemma {:induction false} OnceOver(ms: seq<Msg>)
    ensures Repeated(ms, 1) == ms && Blocks(ms, 1) == ms && Repeated(ms, 0) == [] && Blocks(ms, 0) == []
  {
    assert ms + Repeated(ms, 0) == ms;
    if ms != [] {
      OnceOver(ms[1..]);
      assert Copies(ms[0], 1) == [ms[0]] && Copies(ms[0], 0) == [];
    }
  }

  /** There is room for the whole batch each time the queue is listed. */
  predicate RoomFor(o: QueueObject, n: nat, size: nat) {
    o.q.amount + n * size <= o.cfg.cap
  }

  lemma {:induction false} RoomyBatch(o: QueueObject, datas: seq<Bytes>, ids: seq<Bytes>, ms: seq<Msg>, n: nat,
                                      done: nat)
    requires Made(ms, datas, ids) && RoomFor(o, n, |datas|) && done <= n
    ensures ObjectTimes(o, Many(Batch(datas, ids)), done) ==
            o.(q := Queue(o.q.live + Repeated(ms, done), o.q.amount + done * |datas|))
  {
    if done == 0 {
      assert o.q.live + [] == o.q.live;
    } else {
      RoomyBatch(o, datas, ids, ms, n, done - 1);
      var mid := ObjectTimes(o, Many(Batch(datas, ids)), done - 1);
      BatchDelivered(mid, datas, ids, ms);
      RepeatedSnoc(ms, done - 1);
      Multiples(|datas|, done, n);
      hide Batch, Deliver, Made;
      assert (o.q.live + Repeated(ms, done - 1)) + ms == o.q.live + (Repeated(ms, done - 1) + ms);
      if datas == [] {
        assert ms == [] && o.q.live + Repeated(ms, done - 1) + [] == o.q.live + Repeated(ms, done - 1);
      }
    }
  }

  lemma Multiples(size: nat, done: nat, n: nat)
    requires 0 < done <= n
    ensures done * size == (done - 1) * size + size <= n * size
  {
  }

  lemma {:induction false} RepeatedSnoc(ms: seq<Msg>, n: nat)
    ensures Repeated(ms, n + 1) == Repeated(ms, n) + ms
    decreases n
  {
    if n == 0 {
      assert ms + [] == [] + ms;
    } else {
      RepeatedSnoc(ms, n - 1);
      assert ms + (Repeated(ms, n - 1) + ms) == (ms + Repeated(ms, n - 1)) + ms;
    }
  }

  lemma {:induction false} RoomyEach(b: Broker, key: string, datas: seq<Bytes>, ids: seq<Bytes>, ms: seq<Msg>)
    requires |ids| >= |datas| && [] !in datas && key in b.routing && Made(ms, datas, ids)
    requires forall h | h in b.qm.objects :: RoomFor(b.qm.objects[h], Times(b.qm, b.routing[key], h), |datas|)
    ensures var b' := AddEach(b, key, datas, ids);
      && b'.routing == b.routing && b'.qm.(objects := b.qm.objects) == b.qm
      && b'.qm.objects.Keys == b.qm.objects.Keys
      && forall h | h in b.qm.objects ::
           var o, n := b.qm.objects[h], Times(b.qm, b.routing[key], h);
           b'.qm.objects[h] == o.(q := Queue(o.q.live + Blocks(ms, n), o.q.amount + n * |datas|))
    decreases |datas|
  {
    if datas == [] {
      assert forall h | h in b.qm.objects :: b.qm.objects[h].q.live + [] == b.qm.objects[h].q.live;
    } else {
      var b1 := AddMessage(b, key, datas[0], ids[0]).0;
      SubmissionLaw(b, key, datas[0], ids[0]);
      hide AddMessage, Times;
      forall h | h in b.qm.objects
        ensures RoomFor(b1.qm.objects[h], Times(b1.qm, b1.routing[key], h), |datas[1..]|)
      {
        SameTimes(b.qm, b1.qm, b.routing[key], h);
        RoomyOne(b.qm.objects[h], b1.qm.objects[h], Times(b.qm, b.routing[key], h), datas, ids);
      }
      RoomyEach(b1, key, datas[1..], ids[1..], ms[1..]);
      forall h | h in b.qm.objects
        ensures var o, n := b.qm.objects[h], Times(b.qm, b.routing[key], h);
          AddEach(b, key, datas, ids).qm.objects[h] ==
          o.(q := Queue(o.q.live + Blocks(ms, n), o.q.amount + n * |datas|))
      {
        SameTimes(b.qm, b1.qm, b.routing[key], h);
        RoomyOne(b.qm.objects[h], b1.qm.objects[h], Times(b.qm, b.routing[key], h), datas, ids);
        var o, n := b.qm.objects[h], Times(b.qm, b.routing[key], h);
        assert (o.q.live + Copies(ms[0], n)) + Blocks(ms[1..], n) == o.q.live + Blocks(ms, n);
      }
    }
  }

  lemma RoomyOne(o: QueueObject, o1: QueueObject, n: nat, datas: seq<Bytes>, ids: seq<Bytes>)
    requires |ids| >= |datas| > 0 && RoomFor(o, n, |datas|)
    requires var k := Admits(o.q.amount, o.cfg.cap, n);
      o1 == o.(q := Queue(o.q.live + Copies(Msg(ids[0], datas[0], [], 0, 0), k), o.q.amount + k))
    ensures RoomFor(o1, n, |datas| - 1) && n * |datas| == n + n * (|datas| - 1)
    ensures o1 == o.(q := Queue(o.q.live + Copies(Msg(ids[0], datas[0], [], 0, 0), n), o.q.amount + n))
  {
    assert n * |datas| == n + n * (|datas| - 1);
    assert n * (|datas| - 1) >= 0;
  }

  /** With room for all in every queue, each time it is listed, a batch submission does what submitting its
      messages one by one does if and only if no queue is listed twice or all messages are alike: a queue
      that is listed twice gets a batch of a and b as a, b, a, b, and the single messages as a, a, b, b. */
  lemma BatchIsSinglesWithRoomIff(b: Broker, key: string, datas: seq<Bytes>, ids: seq<Bytes>)
    requires |ids| >= |datas| && [] !in datas && key in b.routing
    requires forall h | h in b.qm.objects :: RoomFor(b.qm.objects[h], Times(b.qm, b.routing[key], h), |datas|)
    ensures BatchAddMessage(b, key, datas, ids).0 == AddEach(b, key, datas, ids) <==>
            ListedOnce(b.qm, b.routing[key]) || forall i | 0 <= i < |datas| :: datas[i] == datas[0] && ids[i] == ids[0]
  {
    var names := b.routing[key];
    var ms := seq(|datas|, i requires 0 <= i < |datas| => Msg(ids[i], datas[i], [], 0, 0));
    var b', each := BatchAddMessage(b, key, datas, ids).0, AddEach(b, key, datas, ids);
    assert Made(ms, datas, ids);
    assert Alike(ms) <==> forall i | 0 <= i < |datas| :: datas[i] == datas[0] && ids[i] == ids[0];
    hide Times, AddEach, Made, Alike, RoomFor, BatchAddMessage;
    RoomyEach(b, key, datas, ids, ms);
    RoomyBatches(b, key, datas, ids, ms);
    forall h | h in b.qm.objects
      ensures b'.qm.objects[h] == each.qm.objects[h] <==> Times(b.qm, names, h) <= 1 || Alike(ms)
    {
      SameQueueIff(b.qm.objects[h].q.live, ms, Times(b.qm, names, h));
    }
    hide Repeated, Blocks;
    assert b' == each <==> b'.qm.objects == each.qm.objects;
  }

  lemma SameQueueIff(live: seq<Msg>, ms: seq<Msg>, n: nat)
    ensures live + Repeated(ms, n) == live + Blocks(ms, n) <==> n <= 1 || Alike(ms)
  {
    if n >= 2 {
      RepeatedIsBlocksIff(ms, n);
    } else {
      OnceOver(ms);
    }
    hide Repeated, Blocks, Alike;
    SameTail(live, Repeated(ms, n), Blocks(ms, n));
  }

  lemma RoomyBatches(b: Broker, key: string, datas: seq<Bytes>, ids: seq<Bytes>, ms: seq<Msg>)
    requires |ids| >= |datas| && [] !in datas && key in b.routing && Made(ms, datas, ids)
    requires forall h | h in b.qm.objects :: RoomFor(b.qm.objects[h], Times(b.qm, b.routing[key], h), |datas|)
    ensures var b' := BatchAddMessage(b, key, datas, ids).0;
      && b'.routing == b.routing && b'.qm.(objects := b.qm.objects) == b.qm
      && b'.qm.objects.Keys == b.qm.objects.Keys
      && forall h | h in b.qm.objects ::
           var o, n := b.qm.objects[h], Times(b.qm, b.routing[key], h);
           b'.qm.objects[h] == o.(q := Queue(o.q.live + Repeated(ms, n), o.q.amount + n * |datas|))
  {
    var names, d := b.routing[key], Many(Batch(datas, ids));
    DeliverAllCounts(b.qm, names, d, |names|);
    assert names[..|names|] == names;
    hide DeliverAll, Bound, Times, Batch, Made, Repeated, RoomFor, ObjectTimes;
    forall h | h in b.qm.objects
      ensures var o, n := b.qm.objects[h], Times(b.qm, names, h);
        ObjectTimes(o, d, |Bound(b.qm, names, |names|, h)|)
        == o.(q := Queue(o.q.live + Repeated(ms, n), o.q.amount + n * |datas|))
    {
      TimesIsBound(b.qm, names, h);
      RoomyBatch(b.qm.objects[h], datas, ids, ms, Times(b.qm, names, h), Times(b.qm, names, h));
    }
  }

  lemma SameTail<T>(a: seq<T>, x: seq<T>, y: seq<T>)
    ensures a + x == a + y <==> x == y
  {
    assert (a + x)[|a|..] == x && (a + y)[|a|..] == y;
  }
}
