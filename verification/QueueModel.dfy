/** The leased queue as a value: what each operation of the linked list does to
    the sequence of messages, the Amount counter and the dead-letter queue. */
module QueueModel {
  import opened Types
  import opened Marks

  const NO_CONSUMER: Bytes := []

  /** A live message: the fields of a list node other than its link. */
  datatype Msg = Msg(id: Bytes, val: Bytes, owner: Bytes, time: int64, fetched: uint32)

  /** What a node holds after it has been reset. */
  const BLANK := Msg([], [], NO_CONSUMER, 0, 0)

  /** The messages from Head to Tail, and the Amount counter, which may exceed their number. */
  datatype Queue = Queue(live: seq<Msg>, amount: int)

  /** The dead-letter pointer: nil, a pointer to a nil interface, or a queue. */
  datatype Dead = NoPointer | NilInterface | Dlq(cap: uint32, queue: Queue)

  datatype Config = Config(cap: uint32, fetchLimit: uint32, ttl: int64)
  datatype State = State(q: Queue, dead: Dead)
  datatype Reply = Done | Refused | Panicked

  datatype MessageBatch = MessageBatch(id: Bytes, data: Bytes)

  function Fresh(id: Bytes, val: Bytes): Msg {
    Msg(id, val, NO_CONSUMER, 0, 0)
  }

  function FreshAll(batch: seq<MessageBatch>): (r: seq<Msg>)
    ensures |r| == |batch|
    ensures forall i | 0 <= i < |batch| :: r[i] == Fresh(batch[i].id, batch[i].data)
  {
    seq(|batch|, i requires 0 <= i < |batch| => Fresh(batch[i].id, batch[i].data))
  }

  lemma FreshAllStep(batch: seq<MessageBatch>, i: nat)
    requires i < |batch|
    ensures FreshAll(batch[..i + 1]) == FreshAll(batch[..i]) + [Fresh(batch[i].id, batch[i].data)]
  {
  }

  // ----- admission

  function Enqueue(q: Queue, cap: uint32, id: Bytes, val: Bytes): Queue {
    if q.amount >= cap then q else Queue(q.live + [Fresh(id, val)], q.amount + 1)
  }

  function BatchEnqueue(q: Queue, cap: uint32, batch: seq<MessageBatch>): Queue {
    if batch == [] || q.amount >= cap then q
    else Queue(q.live + FreshAll(batch), q.amount + |batch|)
  }

  // ----- fetching

  predicate Eligible(m: Msg, c: Bytes, now: int64, ttl: int64) {
    m.owner == c || m.owner == NO_CONSUMER || Sub64(now, m.time) > ttl
  }

  datatype Fetched = Fetched(live: seq<Msg>, got: seq<Msg>)

  function Fetch(live: seq<Msg>, amount: nat, c: Bytes, now: int64, ttl: int64): (r: Fetched) {
    if live == [] || amount == 0 then Fetched(live, [])
    else if Eligible(live[0], c, now, ttl) then
      var r := Fetch(live[1..], amount - 1, c, now, ttl);
      Fetched([live[0].(owner := c, time := now)] + r.live, [live[0]] + r.got)
    else
      var r := Fetch(live[1..], amount, c, now, ttl);
      Fetched([live[0]] + r.live, r.got)
  }

  function Vals(ms: seq<Msg>): (r: seq<Bytes>)
    ensures |r| == |ms|
    ensures forall i | 0 <= i < |ms| :: r[i] == ms[i].val
  {
    seq(|ms|, i requires 0 <= i < |ms| => ms[i].val)
  }

  function Ids(ms: seq<Msg>): (r: seq<Bytes>)
    ensures |r| == |ms|
    ensures forall i | 0 <= i < |ms| :: r[i] == ms[i].id
  {
    seq(|ms|, i requires 0 <= i < |ms| => ms[i].id)
  }

  /** A fetch from was that has dealt with the first i messages has turned was into now and collected got. */
  ghost predicate FetchedTo(was: seq<Msg>, now: seq<Msg>, i: nat, got: seq<Msg>,
                            amount: nat, c: Bytes, time: int64, ttl: int64) {
    && |now| == |was| && i <= |was| && |got| <= amount
    && now[i..] == was[i..]
    && var rest := Fetch(was[i..], amount - |got|, c, time, ttl);
       Fetch(was, amount, c, time, ttl) == Fetched(now[..i] + rest.live, got + rest.got)
  }

  lemma FetchStart(was: seq<Msg>, amount: nat, c: Bytes, time: int64, ttl: int64)
    ensures FetchedTo(was, was, 0, [], amount, c, time, ttl)
    ensures was == [] ==> Fetch(was, amount, c, time, ttl) == Fetched([], [])
  {
    assert was[0..] == was;
    var r := Fetch(was, amount, c, time, ttl);
    assert was[..0] + r.live == r.live && [] + r.got == r.got;
  }

  lemma FetchStep(was: seq<Msg>, now: seq<Msg>, i: nat, got: seq<Msg>,
                  amount: nat, c: Bytes, time: int64, ttl: int64)
    requires FetchedTo(was, now, i, got, amount, c, time, ttl)
    requires i < |was| && |got| < amount
    ensures now[i] == was[i]
    ensures
      if Eligible(was[i], c, time, ttl) then
        FetchedTo(was, now[i := now[i].(owner := c, time := time)], i + 1, got + [was[i]], amount, c, time, ttl)
      else
        FetchedTo(was, now, i + 1, got, amount, c, time, ttl)
  {
    assert now[i] == now[i..][0];
    assert was[i..][1..] == was[i + 1..];
    var m := was[i].(owner := c, time := time);
    assert now[i := m][..i + 1] == now[..i] + [m];
    assert now[..i + 1] == now[..i] + [was[i]];
    assert now[i := m][i + 1..] == now[i..][1..];
    assert now[i + 1..] == now[i..][1..];
    if Eligible(was[i], c, time, ttl) {
      var rest := Fetch(was[i + 1..], amount - |got| - 1, c, time, ttl);
      assert now[..i] + ([m] + rest.live) == (now[..i] + [m]) + rest.live;
      assert got + ([was[i]] + rest.got) == (got + [was[i]]) + rest.got;
    } else {
      var rest := Fetch(was[i + 1..], amount - |got|, c, time, ttl);
      assert now[..i] + ([was[i]] + rest.live) == (now[..i] + [was[i]]) + rest.live;
    }
  }

  lemma FetchEnd(was: seq<Msg>, now: seq<Msg>, i: nat, got: seq<Msg>,
                 amount: nat, c: Bytes, time: int64, ttl: int64)
    requires FetchedTo(was, now, i, got, amount, c, time, ttl)
    requires i == |was| || |got| == amount
    ensures Fetch(was, amount, c, time, ttl) == Fetched(now, got)
  {
    assert now[..i] + was[i..] == now;
    assert got + [] == got;
  }

  // ----- single acknowledgement

  function FirstId(live: seq<Msg>, id: Bytes): (i: nat)
    ensures i <= |live|
    ensures i < |live| ==> live[i].id == id
    ensures forall j | 0 <= j < i :: live[j].id != id
  {
    if live == [] || live[0].id == id then 0 else 1 + FirstId(live[1..], id)
  }

  function FirstHeld(live: seq<Msg>, c: Bytes, id: Bytes): (i: nat)
    ensures i <= |live|
    ensures i < |live| ==> live[i].id == id && live[i].owner == c
    ensures forall j | 0 <= j < i :: !(live[j].id == id && live[j].owner == c)
  {
    if live == [] || (live[0].id == id && live[0].owner == c) then 0
    else 1 + FirstHeld(live[1..], c, id)
  }

  function RemoveAt<T>(s: seq<T>, i: nat): (r: seq<T>)
    requires i < |s|
    ensures |r| == |s| - 1
    ensures forall k {:trigger r[k]} | 0 <= k < |r| :: r[k] == if k < i then s[k] else s[k + 1]
  {
    s[..i] + s[i + 1..]
  }

  function Ack(q: Queue, c: Bytes, id: Bytes): (Queue, Reply) {
    var i := FirstHeld(q.live, c, id);
    if i == |q.live| then (q, Refused)
    else (Queue(RemoveAt(q.live, i), q.amount - 1), Done)
  }

  // ----- single negative acknowledgement

  function Returned(m: Msg): Msg {
    m.(owner := NO_CONSUMER, fetched := Inc32(m.fetched))
  }

  /** A nack of m brings it to the retry limit. */
  predicate Expires(m: Msg, limit: uint32) {
    Inc32(m.fetched) >= limit
  }

  function Bury(dead: Dead, m: Msg): Dead {
    if dead.Dlq? then dead.(queue := Enqueue(dead.queue, dead.cap, m.id, m.val)) else dead
  }

  /** A nack of the message at position i by its holder. */
  function NackAt(s: State, limit: uint32, i: nat): (State, Reply)
    requires i < |s.q.live|
  {
    var m := s.q.live[i];
    if !Expires(m, limit) then
      (s.(q := s.q.(live := s.q.live[i := Returned(m)])), Done)
    else if s.dead.NilInterface? then
      (s.(q := s.q.(live := s.q.live[i := Returned(m)])), Panicked)
    else
      (State(Queue(RemoveAt(s.q.live, i), s.q.amount - 1), Bury(s.dead, m)), Done)
  }

  function Nack(s: State, limit: uint32, c: Bytes, id: Bytes): (State, Reply) {
    var i := FirstId(s.q.live, id);
    if i == |s.q.live| || s.q.live[i].owner != c then (s, Refused)
    else NackAt(s, limit, i)
  }

  function UnlockAll(live: seq<Msg>, c: Bytes): (r: seq<Msg>)
    ensures |r| == |live|
    ensures forall i | 0 <= i < |live| ::
              r[i] == if live[i].owner == c then live[i].(owner := NO_CONSUMER) else live[i]
  {
    seq(|live|, i requires 0 <= i < |live| =>
      if live[i].owner == c then live[i].(owner := NO_CONSUMER) else live[i])
  }

  // ----- batch acknowledgement

  predicate Held(m: Msg, c: Bytes, ids: seq<Bytes>) {
    m.owner == c && m.id in ids
  }

  function HeldHits(live: seq<Msg>, c: Bytes, ids: seq<Bytes>): (r: seq<bool>)
    ensures |r| == |live|
    ensures forall i | 0 <= i < |live| :: r[i] == Held(live[i], c, ids)
  {
    seq(|live|, i requires 0 <= i < |live| => Held(live[i], c, ids))
  }

  /** The messages a batch ack unlinks: the first |ids| that match. */
  function AckMarks(live: seq<Msg>, c: Bytes, ids: seq<Bytes>): (r: seq<bool>)
    ensures |r| == |live|
  {
    FirstMarks(HeldHits(live, c, ids), |ids|)
  }

  /** Where a batch ack leaves the chain and the Tail pointer (an index into the chain). */
  datatype BatchAcked = BatchAcked(reply: Reply, live: seq<Msg>, tail: int)

  /** The rollback after fewer than |ids| matches puts the unlinked messages
      behind the new head, when it does not follow a nil pointer first. */
  function RollBack<T>(kept: seq<T>, taken: seq<T>, lastTaken: bool): Option<seq<T>> {
    if kept == [] then None
    else if |taken| == 1 || (|taken| == 2 && lastTaken) then Some([kept[0]] + taken + kept[1..])
    else None
  }

  function BatchAck(q: Queue, c: Bytes, ids: seq<Bytes>): BatchAcked
    requires |ids| != 1
  {
    var n := |q.live|;
    var marks := AckMarks(q.live, c, ids);
    var kept, taken := Kept(q.live, marks), Taken(q.live, marks);
    if n == 0 || q.amount < |ids| || taken == [] then BatchAcked(Refused, q.live, n - 1)
    else if |taken| == |ids| then BatchAcked(Done, kept, |kept| - 1)
    else
      match RollBack(kept, taken, marks[n - 1])
      case None => BatchAcked(Panicked, [], -1)
      case Some(chain) =>
        BatchAcked(Refused, chain, if |kept| == 1 then 0 else n - 1)
  }

  /** A finished pass of a batch ack over was has left now and put out. */
  ghost predicate Collected(was: seq<Msg>, c: Bytes, ids: seq<Bytes>, now: seq<Msg>, out: seq<Msg>) {
    now == Kept(was, AckMarks(was, c, ids)) && out == Taken(was, AckMarks(was, c, ids))
  }

  lemma AckStep(was: seq<Msg>, c: Bytes, ids: seq<Bytes>, i: nat, now: seq<Msg>, out: seq<Msg>)
    requires i < |was| && |out| < |ids|
    requires PassedTo(was, AckMarks(was, c, ids), i, now, out)
    ensures |out| <= i && |now| == |was| - |out| && now[i - |out|] == was[i]
    ensures AckMarks(was, c, ids)[i] == Held(was[i], c, ids)
    ensures
      if Held(was[i], c, ids) then
        PassedTo(was, AckMarks(was, c, ids), i + 1, RemoveAt(now, i - |out|), out + [was[i]])
      else
        PassedTo(was, AckMarks(was, c, ids), i + 1, now, out)
  {
    PassStep(was, AckMarks(was, c, ids), i, now, out);
    FirstMarksAt(HeldHits(was, c, ids), |ids|, i);
    TakenCount(was[..i], AckMarks(was, c, ids)[..i]);
  }

  lemma AckStart(was: seq<Msg>, c: Bytes, ids: seq<Bytes>)
    requires was != []
    ensures PassedTo(was, AckMarks(was, c, ids), 0, was, [])
    ensures Held(was[0], c, ids) ==> PassedTo(was, AckMarks(was, c, ids), 1, was[1..], [was[0]])
  {
    assert was[..0] == [] && was[0..] == was;
    if ids != [] {
      AckStep(was, c, ids, 0, was, []);
    }
    assert RemoveAt(was, 0) == was[1..];
  }

  lemma AckEnd(was: seq<Msg>, c: Bytes, ids: seq<Bytes>, i: nat, now: seq<Msg>, out: seq<Msg>)
    requires i <= |was|
    requires PassedTo(was, AckMarks(was, c, ids), i, now, out)
    requires i == |was| || |out| == |ids|
    ensures Collected(was, c, ids, now, out)
  {
    PassEnd(was, HeldHits(was, c, ids), |ids|, i, now, out);
  }

  lemma CollectedSize(was: seq<Msg>, c: Bytes, ids: seq<Bytes>, now: seq<Msg>, out: seq<Msg>)
    requires Collected(was, c, ids, now, out)
    ensures |now| + |out| == |was| && |out| <= |ids|
    ensures out == [] ==> now == was
  {
    var marks := AckMarks(was, c, ids);
    TakenCount(was, marks);
    FirstMarksCount(HeldHits(was, c, ids), |ids|);
    if out == [] {
      ClearIfNone(marks);
      AllClear(was, marks);
    }
  }
}
