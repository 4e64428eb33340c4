/** Whole runs of the leased queue: what holds after any sequence of operations. */
module QueueRuns {
  import opened Types
  import opened Marks
  import opened QueueModel
  import opened BatchNack

  /** An operation of a queue. */
  datatype Op =
    | DoEnqueue(id: Bytes, val: Bytes)
    | DoBatchEnqueue(batch: seq<MessageBatch>)
    | DoFetch(amount: uint32, c: Bytes, now: int64)
    | DoNack(c: Bytes, id: Bytes)
    | DoAck(c: Bytes, id: Bytes)
    | DoUnlockAll(c: Bytes)
    | DoBatchAck(c: Bytes, ids: seq<Bytes>)
    | DoBatchNack(c: Bytes, ids: seq<Bytes>)

  datatype Payload = Payload(id: Bytes, val: Bytes)

  /** What the outside sees happen to a message. Counted says whether Amount went down with it. */
  datatype Event =
    | Admitted(p: Payload)
    | Acked(p: Payload, counted: bool)
    | Nacked(p: Payload)
    | Buried(p: Payload)      // moved to the dead-letter queue
    | Overflowed(p: Payload)  // refused by a full dead-letter queue
    | Discarded(p: Payload)   // there is no dead-letter queue

  datatype Trace = Trace(s: State, log: seq<Event>)

  function Of(m: Msg): Payload {
    Payload(m.id, m.val)
  }

  function Payloads(ms: seq<Msg>): (r: seq<Payload>)
    ensures |r| == |ms|
    ensures forall i | 0 <= i < |ms| :: r[i] == Of(ms[i])
  {
    seq(|ms|, i requires 0 <= i < |ms| => Of(ms[i]))
  }

  function BatchPayloads(batch: seq<MessageBatch>): (r: seq<Payload>)
    ensures |r| == |batch|
    ensures forall i | 0 <= i < |batch| :: r[i] == Payload(batch[i].id, batch[i].data)
  {
    seq(|batch|, i requires 0 <= i < |batch| => Payload(batch[i].id, batch[i].data))
  }

  function Each(ps: seq<Payload>, event: Payload -> Event): (r: seq<Event>)
    ensures |r| == |ps|
    ensures forall i | 0 <= i < |ps| :: r[i] == event(ps[i])
  {
    seq(|ps|, i requires 0 <= i < |ps| => event(ps[i]))
  }

  /** Where an expired message goes. */
  function Departure(dead: Dead, p: Payload): Event {
    match dead
    case Dlq(cap, q) => if q.amount < cap then Buried(p) else Overflowed(p)
    case _ => Discarded(p)
  }

  function AckOne(t: Trace, c: Bytes, id: Bytes): Trace {
    var (q, reply) := Ack(t.s.q, c, id);
    Trace(t.s.(q := q),
          t.log + if reply == Done then [Acked(Of(t.s.q.live[FirstHeld(t.s.q.live, c, id)]), true)] else [])
  }

  /** The messages that a nack brings to the retry limit, in order. */
  function Worn(ms: seq<Msg>, limit: uint32): seq<Msg> {
    if ms == [] then []
    else
      var before, m := ms[..|ms| - 1], ms[|ms| - 1];
      Worn(before, limit) + if Expires(m, limit) then [m] else []
  }

  /** What is logged when the messages are nacked one after the other. */
  function NackLog(dead: Dead, ms: seq<Msg>, limit: uint32): seq<Event> {
    if ms == [] then []
    else
      var before, m := ms[..|ms| - 1], ms[|ms| - 1];
      NackLog(dead, before, limit) + [Nacked(Of(m))] +
      if Expires(m, limit) then [Departure(BuryAll(dead, Worn(before, limit)), Of(m))] else []
  }

  /** One operation; None when the process panics, when a failed batch ack may have left Tail
      behind, and when a batch nack loses messages. */
  function Step(cfg: Config, t: Trace, op: Op): Option<Trace> {
    var s := t.s;
    match op
    case DoEnqueue(id, val) =>
      Some(Trace(s.(q := Enqueue(s.q, cfg.cap, id, val)),
                 t.log + if s.q.amount < cfg.cap then [Admitted(Payload(id, val))] else []))
    case DoBatchEnqueue(batch) =>
      Some(Trace(s.(q := BatchEnqueue(s.q, cfg.cap, batch)),
                 t.log + if s.q.amount < cfg.cap then Each(BatchPayloads(batch), p => Admitted(p)) else []))
    case DoFetch(amount, c, now) =>
      Some(Trace(s.(q := s.q.(live := Fetch(s.q.live, amount, c, now, cfg.ttl).live)), t.log))
    case DoNack(c, id) =>
      var (s', reply) := Nack(s, cfg.fetchLimit, c, id);
      if reply == Panicked then None
      else if reply == Refused then Some(Trace(s', t.log))
      else
        var m := s.q.live[FirstId(s.q.live, id)];
        Some(Trace(s', t.log + [Nacked(Of(m))] +
                       if Expires(m, cfg.fetchLimit) then [Departure(s.dead, Of(m))] else []))
    case DoAck(c, id) => Some(AckOne(t, c, id))
    case DoUnlockAll(c) =>
      Some(Trace(s.(q := s.q.(live := UnlockAll(s.q.live, c))), t.log))
    case DoBatchAck(c, ids) =>
      if |ids| == 1 then Some(AckOne(t, c, ids[0]))
      else
        var r := BatchAck(s.q, c, ids);
        var taken := Payloads(Taken(s.q.live, AckMarks(s.q.live, c, ids)));
        if r.reply == Done then
          Some(Trace(s.(q := s.q.(live := r.live)), t.log + Each(taken, p => Acked(p, false))))
        else if r.reply == Refused && r.live == s.q.live && r.tail == |r.live| - 1 then Some(t)
        else None
    case DoBatchNack(c, ids) =>
      var (s', reply) := NackMany(s, cfg.fetchLimit, ids);
      var marks := NackMarks(s.q.live, ids);
      if reply == Refused then Some(t)
      else if reply == Done && OneRun(Expiring(s.q.live, marks, cfg.fetchLimit)) then
        Some(Trace(s', t.log + NackLog(s.dead, Taken(s.q.live, marks), cfg.fetchLimit)))
      else None
  }

  function Run(cfg: Config, t: Trace, ops: seq<Op>): Option<Trace>
    decreases |ops|
  {
    if ops == [] then Some(t)
    else
      match Step(cfg, t, ops[0])
      case None => None
      case Some(t') => Run(cfg, t', ops[1..])
  }

  /** An empty queue beside a dead-letter queue in any state. */
  function Start(dead: Dead): Trace {
    Trace(State(Queue([], 0), dead), [])
  }

  // ----- reading the log

  function AdmittedIn(log: seq<Event>): seq<Payload> {
    if log == [] then []
    else AdmittedIn(log[..|log| - 1]) + if log[|log| - 1].Admitted? then [log[|log| - 1].p] else []
  }

  function BuriedIn(log: seq<Event>): seq<Payload> {
    if log == [] then []
    else BuriedIn(log[..|log| - 1]) + if log[|log| - 1].Buried? then [log[|log| - 1].p] else []
  }

  /** The messages that have left the queue, in whatever way. */
  function GoneIn(log: seq<Event>): seq<Payload> {
    if log == [] then [] else GoneIn(log[..|log| - 1]) + Leaving(log[|log| - 1])
  }

  function Leaving(e: Event): seq<Payload> {
    if e.Acked? || e.Buried? || e.Overflowed? || e.Discarded? then [e.p] else []
  }

  /** How many messages a batch ack has taken out without lowering Amount. */
  function UncountedIn(log: seq<Event>): nat {
    if log == [] then 0
    else UncountedIn(log[..|log| - 1]) + if log[|log| - 1].Acked? && !log[|log| - 1].counted then 1 else 0
  }

  function NacksIn(log: seq<Event>, id: Bytes): nat {
    if log == [] then 0
    else NacksIn(log[..|log| - 1], id) + if log[|log| - 1].Nacked? && log[|log| - 1].p.id == id then 1 else 0
  }

  lemma {:induction false} AdmittedSplit(log: seq<Event>, more: seq<Event>)
    ensures AdmittedIn(log + more) == AdmittedIn(log) + AdmittedIn(more)
  {
    if more == [] {
      assert log + more == log;
    } else {
      AdmittedSplit(log, more[..|more| - 1]);
      assert (log + more)[..|log + more| - 1] == log + more[..|more| - 1];
    }
  }

  lemma {:induction false} BuriedSplit(log: seq<Event>, more: seq<Event>)
    ensures BuriedIn(log + more) == BuriedIn(log) + BuriedIn(more)
  {
    if more == [] {
      assert log + more == log;
    } else {
      BuriedSplit(log, more[..|more| - 1]);
      assert (log + more)[..|log + more| - 1] == log + more[..|more| - 1];
    }
  }

  lemma {:induction false} GoneSplit(log: seq<Event>, more: seq<Event>)
    ensures GoneIn(log + more) == GoneIn(log) + GoneIn(more)
  {
    if more == [] {
      assert log + more == log;
    } else {
      hide Leaving;
      var before, e := more[..|more| - 1], more[|more| - 1];
      GoneSplit(log, before);
      assert (log + more)[..|log + more| - 1] == log + before && (log + more)[|log + more| - 1] == e;
      assert GoneIn(log + more) == GoneIn(log + before) + Leaving(e);
      assert GoneIn(more) == GoneIn(before) + Leaving(e);
      hide GoneIn;
      assert GoneIn(log) + GoneIn(before) + Leaving(e) == GoneIn(log) + (GoneIn(before) + Leaving(e));
    }
  }

  lemma {:induction false} UncountedSplit(log: seq<Event>, more: seq<Event>)
    ensures UncountedIn(log + more) == UncountedIn(log) + UncountedIn(more)
  {
    if more == [] {
      assert log + more == log;
    } else {
      UncountedSplit(log, more[..|more| - 1]);
      assert (log + more)[..|log + more| - 1] == log + more[..|more| - 1];
    }
  }

  lemma {:induction false} NacksSplit(log: seq<Event>, more: seq<Event>)
    ensures forall id :: NacksIn(log + more, id) == NacksIn(log, id) + NacksIn(more, id)
  {
    if more == [] {
      assert log + more == log;
    } else {
      NacksSplit(log, more[..|more| - 1]);
      assert (log + more)[..|log + more| - 1] == log + more[..|more| - 1];
    }
  }

  lemma LogSplit(log: seq<Event>, more: seq<Event>)
    ensures AdmittedIn(log + more) == AdmittedIn(log) + AdmittedIn(more)
    ensures BuriedIn(log + more) == BuriedIn(log) + BuriedIn(more)
    ensures GoneIn(log + more) == GoneIn(log) + GoneIn(more)
    ensures UncountedIn(log + more) == UncountedIn(log) + UncountedIn(more)
    ensures forall id :: NacksIn(log + more, id) == NacksIn(log, id) + NacksIn(more, id)
  {
    AdmittedSplit(log, more);
    BuriedSplit(log, more);
    GoneSplit(log, more);
    UncountedSplit(log, more);
    NacksSplit(log, more);
  }

  lemma {:induction false} LogOfAdmitted(evs: seq<Event>, ps: seq<Payload>)
    requires |evs| == |ps| && forall i | 0 <= i < |ps| :: evs[i] == Admitted(ps[i])
    ensures AdmittedIn(evs) == ps && BuriedIn(evs) == [] && GoneIn(evs) == [] && UncountedIn(evs) == 0
    ensures forall id :: NacksIn(evs, id) == 0
  {
    if evs != [] {
      var n := |evs| - 1;
      LogOfAdmitted(evs[..n], ps[..n]);
      assert ps == ps[..n] + [ps[n]];
    }
  }

  lemma {:induction false} LogOfAcked(evs: seq<Event>, ps: seq<Payload>)
    requires |evs| == |ps| && forall i | 0 <= i < |ps| :: evs[i] == Acked(ps[i], false)
    ensures AdmittedIn(evs) == [] && BuriedIn(evs) == [] && GoneIn(evs) == ps && UncountedIn(evs) == |ps|
    ensures forall id :: NacksIn(evs, id) == 0
  {
    if evs != [] {
      var n := |evs| - 1;
      LogOfAcked(evs[..n], ps[..n]);
      assert ps == ps[..n] + [ps[n]];
    }
  }

  // ----- order

  /** xs is what some marks take from ys: a subsequence. */
  ghost predicate InOrder<T(!new)>(xs: seq<T>, ys: seq<T>) {
    exists marks: seq<bool> :: |marks| == |ys| && xs == Taken(ys, marks)
  }

  lemma {:induction false} TakenAll<T>(xs: seq<T>)
    ensures Taken(xs, seq(|xs|, _ => true)) == xs
  {
    if xs != [] {
      TakenAll(xs[1..]);
      assert seq(|xs|, _ => true)[1..] == seq(|xs| - 1, _ => true);
    }
  }

  lemma InOrderAppend<T(!new)>(xs: seq<T>, ys: seq<T>, zs: seq<T>)
    requires InOrder(xs, ys)
    ensures InOrder(xs + zs, ys + zs)
  {
    var marks: seq<bool> :| |marks| == |ys| && xs == Taken(ys, marks);
    var all := marks + seq(|zs|, _ => true);
    SplitTaken(ys + zs, all, |ys|);
    assert (ys + zs)[..|ys|] == ys && (ys + zs)[|ys|..] == zs;
    assert all[..|ys|] == marks && all[|ys|..] == seq(|zs|, _ => true);
    TakenAll(zs);
    assert xs + zs == Taken(ys + zs, all);
  }

  /** Taking less: unmarks in marks the elements that drop marks. */
  function Fewer(marks: seq<bool>, drop: seq<bool>): (r: seq<bool>)
    requires Count(marks) == |drop|
    ensures |r| == |marks|
  {
    if marks == [] then []
    else if marks[0] then [!drop[0]] + Fewer(marks[1..], drop[1..])
    else [false] + Fewer(marks[1..], drop)
  }

  lemma {:induction false} KeptOfTaken<T>(ys: seq<T>, marks: seq<bool>, drop: seq<bool>)
    requires |ys| == |marks| && Count(marks) == |drop| == |Taken(ys, marks)|
    ensures Kept(Taken(ys, marks), drop) == Taken(ys, Fewer(marks, drop))
  {
    if ys != [] {
      var rest := Taken(ys[1..], marks[1..]);
      TakenCount(ys[1..], marks[1..]);
      if marks[0] {
        KeptOfTaken(ys[1..], marks[1..], drop[1..]);
        assert Taken(ys, marks) == [ys[0]] + rest;
        assert Taken(ys, marks)[1..] == rest;
      } else {
        KeptOfTaken(ys[1..], marks[1..], drop);
        assert Taken(ys, marks) == rest;
      }
    }
  }

  lemma InOrderKept<T(!new)>(xs: seq<T>, ys: seq<T>, drop: seq<bool>)
    requires InOrder(xs, ys) && |drop| == |xs|
    ensures InOrder(Kept(xs, drop), ys)
  {
    var marks: seq<bool> :| |marks| == |ys| && xs == Taken(ys, marks);
    TakenCount(ys, marks);
    KeptOfTaken(ys, marks, drop);
    assert Kept(xs, drop) == Taken(ys, Fewer(marks, drop));
  }

  lemma {:induction false} KeptTakenMultiset<T>(xs: seq<T>, marks: seq<bool>)
    requires |xs| == |marks|
    ensures multiset(xs) == multiset(Kept(xs, marks)) + multiset(Taken(xs, marks))
  {
    if xs != [] {
      KeptTakenMultiset(xs[1..], marks[1..]);
      assert xs == [xs[0]] + xs[1..];
    }
  }

  lemma {:induction false} PayloadsSplit(ms: seq<Msg>, marks: seq<bool>)
    requires |ms| == |marks|
    ensures Payloads(Kept(ms, marks)) == Kept(Payloads(ms), marks)
    ensures Payloads(Taken(ms, marks)) == Taken(Payloads(ms), marks)
  {
    if ms != [] {
      PayloadsSplit(ms[1..], marks[1..]);
      assert Payloads(ms)[1..] == Payloads(ms[1..]);
      var k, t := Kept(ms[1..], marks[1..]), Taken(ms[1..], marks[1..]);
      assert Payloads([ms[0]] + k) == [Of(ms[0])] + Payloads(k);
      assert Payloads([ms[0]] + t) == [Of(ms[0])] + Payloads(t);
      assert [] + k == k && [] + t == t;
    }
  }

  /** Removing one element is keeping all but one. */
  function OneMark(n: nat, i: nat): (r: seq<bool>)
    ensures |r| == n
    ensures forall k | 0 <= k < n :: r[k] == (k == i)
  {
    seq(n, k => k == i)
  }

  lemma {:induction false} RemoveAtIsKept<T>(xs: seq<T>, i: nat)
    requires i < |xs|
    ensures RemoveAt(xs, i) == Kept(xs, OneMark(|xs|, i)) && Taken(xs, OneMark(|xs|, i)) == [xs[i]]
  {
    var one := OneMark(|xs|, i);
    if i == 0 {
      AllClear(xs[1..], one[1..]);
      assert [] + xs[1..] == xs[1..] && [xs[0]] + [] == [xs[0]];
    } else {
      RemoveAtIsKept(xs[1..], i - 1);
      assert one[1..] == OneMark(|xs| - 1, i - 1);
      assert RemoveAt(xs, i) == [xs[0]] + RemoveAt(xs[1..], i - 1);
    }
  }
}
