/** Conservation, order, the counter, the retry bound and the dead-letter queue over every run. */
module QueueHistory {
  import opened Types
  import opened Marks
  import opened QueueModel
  import opened BatchNack
  import opened QueueLaws
  import opened BatchLaws
  import opened QueueRuns

  /** Every admitted message is live or has left, once. */
  ghost predicate Conserved(t: Trace) {
    multiset(AdmittedIn(t.log)) == multiset(Payloads(t.s.q.live)) + multiset(GoneIn(t.log))
  }

  /** The live messages are in the order of their admission. */
  ghost predicate Ordered(t: Trace) {
    InOrder(Payloads(t.s.q.live), AdmittedIn(t.log))
  }

  /** Amount exceeds the number of live messages by those that a batch ack took out. */
  ghost predicate Counted(t: Trace) {
    t.s.q.amount == |t.s.q.live| + UncountedIn(t.log)
  }

  /** The messages as they are when they have just been admitted. */
  function Anew(ps: seq<Payload>): (r: seq<Msg>)
    ensures |r| == |ps|
    ensures forall i | 0 <= i < |ps| :: r[i] == Fresh(ps[i].id, ps[i].val)
  {
    seq(|ps|, i requires 0 <= i < |ps| => Fresh(ps[i].id, ps[i].val))
  }

  /** The dead-letter queue has received, in order and anew, the messages logged as buried. */
  ghost predicate DeadGrew(before: Dead, after: Dead, more: seq<Event>) {
    if before.Dlq? then
      && after.Dlq? && after.cap == before.cap
      && after.queue.live == before.queue.live + Anew(BuriedIn(more))
      && after.queue.amount == before.queue.amount + |BuriedIn(more)|
    else
      after == before && BuriedIn(more) == []
  }

  /** Since the start the dead-letter queue has received what was buried. */
  ghost predicate DeadLettered(dead: Dead, t: Trace) {
    DeadGrew(dead, t.s.dead, t.log)
  }

  function Max(a: int, b: int): int {
    if a > b then a else b
  }

  /** No live message has used up its retries. */
  ghost predicate Bounded(cfg: Config, t: Trace) {
    forall i | 0 <= i < |t.s.q.live| :: t.s.q.live[i].fetched < Max(1, cfg.fetchLimit)
  }

  /** What holds of a queue whatever becomes of its dead-letter queue in the meantime. */
  ghost predicate Steady(cfg: Config, t: Trace) {
    Conserved(t) && Ordered(t) && Counted(t) && Bounded(cfg, t)
  }

  ghost predicate Sound(cfg: Config, dead: Dead, t: Trace) {
    Steady(cfg, t) && DeadLettered(dead, t)
  }

  /** A step from t to t' has kept the queue steady and handed the dead-letter queue what it logged as buried. */
  ghost predicate Advanced(cfg: Config, t: Trace, t': Trace) {
    && |t.log| <= |t'.log| && t'.log == t.log + t'.log[|t.log|..]
    && Steady(cfg, t') && DeadGrew(t.s.dead, t'.s.dead, t'.log[|t.log|..])
  }

  // ----- the dead-letter queue

  lemma DeadGrewJoin(a: Dead, b: Dead, c: Dead, log: seq<Event>, more: seq<Event>)
    requires DeadGrew(a, b, log) && DeadGrew(b, c, more)
    ensures DeadGrew(a, c, log + more)
  {
    BuriedSplit(log, more);
    assert Anew(BuriedIn(log) + BuriedIn(more)) == Anew(BuriedIn(log)) + Anew(BuriedIn(more));
    hide BuriedIn, Anew;
    if a.Dlq? {
      assert a.queue.live + Anew(BuriedIn(log)) + Anew(BuriedIn(more))
             == a.queue.live + (Anew(BuriedIn(log)) + Anew(BuriedIn(more)));
    }
  }

  lemma DeadGrewNone(dead: Dead, more: seq<Event>)
    requires BuriedIn(more) == []
    ensures DeadGrew(dead, dead, more)
  {
    assert dead.Dlq? ==> dead.queue.live + Anew([]) == dead.queue.live;
  }

  /** Burying one message. */
  lemma DeadGrewOne(dead: Dead, m: Msg)
    ensures DeadGrew(dead, Bury(dead, m), [Departure(dead, Of(m))])
  {
    LogOfOne(Departure(dead, Of(m)));
    hide BuriedIn;
    assert Anew([Of(m)]) == [Fresh(m.id, m.val)];
    if dead.Dlq? {
      assert dead.queue.live + Anew([]) == dead.queue.live;
    }
  }

  // ----- logs

  lemma LogOfNone()
    ensures AdmittedIn([]) == [] && BuriedIn([]) == [] && GoneIn([]) == [] && UncountedIn([]) == 0
  {
  }

  lemma LogOfOne(e: Event)
    ensures AdmittedIn([e]) == if e.Admitted? then [e.p] else []
    ensures BuriedIn([e]) == if e.Buried? then [e.p] else []
    ensures GoneIn([e]) == Leaving(e)
    ensures UncountedIn([e]) == if e.Acked? && !e.counted then 1 else 0
    ensures forall id :: NacksIn([e], id) == if e.Nacked? && e.p.id == id then 1 else 0
  {
    assert [e][..0] == [];
  }

  /** What a nack of one message logs. */
  function NackEvents(dead: Dead, m: Msg, limit: uint32): seq<Event> {
    [Nacked(Of(m))] + if Expires(m, limit) then [Departure(dead, Of(m))] else []
  }

  lemma LogOfNack(dead: Dead, m: Msg, limit: uint32)
    ensures var log := NackEvents(dead, m, limit);
      && AdmittedIn(log) == [] && UncountedIn(log) == 0
      && GoneIn(log) == (if Expires(m, limit) then [Of(m)] else [])
      && DeadGrew(dead, if Expires(m, limit) then Bury(dead, m) else dead, log)
      && forall id :: NacksIn(log, id) == if id == m.id then 1 else 0
  {
    hide AdmittedIn, GoneIn, BuriedIn, UncountedIn, NacksIn, DeadGrew, Bury, Expires;
    var e, rest := Nacked(Of(m)), if Expires(m, limit) then [Departure(dead, Of(m))] else [];
    LogOfOne(e);
    LogSplit([e], rest);
    DeadGrewNone(dead, [e]);
    if Expires(m, limit) {
      LogOfOne(rest[0]);
      DeadGrewOne(dead, m);
    } else {
      LogOfNone();
      NacksOfNone();
      DeadGrewNone(dead, rest);
    }
    DeadGrewJoin(dead, dead, if Expires(m, limit) then Bury(dead, m) else dead, [e], rest);
  }

  lemma NacksOfNone()
    ensures forall id :: NacksIn([], id) == 0
  {
  }

  /** How many of the messages have the id. */
  function Mentions(ms: seq<Msg>, id: Bytes): nat {
    if ms == [] then 0 else Mentions(ms[..|ms| - 1], id) + if ms[|ms| - 1].id == id then 1 else 0
  }

  /** The log is that of nacking the messages one after the other. */
  ghost predicate Logged(dead: Dead, ms: seq<Msg>, limit: uint32, log: seq<Event>) {
    && AdmittedIn(log) == [] && UncountedIn(log) == 0
    && GoneIn(log) == Payloads(Worn(ms, limit))
    && DeadGrew(dead, BuryAll(dead, Worn(ms, limit)), log)
    && forall id :: NacksIn(log, id) == Mentions(ms, id)
  }

  lemma {:induction false} LogOfNacks(dead: Dead, ms: seq<Msg>, limit: uint32)
    ensures Logged(dead, ms, limit, NackLog(dead, ms, limit))
  {
    if ms == [] {
      LogOfNone();
      NacksOfNone();
      DeadGrewNone(dead, []);
    } else {
      var before, m := ms[..|ms| - 1], ms[|ms| - 1];
      LogOfNacks(dead, before, limit);
      assert before + [m] == ms;
      hide Logged;
      NackLogSnoc(dead, before, m, limit);
      LoggedMore(dead, before, m, limit, NackLog(dead, before, limit));
    }
  }

  lemma NackLogSnoc(dead: Dead, before: seq<Msg>, m: Msg, limit: uint32)
    ensures NackLog(dead, before + [m], limit) ==
            NackLog(dead, before, limit) + NackEvents(BuryAll(dead, Worn(before, limit)), m, limit)
  {
    assert (before + [m])[..|before|] == before;
    hide BuryAll, Worn, Departure, Expires;
    var log, e := NackLog(dead, before, limit), [Nacked(Of(m))];
    var rest := if Expires(m, limit) then [Departure(BuryAll(dead, Worn(before, limit)), Of(m))] else [];
    assert log + e + rest == log + (e + rest);
  }

  lemma WornSnoc(dead: Dead, before: seq<Msg>, m: Msg, limit: uint32)
    ensures Worn(before + [m], limit) == Worn(before, limit) + if Expires(m, limit) then [m] else []
    ensures Payloads(Worn(before + [m], limit))
            == Payloads(Worn(before, limit)) + if Expires(m, limit) then [Of(m)] else []
    ensures var mid := BuryAll(dead, Worn(before, limit));
      BuryAll(dead, Worn(before + [m], limit)) == if Expires(m, limit) then Bury(mid, m) else mid
    ensures forall id :: Mentions(before + [m], id) == Mentions(before, id) + if m.id == id then 1 else 0
  {
    hide Bury, Expires;
    assert (before + [m])[..|before|] == before;
    var worn := Worn(before, limit);
    assert (worn + [m])[..|worn|] == worn && worn + [] == worn;
  }

  lemma LoggedMore(dead: Dead, before: seq<Msg>, m: Msg, limit: uint32, log: seq<Event>)
    requires Logged(dead, before, limit, log)
    ensures Logged(dead, before + [m], limit, log + NackEvents(BuryAll(dead, Worn(before, limit)), m, limit))
  {
    var mid := BuryAll(dead, Worn(before, limit));
    var more := NackEvents(mid, m, limit);
    hide AdmittedIn, GoneIn, BuriedIn, UncountedIn, NacksIn, DeadGrew, Bury, NackEvents, Payloads, Worn, Mentions,
         BuryAll;
    LogOfNack(mid, m, limit);
    LogSplit(log, more);
    WornSnoc(dead, before, m, limit);
    DeadGrewJoin(dead, mid, if Expires(m, limit) then Bury(mid, m) else mid, log, more);
  }

  lemma {:induction false} WornTo(live: seq<Msg>, marks: seq<bool>, limit: uint32, p: nat)
    requires |live| == |marks| && p <= |live|
    ensures Worn(Taken(live[..p], marks[..p]), limit) == Taken(live[..p], Expiring(live, marks, limit)[..p])
  {
    if p > 0 {
      var i := p - 1;
      var t := Taken(live[..i], marks[..i]);
      WornTo(live, marks, limit, i);
      PassedOne(live, marks, i);
      PassedOne(live, Expiring(live, marks, limit), i);
      hide Taken;
      assert (t + [live[i]])[..|t|] == t && t + [] == t;
    }
  }

  /** Of the messages that are nacked, those that expire. */
  lemma WornIsExpiring(live: seq<Msg>, marks: seq<bool>, limit: uint32)
    requires |live| == |marks|
    ensures Worn(Taken(live, marks), limit) == Taken(live, Expiring(live, marks, limit))
  {
    var n, ex := |live|, Expiring(live, marks, limit);
    WornTo(live, marks, limit, n);
    assert live[..n] == live && marks[..n] == marks && ex[..n] == ex;
  }

  // ----- one step

  /** A step that keeps every message's id and value in place and logs nothing that counts. */
  lemma SteadyInPlace(cfg: Config, t: Trace, t': Trace, more: seq<Event>)
    requires Steady(cfg, t) && Bounded(cfg, t')
    requires Payloads(t'.s.q.live) == Payloads(t.s.q.live) && t'.s.q.amount == t.s.q.amount
    requires t'.s.dead == t.s.dead && t'.log == t.log + more
    requires AdmittedIn(more) == [] && GoneIn(more) == [] && BuriedIn(more) == [] && UncountedIn(more) == 0
    ensures Advanced(cfg, t, t')
  {
    hide AdmittedIn, GoneIn, BuriedIn, UncountedIn, NacksIn, InOrder, DeadGrew;
    LogSplit(t.log, more);
    assert AdmittedIn(t.log) + [] == AdmittedIn(t.log) && GoneIn(t.log) + [] == GoneIn(t.log);
    DeadGrewNone(t.s.dead, more);
    assert t'.log[|t.log|..] == more;
    assert |Payloads(t'.s.q.live)| == |t'.s.q.live|;
  }

  lemma ConservedAdmit(before: seq<Payload>, live: seq<Payload>, gone: seq<Payload>, ps: seq<Payload>)
    requires multiset(before) == multiset(live) + multiset(gone)
    ensures multiset(before + ps) == multiset(live + ps) + multiset(gone)
  {
  }

  lemma SteadyAdmit(cfg: Config, t: Trace, t': Trace, more: seq<Event>, added: seq<Msg>)
    requires Steady(cfg, t)
    requires t'.s == t.s.(q := Queue(t.s.q.live + added, t.s.q.amount + |added|)) && t'.log == t.log + more
    requires forall i | 0 <= i < |added| :: added[i].fetched == 0
    requires |more| == |added| && forall i | 0 <= i < |added| :: more[i] == Admitted(Of(added[i]))
    ensures Advanced(cfg, t, t')
  {
    hide AdmittedIn, GoneIn, BuriedIn, UncountedIn, NacksIn, InOrder, DeadGrew, Payloads;
    var ps := Payloads(added);
    AdmissionLogged(t, t', more, added);
    BoundedAdmit(cfg, t, t', added);
    hide Bounded;
    InOrderAppend(Payloads(t.s.q.live), AdmittedIn(t.log), ps);
    ConservedAdmit(AdmittedIn(t.log), Payloads(t.s.q.live), GoneIn(t.log), ps);
  }

  lemma AdmissionLogged(t: Trace, t': Trace, more: seq<Event>, added: seq<Msg>)
    requires t'.s == t.s.(q := Queue(t.s.q.live + added, t.s.q.amount + |added|)) && t'.log == t.log + more
    requires |more| == |added| && forall i | 0 <= i < |added| :: more[i] == Admitted(Of(added[i]))
    ensures t'.log[|t.log|..] == more && DeadGrew(t.s.dead, t'.s.dead, more)
    ensures AdmittedIn(t'.log) == AdmittedIn(t.log) + Payloads(added) && GoneIn(t'.log) == GoneIn(t.log)
    ensures UncountedIn(t'.log) == UncountedIn(t.log)
    ensures Payloads(t'.s.q.live) == Payloads(t.s.q.live) + Payloads(added)
  {
    hide AdmittedIn, GoneIn, BuriedIn, UncountedIn, NacksIn, DeadGrew;
    LogOfAdmitted(more, Payloads(added));
    LogSplit(t.log, more);
    DeadGrewNone(t.s.dead, more);
    assert GoneIn(t.log) + [] == GoneIn(t.log);
  }

  lemma BoundedAdmit(cfg: Config, t: Trace, t': Trace, added: seq<Msg>)
    requires Bounded(cfg, t) && t'.s.q.live == t.s.q.live + added
    requires forall i | 0 <= i < |added| :: added[i].fetched == 0
    ensures Bounded(cfg, t')
  {
  }

  /** A step that takes the marked messages out of the queue, and may change owners, times and counts of the others. */
  lemma SteadyTake(cfg: Config, t: Trace, t': Trace, more: seq<Event>, marks: seq<bool>)
    requires Steady(cfg, t) && |marks| == |t.s.q.live|
    requires Payloads(t'.s.q.live) == Kept(Payloads(t.s.q.live), marks) && t'.log == t.log + more
    requires AdmittedIn(more) == [] && multiset(GoneIn(more)) == multiset(Taken(Payloads(t.s.q.live), marks))
    requires t'.s.q.amount == |t'.s.q.live| + UncountedIn(t.log) + UncountedIn(more)
    requires DeadGrew(t.s.dead, t'.s.dead, more) && Bounded(cfg, t')
    ensures Advanced(cfg, t, t')
  {
    hide AdmittedIn, GoneIn, BuriedIn, UncountedIn, NacksIn, InOrder, Kept, Taken, DeadGrew;
    LogSplit(t.log, more);
    KeptTakenMultiset(Payloads(t.s.q.live), marks);
    InOrderKept(Payloads(t.s.q.live), AdmittedIn(t.log), marks);
    assert AdmittedIn(t.log) + [] == AdmittedIn(t.log);
    assert t'.log[|t.log|..] == more;
  }

  lemma {:induction false} KeptAt<T>(xs: seq<T>, marks: seq<bool>, i: nat)
    requires |xs| == |marks| && i < |Kept(xs, marks)|
    ensures exists j :: 0 <= j < |xs| && !marks[j] && Kept(xs, marks)[i] == xs[j]
  {
    if !marks[0] && i == 0 {
      assert Kept(xs, marks)[0] == xs[0];
    } else {
      var i' := if marks[0] then i else i - 1;
      KeptAt(xs[1..], marks[1..], i');
      var j :| 0 <= j < |xs| - 1 && !marks[1..][j] && Kept(xs[1..], marks[1..])[i'] == xs[1..][j];
      assert !marks[j + 1] && Kept(xs, marks)[i] == xs[j + 1];
    }
  }

  lemma BoundedKept(cfg: Config, t: Trace, t': Trace, marks: seq<bool>)
    requires Bounded(cfg, t) && |marks| == |t.s.q.live| && t'.s.q.live == Kept(t.s.q.live, marks)
    ensures Bounded(cfg, t')
  {
    hide Kept;
    forall i | 0 <= i < |t'.s.q.live| ensures t'.s.q.live[i].fetched < Max(1, cfg.fetchLimit) {
      KeptAt(t.s.q.live, marks, i);
    }
  }

  lemma SteadyFetch(cfg: Config, t: Trace, amount: uint32, c: Bytes, now: int64)
    requires Steady(cfg, t)
    ensures Advanced(cfg, t, Step(cfg, t, DoFetch(amount, c, now)).value)
  {
    hide AdmittedIn, GoneIn, BuriedIn, UncountedIn, NacksIn, InOrder, Fetch, Conserved, Ordered, Counted;
    var t' := Step(cfg, t, DoFetch(amount, c, now)).value;
    FetchTakesFirstEligible(t.s.q.live, amount, c, now, cfg.ttl);
    assert Payloads(t'.s.q.live) == Payloads(t.s.q.live);
    assert t.log + [] == t.log;
    LogOfNone();
    SteadyInPlace(cfg, t, t', []);
  }

  lemma SteadyUnlockAll(cfg: Config, t: Trace, c: Bytes)
    requires Steady(cfg, t)
    ensures Advanced(cfg, t, Step(cfg, t, DoUnlockAll(c)).value)
  {
    hide AdmittedIn, GoneIn, BuriedIn, UncountedIn, NacksIn, InOrder, Conserved, Ordered, Counted;
    var t' := Step(cfg, t, DoUnlockAll(c)).value;
    assert Payloads(t'.s.q.live) == Payloads(t.s.q.live);
    assert t.log + [] == t.log;
    LogOfNone();
    SteadyInPlace(cfg, t, t', []);
  }

  lemma SteadySame(cfg: Config, t: Trace)
    requires Steady(cfg, t)
    ensures Advanced(cfg, t, t)
  {
    hide Steady;
    LogOfNone();
    DeadGrewNone(t.s.dead, []);
    assert t.log[|t.log|..] == [] && t.log + [] == t.log;
  }

  lemma SteadyEnqueue(cfg: Config, t: Trace, batch: seq<MessageBatch>)
    requires Steady(cfg, t)
    ensures Advanced(cfg, t, Step(cfg, t, DoBatchEnqueue(batch)).value)
  {
    hide AdmittedIn, GoneIn, BuriedIn, UncountedIn, NacksIn, InOrder, Steady, Advanced;
    var t' := Step(cfg, t, DoBatchEnqueue(batch)).value;
    if batch == [] || t.s.q.amount >= cfg.cap {
      assert t.log + [] == t.log;
      assert t' == t;
      SteadySame(cfg, t);
    } else {
      var more := Each(BatchPayloads(batch), p => Admitted(p));
      SteadyAdmit(cfg, t, t', more, FreshAll(batch));
    }
  }

  lemma SingleIsBatch(cfg: Config, t: Trace, id: Bytes, val: Bytes)
    ensures Step(cfg, t, DoEnqueue(id, val)) == Step(cfg, t, DoBatchEnqueue([MessageBatch(id, val)]))
  {
    var batch := [MessageBatch(id, val)];
    assert FreshAll(batch) == [Fresh(id, val)];
    assert Each(BatchPayloads(batch), p => Admitted(p)) == [Admitted(Payload(id, val))];
  }

  lemma SteadyAck(cfg: Config, t: Trace, c: Bytes, id: Bytes)
    requires Steady(cfg, t)
    ensures Advanced(cfg, t, AckOne(t, c, id))
  {
    hide AdmittedIn, GoneIn, BuriedIn, UncountedIn, NacksIn, InOrder, Kept, Taken, DeadGrew, Conserved, Ordered;
    var live, i := t.s.q.live, FirstHeld(t.s.q.live, c, id);
    var t' := AckOne(t, c, id);
    if i == |live| {
      assert t.log + [] == t.log;
      assert t' == t;
      SteadySame(cfg, t);
    } else {
      var more := [Acked(Of(live[i]), true)];
      LogOfOne(more[0]);
      RemoveAtIsKept(live, i);
      PayloadsSplit(live, OneMark(|live|, i));
      BoundedKept(cfg, t, t', OneMark(|live|, i));
      assert Payloads([live[i]]) == [Of(live[i])];
      DeadGrewNone(t.s.dead, more);
      SteadyTake(cfg, t, t', more, OneMark(|live|, i));
    }
  }

  lemma SteadyBatchAck(cfg: Config, t: Trace, c: Bytes, ids: seq<Bytes>)
    requires Steady(cfg, t) && |ids| != 1 && BatchAck(t.s.q, c, ids).reply == Done
    ensures Advanced(cfg, t, Step(cfg, t, DoBatchAck(c, ids)).value)
  {
    hide AdmittedIn, GoneIn, BuriedIn, UncountedIn, NacksIn, InOrder, Kept, Taken, FirstMarks, Count, DeadGrew,
         Conserved, Ordered;
    var live, marks := t.s.q.live, AckMarks(t.s.q.live, c, ids);
    var t' := Step(cfg, t, DoBatchAck(c, ids)).value;
    var ps := Payloads(Taken(live, marks));
    var more := Each(ps, p => Acked(p, false));
    LogOfAcked(more, ps);
    TakenCount(live, marks);
    PayloadsSplit(live, marks);
    BoundedKept(cfg, t, t', marks);
    DeadGrewNone(t.s.dead, more);
    SteadyTake(cfg, t, t', more, marks);
  }

  /** While the retries are not used up the nack count does not wrap. */
  lemma IncExact(n: uint32, limit: uint32)
    requires n < Max(1, limit)
    ensures Inc32(n) == n + 1
  {
  }

  lemma SteadyNack(cfg: Config, t: Trace, c: Bytes, id: Bytes)
    requires Steady(cfg, t) && Step(cfg, t, DoNack(c, id)).Some?
    ensures Advanced(cfg, t, Step(cfg, t, DoNack(c, id)).value)
  {
    hide AdmittedIn, GoneIn, BuriedIn, UncountedIn, NacksIn, InOrder, DeadGrew, Conserved, Ordered, Bury;
    var live, i := t.s.q.live, FirstId(t.s.q.live, id);
    var t' := Step(cfg, t, DoNack(c, id)).value;
    if i == |live| || live[i].owner != c {
      assert t.log + [] == t.log;
      SteadySame(cfg, t);
    } else {
      var m := live[i];
      NackLogged(cfg, t, c, id);
      if Expires(m, cfg.fetchLimit) {
        SteadyExpire(cfg, t, t', i);
      } else {
        LogOfOne(Nacked(Of(m)));
        IncExact(m.fetched, cfg.fetchLimit);
        assert Payloads(t'.s.q.live) == Payloads(live);
        assert [Nacked(Of(m))] + [] == [Nacked(Of(m))];
        SteadyInPlace(cfg, t, t', [Nacked(Of(m))]);
      }
    }
  }

  /** What a nack by the holder logs. */
  lemma NackLogged(cfg: Config, t: Trace, c: Bytes, id: Bytes)
    requires Step(cfg, t, DoNack(c, id)).Some?
    requires var i := FirstId(t.s.q.live, id); i < |t.s.q.live| && t.s.q.live[i].owner == c
    ensures Step(cfg, t, DoNack(c, id)).value.log ==
            t.log + NackEvents(t.s.dead, t.s.q.live[FirstId(t.s.q.live, id)], cfg.fetchLimit)
  {
    hide FirstId, RemoveAt, Bury, Returned;
    var m := t.s.q.live[FirstId(t.s.q.live, id)];
    var rest := if Expires(m, cfg.fetchLimit) then [Departure(t.s.dead, Of(m))] else [];
    assert t.log + [Nacked(Of(m))] + rest == t.log + ([Nacked(Of(m))] + rest);
  }

  lemma SteadyExpire(cfg: Config, t: Trace, t': Trace, i: nat)
    requires Steady(cfg, t) && i < |t.s.q.live| && Expires(t.s.q.live[i], cfg.fetchLimit)
    requires var m := t.s.q.live[i];
      && t'.s == State(Queue(RemoveAt(t.s.q.live, i), t.s.q.amount - 1), Bury(t.s.dead, m))
      && t'.log == t.log + NackEvents(t.s.dead, m, cfg.fetchLimit)
    ensures Advanced(cfg, t, t')
  {
    hide AdmittedIn, GoneIn, BuriedIn, UncountedIn, NacksIn, InOrder, Kept, Taken, DeadGrew, Conserved, Ordered, Bury;
    var live, m := t.s.q.live, t.s.q.live[i];
    var more := NackEvents(t.s.dead, m, cfg.fetchLimit);
    LogOfNack(t.s.dead, m, cfg.fetchLimit);
    RemoveAtIsKept(live, i);
    PayloadsSplit(live, OneMark(|live|, i));
    BoundedKept(cfg, t, t', OneMark(|live|, i));
    assert Payloads([m]) == [Of(m)];
    hide NackEvents;
    SteadyTake(cfg, t, t', more, OneMark(|live|, i));
  }

  /** The messages that a batch nack leaves, in terms of those that were there. */
  lemma BatchNackLeaves(s: State, limit: uint32, ids: seq<Bytes>)
    requires NackMany(s, limit, ids).1 == Done
    requires OneRun(Expiring(s.q.live, NackMarks(s.q.live, ids), limit))
    ensures var marks := NackMarks(s.q.live, ids);
      var ex := Expiring(s.q.live, marks, limit);
      var s' := NackMany(s, limit, ids).0;
      && s'.q.live == Kept(After(s.q.live, marks, ex), ex)
      && s'.q.amount == s.q.amount - Count(ex)
      && s'.dead == BuryAll(s.dead, Taken(s.q.live, ex))
  {
    var marks := NackMarks(s.q.live, ids);
    var ex := Expiring(s.q.live, marks, limit);
    OneRunReaches(After(s.q.live, marks, ex), ex);
    hide Reachable, Kept, OneRun, After, Expiring, NackMarks, Count, Taken;
  }

  /** Resetting and returning messages changes no payload that is kept. */
  lemma {:induction false} PayloadsKeptAfter(live: seq<Msg>, after: seq<Msg>, ex: seq<bool>)
    requires |live| == |after| == |ex|
    requires forall i | 0 <= i < |live| && !ex[i] :: Of(after[i]) == Of(live[i])
    ensures Payloads(Kept(after, ex)) == Kept(Payloads(live), ex)
  {
    if live != [] {
      PayloadsKeptAfter(live[1..], after[1..], ex[1..]);
      var rest := Kept(after[1..], ex[1..]);
      assert Payloads(live)[1..] == Payloads(live[1..]);
      assert Payloads([after[0]] + rest) == [Of(after[0])] + Payloads(rest);
      assert [] + rest == rest;
    }
  }

  lemma BoundedNacked(cfg: Config, t: Trace, t': Trace, marks: seq<bool>)
    requires Bounded(cfg, t) && |marks| == |t.s.q.live|
    requires var ex := Expiring(t.s.q.live, marks, cfg.fetchLimit);
      t'.s.q.live == Kept(After(t.s.q.live, marks, ex), ex)
    ensures Bounded(cfg, t')
  {
    var ex := Expiring(t.s.q.live, marks, cfg.fetchLimit);
    hide Kept;
    forall i | 0 <= i < |t'.s.q.live| ensures t'.s.q.live[i].fetched < Max(1, cfg.fetchLimit) {
      KeptAt(After(t.s.q.live, marks, ex), ex, i);
    }
  }

  lemma SteadyBatchNack(cfg: Config, t: Trace, c: Bytes, ids: seq<Bytes>)
    requires Steady(cfg, t) && Step(cfg, t, DoBatchNack(c, ids)).Some?
    ensures Advanced(cfg, t, Step(cfg, t, DoBatchNack(c, ids)).value)
  {
    hide NackMarks, OneRun, NackMany, BuryAll, Count, NackLog, Kept, Taken, After, Expiring, Steady, Advanced;
    var marks := NackMarks(t.s.q.live, ids);
    if NackMany(t.s, cfg.fetchLimit, ids).1 == Refused {
      SteadySame(cfg, t);
    } else {
      BatchNackLeaves(t.s, cfg.fetchLimit, ids);
      SteadyNacked(cfg, t, Step(cfg, t, DoBatchNack(c, ids)).value, marks);
    }
  }

  lemma SteadyNacked(cfg: Config, t: Trace, t': Trace, marks: seq<bool>)
    requires Steady(cfg, t) && |marks| == |t.s.q.live|
    requires t'.log == t.log + NackLog(t.s.dead, Taken(t.s.q.live, marks), cfg.fetchLimit)
    requires var ex := Expiring(t.s.q.live, marks, cfg.fetchLimit);
      && t'.s.q.live == Kept(After(t.s.q.live, marks, ex), ex)
      && t'.s.q.amount == t.s.q.amount - Count(ex)
      && t'.s.dead == BuryAll(t.s.dead, Taken(t.s.q.live, ex))
    ensures Advanced(cfg, t, t')
  {
    hide AdmittedIn, GoneIn, BuriedIn, UncountedIn, NacksIn, InOrder, Kept, Taken, DeadGrew, Conserved, Ordered;
    hide BuryAll, Count, NackLog, Worn, Mentions, Payloads;
    var live, ex := t.s.q.live, Expiring(t.s.q.live, marks, cfg.fetchLimit);
    var after := After(live, marks, ex);
    LogOfNacks(t.s.dead, Taken(live, marks), cfg.fetchLimit);
    WornIsExpiring(live, marks, cfg.fetchLimit);
    PayloadsSplit(live, ex);
    PayloadsKeptAfter(live, after, ex);
    TakenCount(after, ex);
    BoundedNacked(cfg, t, t', marks);
    hide Expiring, After, Bounded;
    SteadyTake(cfg, t, t', NackLog(t.s.dead, Taken(live, marks), cfg.fetchLimit), ex);
  }

  lemma SteadyStep(cfg: Config, t: Trace, op: Op)
    requires Steady(cfg, t) && Step(cfg, t, op).Some?
    ensures Advanced(cfg, t, Step(cfg, t, op).value)
  {
    hide Steady, Advanced;
    match op
    case DoEnqueue(id, val) =>
      SingleIsBatch(cfg, t, id, val);
      SteadyEnqueue(cfg, t, [MessageBatch(id, val)]);
    case DoBatchEnqueue(batch) => SteadyEnqueue(cfg, t, batch);
    case DoFetch(amount, c, now) => SteadyFetch(cfg, t, amount, c, now);
    case DoNack(c, id) => SteadyNack(cfg, t, c, id);
    case DoAck(c, id) => SteadyAck(cfg, t, c, id);
    case DoUnlockAll(c) => SteadyUnlockAll(cfg, t, c);
    case DoBatchAck(c, ids) =>
      if |ids| == 1 {
        SteadyAck(cfg, t, c, ids[0]);
      } else if BatchAck(t.s.q, c, ids).reply == Done {
        SteadyBatchAck(cfg, t, c, ids);
      } else {
        SteadySame(cfg, t);
      }
    case DoBatchNack(c, ids) => SteadyBatchNack(cfg, t, c, ids);
  }

  lemma SoundStep(cfg: Config, dead: Dead, t: Trace, op: Op)
    requires Sound(cfg, dead, t) && Step(cfg, t, op).Some?
    ensures Sound(cfg, dead, Step(cfg, t, op).value)
  {
    hide Steady, DeadGrew, Step;
    var t' := Step(cfg, t, op).value;
    SteadyStep(cfg, t, op);
    DeadGrewJoin(dead, t.s.dead, t'.s.dead, t.log, t'.log[|t.log|..]);
  }

  lemma {:induction false} SoundFrom(cfg: Config, dead: Dead, t: Trace, ops: seq<Op>)
    requires Sound(cfg, dead, t) && Run(cfg, t, ops).Some?
    ensures Sound(cfg, dead, Run(cfg, t, ops).value)
    decreases |ops|
  {
    hide Sound, Step;
    if ops != [] {
      SoundStep(cfg, dead, t, ops[0]);
      SoundFrom(cfg, dead, Step(cfg, t, ops[0]).value, ops[1..]);
    }
  }

  lemma StartSound(cfg: Config, dead: Dead)
    ensures Sound(cfg, dead, Start(dead))
  {
    var none: seq<bool> := [];
    assert Payloads([]) == Taken([], none);
    LogOfNone();
    DeadGrewNone(dead, []);
  }

  /** Over every run from an empty queue: nothing is lost or duplicated, the live messages keep
      the order of admission, Amount never under-reports, the dead-letter queue holds what was
      moved to it, and no live message has used up its retries. */
  lemma EveryRunSound(cfg: Config, dead: Dead, ops: seq<Op>)
    requires Run(cfg, Start(dead), ops).Some?
    ensures Sound(cfg, dead, Run(cfg, Start(dead), ops).value)
  {
    hide Sound;
    StartSound(cfg, dead);
    SoundFrom(cfg, dead, Start(dead), ops);
  }

  // ----- capacity that batch acks use up

  /** After every run Amount is exact if and only if no batch ack of several ids has succeeded, and an
      insert is admitted if and only if there is room beside the messages that such acks took out. */
  lemma RoomLeft(cfg: Config, dead: Dead, ops: seq<Op>, id: Bytes, val: Bytes)
    requires Run(cfg, Start(dead), ops).Some?
    ensures var t := Run(cfg, Start(dead), ops).value;
      && (t.s.q.amount == |t.s.q.live| <==> UncountedIn(t.log) == 0)
      && (Enqueue(t.s.q, cfg.cap, id, val) != t.s.q <==> |t.s.q.live| + UncountedIn(t.log) < cfg.cap)
  {
    EveryRunSound(cfg, dead, ops);
    hide Run, UncountedIn;
  }

  /** That room is lost for good, and once it is as large as the capacity nothing is admitted any more. */
  lemma {:induction false} LostForGood(cfg: Config, dead: Dead, t: Trace, ops: seq<Op>)
    requires Sound(cfg, dead, t) && Run(cfg, t, ops).Some?
    ensures UncountedIn(Run(cfg, t, ops).value.log) >= UncountedIn(t.log)
    ensures UncountedIn(t.log) >= cfg.cap ==> AdmittedIn(Run(cfg, t, ops).value.log) == AdmittedIn(t.log)
    decreases |ops|
  {
    if ops != [] {
      var t' := Step(cfg, t, ops[0]).value;
      SoundStep(cfg, dead, t, ops[0]);
      LostInStep(cfg, dead, t, ops[0]);
      hide Sound, Step, UncountedIn, AdmittedIn;
      LostForGood(cfg, dead, t', ops[1..]);
    }
  }

  lemma LostInStep(cfg: Config, dead: Dead, t: Trace, op: Op)
    requires Sound(cfg, dead, t) && Step(cfg, t, op).Some?
    ensures UncountedIn(Step(cfg, t, op).value.log) >= UncountedIn(t.log)
    ensures UncountedIn(t.log) >= cfg.cap ==> AdmittedIn(Step(cfg, t, op).value.log) == AdmittedIn(t.log)
  {
    hide UncountedIn, AdmittedIn, GoneIn, BuriedIn, NacksIn;
    LogGrows(cfg, t, op);
    var t' := Step(cfg, t, op).value;
    var more := t'.log[|t.log|..];
    LogSplit(t.log, more);
    if op.DoEnqueue? || op.DoBatchEnqueue? {
      if t.s.q.amount >= cfg.cap {
        assert t'.log == t.log;
      }
    } else {
      AdmitsNothing(cfg, t, op);
    }
  }

  lemma AdmitsNothing(cfg: Config, t: Trace, op: Op)
    requires Step(cfg, t, op).Some? && !op.DoEnqueue? && !op.DoBatchEnqueue?
    ensures AdmittedIn(Step(cfg, t, op).value.log) == AdmittedIn(t.log)
  {
    hide Fetch, Kept, Taken, NackMany, NackLog;
    var log := t.log;
    match op
    case DoNack(c, id) =>
      var i := FirstId(t.s.q.live, id);
      if i < |t.s.q.live| && t.s.q.live[i].owner == c {
        NackLogged(cfg, t, c, id);
        LogOfNack(t.s.dead, t.s.q.live[i], cfg.fetchLimit);
        AdmittedSplit(log, NackEvents(t.s.dead, t.s.q.live[i], cfg.fetchLimit));
      }
    case DoAck(c, id) => AckAdmitsNothing(t, c, id);
    case DoBatchAck(c, ids) =>
      if |ids| == 1 {
        AckAdmitsNothing(t, c, ids[0]);
      } else if BatchAck(t.s.q, c, ids).reply == Done {
        var ps := Payloads(Taken(t.s.q.live, AckMarks(t.s.q.live, c, ids)));
        LogOfAcked(Each(ps, p => Acked(p, false)), ps);
        AdmittedSplit(log, Each(ps, p => Acked(p, false)));
      }
    case DoBatchNack(c, ids) =>
      var ms := Taken(t.s.q.live, NackMarks(t.s.q.live, ids));
      LogOfNacks(t.s.dead, ms, cfg.fetchLimit);
      AdmittedSplit(log, NackLog(t.s.dead, ms, cfg.fetchLimit));
    case _ =>
  }

  lemma AckAdmitsNothing(t: Trace, c: Bytes, id: Bytes)
    ensures AdmittedIn(AckOne(t, c, id).log) == AdmittedIn(t.log)
  {
    var i := FirstHeld(t.s.q.live, c, id);
    if i < |t.s.q.live| {
      LogOfOne(Acked(Of(t.s.q.live[i]), true));
      AdmittedSplit(t.log, [Acked(Of(t.s.q.live[i]), true)]);
    } else {
      assert t.log + [] == t.log;
    }
  }

  /** Two messages fill a queue of capacity two; acked together they leave it empty and closed. */
  lemma EmptyAndClosed(a: Msg, b: Msg, id: Bytes, val: Bytes)
    requires a.id != b.id && a.owner == b.owner
    ensures var r := BatchAck(Queue([a, b], 2), a.owner, [a.id, b.id]);
      && r == BatchAcked(Done, [], -1)
      && Enqueue(Queue(r.live, 2), 2, id, val) == Queue([], 2)
  {
    var live, ids, both := [a, b], [a.id, b.id], [true, true];
    assert HeldHits(live, a.owner, ids) == both;
    assert live[1..] == [b] && [b][1..] == [] && both[1..] == [true] && [true][1..] == [];
    assert FirstMarks([true], 1) == [true];
    assert FirstMarks(both, 2) == both;
    assert Kept([b], [true]) == [] && Taken([b], [true]) == [b];
    assert Kept(live, both) == [] && Taken(live, both) == [a, b];
  }

  // ----- retries are nacks

  /** No two admitted messages share an id. */
  ghost predicate DistinctAdmissions(ps: seq<Payload>) {
    forall i, j | 0 <= i < j < |ps| :: ps[i].id != ps[j].id
  }

  ghost predicate Known(ps: seq<Payload>, id: Bytes) {
    exists i :: 0 <= i < |ps| && ps[i].id == id
  }

  /** A live message's retry count is the number of times it has been nacked. */
  ghost predicate Retried(t: Trace) {
    && (forall i | 0 <= i < |t.s.q.live| :: t.s.q.live[i].fetched == NacksIn(t.log, t.s.q.live[i].id))
    && (forall id :: NacksIn(t.log, id) > 0 ==> Known(AdmittedIn(t.log), id))
  }

  lemma {:induction false} TakenDistinct(ps: seq<Payload>, marks: seq<bool>)
    requires |ps| == |marks| && DistinctAdmissions(ps)
    ensures DistinctAdmissions(Taken(ps, marks))
    ensures forall p | p in Taken(ps, marks) :: Known(ps, p.id)
  {
    if ps != [] {
      TakenDistinct(ps[1..], marks[1..]);
      var rest := Taken(ps[1..], marks[1..]);
      forall p | p in rest ensures Known(ps, p.id) && p.id != ps[0].id {
        var i :| 0 <= i < |ps| - 1 && ps[1..][i].id == p.id;
        assert ps[i + 1].id == p.id;
      }
      assert Known(ps, ps[0].id);
      assert Taken(ps, marks) == (if marks[0] then [ps[0]] else []) + rest;
    }
  }

  lemma LiveUnique(t: Trace)
    requires Ordered(t) && DistinctAdmissions(AdmittedIn(t.log))
    ensures UniqueIds(t.s.q.live)
    ensures forall i | 0 <= i < |t.s.q.live| :: Known(AdmittedIn(t.log), t.s.q.live[i].id)
  {
    var ps, all := Payloads(t.s.q.live), AdmittedIn(t.log);
    var marks: seq<bool> :| |marks| == |all| && ps == Taken(all, marks);
    TakenDistinct(all, marks);
    hide Taken, AdmittedIn;
    assert forall i | 0 <= i < |t.s.q.live| :: ps[i] in ps && ps[i].id == t.s.q.live[i].id;
  }

  lemma KnownGrows(ps: seq<Payload>, more: seq<Payload>)
    ensures forall id | Known(ps, id) :: Known(ps + more, id)
  {
    forall id | Known(ps, id) ensures Known(ps + more, id) {
      var i :| 0 <= i < |ps| && ps[i].id == id;
      assert (ps + more)[i].id == id;
    }
  }

  /** What a step does to the messages and their nack counts. */
  ghost predicate NacksFit(t: Trace, t': Trace, more: seq<Event>) {
    && t'.log == t.log + more
    && forall i | 0 <= i < |t'.s.q.live| ::
         var m := t'.s.q.live[i];
         || (m.fetched == 0 && NacksIn(more, m.id) == 0 && !Known(AdmittedIn(t.log), m.id))
         || exists j :: 0 <= j < |t.s.q.live| && t.s.q.live[j].id == m.id &&
                        m.fetched == t.s.q.live[j].fetched + NacksIn(more, m.id)
  }

  lemma RetriedByFit(t: Trace, t': Trace, more: seq<Event>)
    requires Retried(t) && NacksFit(t, t', more)
    requires forall id :: NacksIn(more, id) > 0 ==> Known(AdmittedIn(t.log), id)
    ensures Retried(t')
  {
    hide AdmittedIn, NacksIn;
    LogSplit(t.log, more);
    KnownGrows(AdmittedIn(t.log), AdmittedIn(more));
  }

  lemma RetriedAdmit(cfg: Config, t: Trace, batch: seq<MessageBatch>)
    requires Retried(t)
    requires var t' := Step(cfg, t, DoBatchEnqueue(batch)).value; DistinctAdmissions(AdmittedIn(t'.log))
    ensures Retried(Step(cfg, t, DoBatchEnqueue(batch)).value)
  {
    hide AdmittedIn, NacksIn;
    var t' := Step(cfg, t, DoBatchEnqueue(batch)).value;
    if batch == [] || t.s.q.amount >= cfg.cap {
      assert t.log + [] == t.log;
      assert t' == t;
    } else {
      var more := Each(BatchPayloads(batch), p => Admitted(p));
      var ps := BatchPayloads(batch);
      LogOfAdmitted(more, ps);
      LogSplit(t.log, more);
      NewUnknown(AdmittedIn(t.log), ps);
      NacksFitAdmit(t, t', more, FreshAll(batch));
      RetriedByFit(t, t', more);
    }
  }

  lemma NewUnknown(ps: seq<Payload>, more: seq<Payload>)
    requires DistinctAdmissions(ps + more)
    ensures forall i | 0 <= i < |more| :: !Known(ps, more[i].id)
  {
    forall i | 0 <= i < |more| ensures !Known(ps, more[i].id) {
      assert (ps + more)[|ps| + i] == more[i];
      forall j | 0 <= j < |ps| ensures ps[j].id != more[i].id {
        assert (ps + more)[j] == ps[j];
      }
    }
  }

  lemma NacksFitAdmit(t: Trace, t': Trace, more: seq<Event>, added: seq<Msg>)
    requires t'.log == t.log + more && forall id :: NacksIn(more, id) == 0
    requires t'.s.q.live == t.s.q.live + added
    requires forall i | 0 <= i < |added| :: added[i].fetched == 0 && !Known(AdmittedIn(t.log), added[i].id)
    ensures NacksFit(t, t', more)
  {
    hide AdmittedIn, NacksIn, Known;
    var n := |t.s.q.live|;
    forall i | 0 <= i < |t'.s.q.live|
      ensures var m := t'.s.q.live[i];
        || (m.fetched == 0 && NacksIn(more, m.id) == 0 && !Known(AdmittedIn(t.log), m.id))
        || exists j ::
             0 <= j < n && t.s.q.live[j].id == m.id && m.fetched == t.s.q.live[j].fetched + NacksIn(more, m.id)
    {
      if i < n {
        assert t'.s.q.live[i] == t.s.q.live[i];
      } else {
        assert t'.s.q.live[i] == added[i - n];
      }
    }
  }

  /** The message was live before, nacked as often. */
  ghost predicate Was(live: seq<Msg>, m: Msg) {
    exists j :: 0 <= j < |live| && live[j].id == m.id && m.fetched == live[j].fetched
  }

  /** A step that logs no nack and only leaves out or re-leases messages. */
  lemma RetriedQuiet(t: Trace, t': Trace, more: seq<Event>)
    requires Retried(t) && t'.log == t.log + more && forall id :: NacksIn(more, id) == 0
    requires forall i | 0 <= i < |t'.s.q.live| :: Was(t.s.q.live, t'.s.q.live[i])
    ensures Retried(t')
  {
    hide AdmittedIn, NacksIn;
    RetriedByFit(t, t', more);
  }

  lemma RetriedNack(cfg: Config, t: Trace, c: Bytes, id: Bytes)
    requires Retried(t) && Bounded(cfg, t) && UniqueIds(t.s.q.live)
    requires forall i | 0 <= i < |t.s.q.live| :: Known(AdmittedIn(t.log), t.s.q.live[i].id)
    requires Step(cfg, t, DoNack(c, id)).Some?
    ensures Retried(Step(cfg, t, DoNack(c, id)).value)
  {
    hide AdmittedIn, NacksIn, Known, Bury;
    var t' := Step(cfg, t, DoNack(c, id)).value;
    var live, i := t.s.q.live, FirstId(t.s.q.live, id);
    if i < |live| && live[i].owner == c {
      var m := live[i];
      var more := NackEvents(t.s.dead, m, cfg.fetchLimit);
      IncExact(m.fetched, cfg.fetchLimit);
      NackLogged(cfg, t, c, id);
      LogOfNack(t.s.dead, m, cfg.fetchLimit);
      hide NackEvents, Retried;
      NacksFitNack(t, t', more, i);
      RetriedByFit(t, t', more);
    } else {
      assert t'.log == t.log;
    }
  }

  lemma NacksFitNack(t: Trace, t': Trace, more: seq<Event>, i: nat)
    requires i < |t.s.q.live| && UniqueIds(t.s.q.live) && t'.log == t.log + more
    requires forall id :: NacksIn(more, id) == if id == t.s.q.live[i].id then 1 else 0
    requires Inc32(t.s.q.live[i].fetched) == t.s.q.live[i].fetched + 1
    requires t'.s.q.live == RemoveAt(t.s.q.live, i) || t'.s.q.live == t.s.q.live[i := Returned(t.s.q.live[i])]
    ensures NacksFit(t, t', more)
  {
    hide AdmittedIn, NacksIn, Known;
    var live, live' := t.s.q.live, t'.s.q.live;
    forall k | 0 <= k < |live'|
      ensures exists j ::
                && 0 <= j < |live| && live[j].id == live'[k].id
                && live'[k].fetched == live[j].fetched + NacksIn(more, live'[k].id)
    {
      var j := if |live'| == |live| || k < i then k else k + 1;
      assert live[j].id == live'[k].id;
    }
  }

  /** With unique ids a batch nack counts once for each message that it selects. */
  lemma {:induction false} MentionsTaken(live: seq<Msg>, marks: seq<bool>, p: nat, id: Bytes)
    requires |live| == |marks| && p <= |live| && UniqueIds(live)
    ensures Mentions(Taken(live[..p], marks[..p]), id) ==
            if exists i :: 0 <= i < p && marks[i] && live[i].id == id then 1 else 0
  {
    if p > 0 {
      var i := p - 1;
      var t := Taken(live[..i], marks[..i]);
      MentionsTaken(live, marks, i, id);
      PassedOne(live, marks, i);
      hide Taken;
      assert (t + [live[i]])[..|t|] == t && t + [] == t;
    }
  }

  lemma MentionsSelected(live: seq<Msg>, marks: seq<bool>)
    requires |live| == |marks| && UniqueIds(live)
    ensures forall i | 0 <= i < |live| :: Mentions(Taken(live, marks), live[i].id) == if marks[i] then 1 else 0
    ensures forall id | Mentions(Taken(live, marks), id) > 0 :: exists i :: 0 <= i < |live| && live[i].id == id
  {
    var n := |live|;
    assert live[..n] == live && marks[..n] == marks;
    forall i | 0 <= i < n ensures Mentions(Taken(live, marks), live[i].id) == if marks[i] then 1 else 0 {
      MentionsTaken(live, marks, n, live[i].id);
    }
    forall id | Mentions(Taken(live, marks), id) > 0 ensures exists i :: 0 <= i < |live| && live[i].id == id {
      MentionsTaken(live, marks, n, id);
    }
  }

  lemma RetriedBatchNack(cfg: Config, t: Trace, c: Bytes, ids: seq<Bytes>)
    requires Retried(t) && Bounded(cfg, t) && UniqueIds(t.s.q.live)
    requires forall i | 0 <= i < |t.s.q.live| :: Known(AdmittedIn(t.log), t.s.q.live[i].id)
    requires Step(cfg, t, DoBatchNack(c, ids)).Some?
    ensures Retried(Step(cfg, t, DoBatchNack(c, ids)).value)
  {
    hide Retried, NackMany, OneRun, Known, AdmittedIn, UniqueIds, Bounded, NackMarks, NackLog, Taken, Kept, After,
         Expiring;
    var marks := NackMarks(t.s.q.live, ids);
    var t' := Step(cfg, t, DoBatchNack(c, ids)).value;
    if NackMany(t.s, cfg.fetchLimit, ids).1 == Done {
      BatchNackLeaves(t.s, cfg.fetchLimit, ids);
      RetriedSelected(cfg, t, t', marks);
    }
  }

  lemma RetriedSelected(cfg: Config, t: Trace, t': Trace, marks: seq<bool>)
    requires Retried(t) && Bounded(cfg, t) && UniqueIds(t.s.q.live) && |marks| == |t.s.q.live|
    requires forall i | 0 <= i < |t.s.q.live| :: Known(AdmittedIn(t.log), t.s.q.live[i].id)
    requires t'.log == t.log + NackLog(t.s.dead, Taken(t.s.q.live, marks), cfg.fetchLimit)
    requires var ex := Expiring(t.s.q.live, marks, cfg.fetchLimit);
      t'.s.q.live == Kept(After(t.s.q.live, marks, ex), ex)
    ensures Retried(t')
  {
    hide AdmittedIn, NacksIn, Known, Kept, Taken, NackLog, Retried, UniqueIds, Bounded, NacksFit, Expiring, After;
    NacksOfBatch(cfg, t, marks);
    var more := NackLog(t.s.dead, Taken(t.s.q.live, marks), cfg.fetchLimit);
    NacksFitBatch(cfg, t, t', more, marks);
    RetriedByFit(t, t', more);
  }

  lemma NacksOfBatch(cfg: Config, t: Trace, marks: seq<bool>)
    requires UniqueIds(t.s.q.live) && |marks| == |t.s.q.live|
    requires forall i | 0 <= i < |t.s.q.live| :: Known(AdmittedIn(t.log), t.s.q.live[i].id)
    ensures var more := NackLog(t.s.dead, Taken(t.s.q.live, marks), cfg.fetchLimit);
      && (forall i | 0 <= i < |t.s.q.live| :: NacksIn(more, t.s.q.live[i].id) == if marks[i] then 1 else 0)
      && (forall id :: NacksIn(more, id) > 0 ==> Known(AdmittedIn(t.log), id))
  {
    var live := t.s.q.live;
    hide AdmittedIn, NacksIn, Known, Taken, NackLog, Mentions, UniqueIds;
    LogOfNacks(t.s.dead, Taken(live, marks), cfg.fetchLimit);
    MentionsSelected(live, marks);
  }

  lemma NacksFitBatch(cfg: Config, t: Trace, t': Trace, more: seq<Event>, marks: seq<bool>)
    requires |marks| == |t.s.q.live| && Bounded(cfg, t) && t'.log == t.log + more
    requires var ex := Expiring(t.s.q.live, marks, cfg.fetchLimit);
      t'.s.q.live == Kept(After(t.s.q.live, marks, ex), ex)
    requires forall i | 0 <= i < |t.s.q.live| :: NacksIn(more, t.s.q.live[i].id) == if marks[i] then 1 else 0
    ensures NacksFit(t, t', more)
  {
    hide AdmittedIn, NacksIn, Known, Kept;
    var live, live' := t.s.q.live, t'.s.q.live;
    var ex := Expiring(live, marks, cfg.fetchLimit);
    forall k | 0 <= k < |live'|
      ensures exists j ::
                && 0 <= j < |live| && live[j].id == live'[k].id
                && live'[k].fetched == live[j].fetched + NacksIn(more, live'[k].id)
    {
      KeptAt(After(live, marks, ex), ex, k);
      var j :| 0 <= j < |live| && !ex[j] && live'[k] == After(live, marks, ex)[j];
      IncExact(live[j].fetched, cfg.fetchLimit);
      assert live[j].id == live'[k].id;
    }
  }

  lemma RetriedAck(t: Trace, c: Bytes, id: Bytes)
    requires Retried(t)
    ensures Retried(AckOne(t, c, id))
  {
    hide AdmittedIn, NacksIn;
    var t' := AckOne(t, c, id);
    var live, i := t.s.q.live, FirstHeld(t.s.q.live, c, id);
    if i == |live| {
      assert t.log + [] == t.log;
    } else {
      LogOfOne(Acked(Of(live[i]), true));
      RetriedQuiet(t, t', [Acked(Of(live[i]), true)]);
    }
  }

  lemma RetriedBatchAck(cfg: Config, t: Trace, c: Bytes, ids: seq<Bytes>)
    requires Retried(t) && |ids| != 1 && BatchAck(t.s.q, c, ids).reply == Done
    ensures Retried(Step(cfg, t, DoBatchAck(c, ids)).value)
  {
    hide AdmittedIn, NacksIn, Kept, Taken;
    var live, marks := t.s.q.live, AckMarks(t.s.q.live, c, ids);
    var t' := Step(cfg, t, DoBatchAck(c, ids)).value;
    var ps := Payloads(Taken(live, marks));
    var more := Each(ps, p => Acked(p, false));
    LogOfAcked(more, ps);
    forall i | 0 <= i < |t'.s.q.live|
      ensures Was(live, t'.s.q.live[i])
    {
      KeptAt(live, marks, i);
    }
    RetriedQuiet(t, t', more);
  }

  lemma RetriedFetch(cfg: Config, t: Trace, amount: uint32, c: Bytes, now: int64)
    requires Retried(t)
    ensures Retried(Step(cfg, t, DoFetch(amount, c, now)).value)
  {
    hide AdmittedIn, NacksIn, Fetch;
    FetchReleases(t.s.q.live, amount, c, now, cfg.ttl);
    NacksOfNone();
    assert t.log + [] == t.log;
    var t' := Step(cfg, t, DoFetch(amount, c, now)).value;
    forall i | 0 <= i < |t'.s.q.live| ensures Was(t.s.q.live, t'.s.q.live[i]) {
      assert t.s.q.live[i].id == t'.s.q.live[i].id && t'.s.q.live[i].fetched == t.s.q.live[i].fetched;
    }
    RetriedQuiet(t, t', []);
  }

  lemma RetriedUnlockAll(cfg: Config, t: Trace, c: Bytes)
    requires Retried(t)
    ensures Retried(Step(cfg, t, DoUnlockAll(c)).value)
  {
    hide AdmittedIn, NacksIn;
    NacksOfNone();
    assert t.log + [] == t.log;
    var t' := Step(cfg, t, DoUnlockAll(c)).value;
    forall i | 0 <= i < |t'.s.q.live| ensures Was(t.s.q.live, t'.s.q.live[i]) {
      assert t.s.q.live[i].id == t'.s.q.live[i].id && t'.s.q.live[i].fetched == t.s.q.live[i].fetched;
    }
    RetriedQuiet(t, t', []);
  }

  /** Admissions are only ever added. */
  lemma AdmissionsGrow(cfg: Config, t: Trace, op: Op)
    requires Step(cfg, t, op).Some? && DistinctAdmissions(AdmittedIn(Step(cfg, t, op).value.log))
    ensures DistinctAdmissions(AdmittedIn(t.log))
  {
    var t' := Step(cfg, t, op).value;
    hide AdmittedIn;
    LogGrows(cfg, t, op);
    AdmittedSplit(t.log, t'.log[|t.log|..]);
    var ps, all := AdmittedIn(t.log), AdmittedIn(t'.log);
    assert forall i | 0 <= i < |ps| :: all[i] == ps[i];
  }

  lemma LogGrows(cfg: Config, t: Trace, op: Op)
    requires Step(cfg, t, op).Some?
    ensures var log := Step(cfg, t, op).value.log; |t.log| <= |log| && log == t.log + log[|t.log|..]
  {
  }

  lemma RetriedStep(cfg: Config, dead: Dead, t: Trace, op: Op)
    requires Sound(cfg, dead, t) && Retried(t) && Step(cfg, t, op).Some?
    requires DistinctAdmissions(AdmittedIn(Step(cfg, t, op).value.log))
    ensures Retried(Step(cfg, t, op).value)
  {
    var t' := Step(cfg, t, op).value;
    AdmissionsGrow(cfg, t, op);
    LiveUnique(t);
    hide AdmittedIn, NacksIn, Conserved, Ordered, Counted, DeadLettered, Retried, Fetch, DistinctAdmissions, Known,
         UniqueIds;
    match op
    case DoEnqueue(id, val) =>
      SingleIsBatch(cfg, t, id, val);
      RetriedAdmit(cfg, t, [MessageBatch(id, val)]);
    case DoBatchEnqueue(batch) => RetriedAdmit(cfg, t, batch);
    case DoFetch(amount, c, now) => RetriedFetch(cfg, t, amount, c, now);
    case DoNack(c, id) => RetriedNack(cfg, t, c, id);
    case DoAck(c, id) => RetriedAck(t, c, id);
    case DoUnlockAll(c) => RetriedUnlockAll(cfg, t, c);
    case DoBatchAck(c, ids) =>
      if |ids| == 1 {
        RetriedAck(t, c, ids[0]);
      } else if BatchAck(t.s.q, c, ids).reply == Done {
        RetriedBatchAck(cfg, t, c, ids);
      }
    case DoBatchNack(c, ids) => RetriedBatchNack(cfg, t, c, ids);
  }

  lemma {:induction false} AdmissionsGrowFrom(cfg: Config, t: Trace, ops: seq<Op>)
    requires Run(cfg, t, ops).Some? && DistinctAdmissions(AdmittedIn(Run(cfg, t, ops).value.log))
    ensures DistinctAdmissions(AdmittedIn(t.log))
    decreases |ops|
  {
    if ops != [] {
      AdmissionsGrowFrom(cfg, Step(cfg, t, ops[0]).value, ops[1..]);
      AdmissionsGrow(cfg, t, ops[0]);
    }
  }

  lemma {:induction false} RetriedFrom(cfg: Config, dead: Dead, t: Trace, ops: seq<Op>)
    requires Sound(cfg, dead, t) && Retried(t) && Run(cfg, t, ops).Some?
    requires DistinctAdmissions(AdmittedIn(Run(cfg, t, ops).value.log))
    ensures Retried(Run(cfg, t, ops).value)
    decreases |ops|
  {
    if ops != [] {
      var t' := Step(cfg, t, ops[0]).value;
      AdmissionsGrowFrom(cfg, t', ops[1..]);
      SoundStep(cfg, dead, t, ops[0]);
      RetriedStep(cfg, dead, t, ops[0]);
      RetriedFrom(cfg, dead, t', ops[1..]);
    }
  }

  /** Over every run that admits no id twice, each live message has been nacked as often as
      it says, and fewer than max(1, fetchLimit) times. */
  lemma RetryBound(cfg: Config, dead: Dead, ops: seq<Op>)
    requires Run(cfg, Start(dead), ops).Some?
    requires DistinctAdmissions(AdmittedIn(Run(cfg, Start(dead), ops).value.log))
    ensures var t := Run(cfg, Start(dead), ops).value;
      forall i | 0 <= i < |t.s.q.live| ::
        && t.s.q.live[i].fetched == NacksIn(t.log, t.s.q.live[i].id)
        && NacksIn(t.log, t.s.q.live[i].id) < Max(1, cfg.fetchLimit)
  {
    EveryRunSound(cfg, dead, ops);
    StartSound(cfg, dead);
    RetriedFrom(cfg, dead, Start(dead), ops);
  }

  /** The nack that reaches the limit removes the message and moves it to the dead-letter
      queue exactly when that has room. */
  lemma LastNackBuries(cfg: Config, t: Trace, i: nat)
    requires UniqueIds(t.s.q.live) && i < |t.s.q.live| && t.s.dead.Dlq?
    requires t.s.q.live[i].fetched + 1 == Max(1, cfg.fetchLimit)
    ensures var m := t.s.q.live[i];
      var t' := Step(cfg, t, DoNack(m.owner, m.id));
      && t'.Some?
      && t'.value.s.q.live == RemoveAt(t.s.q.live, i)
      && (Buried(Of(m)) in t'.value.log[|t.log|..] <==> t.s.dead.queue.amount < t.s.dead.cap)
      && t'.value.s.dead.queue.live ==
           t.s.dead.queue.live + if t.s.dead.queue.amount < t.s.dead.cap then [Fresh(m.id, m.val)] else []
  {
    var m := t.s.q.live[i];
    assert FirstId(t.s.q.live, m.id) == i;
    IncExact(m.fetched, cfg.fetchLimit);
    var more := [Nacked(Of(m))] + [Departure(t.s.dead, Of(m))];
    var t' := Step(cfg, t, DoNack(m.owner, m.id)).value;
    assert t'.log == t.log + more;
    assert t'.log[|t.log|..] == more;
    assert Departure(t.s.dead, Of(m)) == more[1] && more[0] != Buried(Of(m));
  }

  // ----- the size bound

  ghost predicate BatchesWithin(ops: seq<Op>, b: nat) {
    forall i | 0 <= i < |ops| && ops[i].DoBatchEnqueue? :: |ops[i].batch| <= b
  }

  /** Over every run whose batches hold at most b messages, Amount stays below the capacity plus b
      and never under-reports the number of live messages. */
  lemma {:induction false} SizeBound(cfg: Config, t: Trace, ops: seq<Op>, b: nat)
    requires b >= 1 && BatchesWithin(ops, b) && Run(cfg, t, ops).Some?
    requires |t.s.q.live| <= t.s.q.amount < cfg.cap + b
    ensures var q := Run(cfg, t, ops).value.s.q; |q.live| <= q.amount < cfg.cap + b
    decreases |ops|
  {
    if ops != [] {
      var t' := Step(cfg, t, ops[0]).value;
      SizeStep(cfg, t, ops[0], b);
      assert forall i | 0 <= i < |ops| - 1 :: ops[1..][i] == ops[i + 1];
      SizeBound(cfg, t', ops[1..], b);
    }
  }

  lemma SizeStep(cfg: Config, t: Trace, op: Op, b: nat)
    requires b >= 1 && (op.DoBatchEnqueue? ==> |op.batch| <= b) && Step(cfg, t, op).Some?
    requires |t.s.q.live| <= t.s.q.amount < cfg.cap + b
    ensures var q := Step(cfg, t, op).value.s.q; |q.live| <= q.amount < cfg.cap + b
  {
    match op
    case DoFetch(amount, c, now) => FetchReleases(t.s.q.live, amount, c, now, cfg.ttl);
    case DoBatchAck(c, ids) =>
      if |ids| != 1 {
        TakenCount(t.s.q.live, AckMarks(t.s.q.live, c, ids));
      }
    case DoBatchNack(c, ids) =>
      if NackMany(t.s, cfg.fetchLimit, ids).1 == Done {
        var marks := NackMarks(t.s.q.live, ids);
        var ex := Expiring(t.s.q.live, marks, cfg.fetchLimit);
        BatchNackLeaves(t.s, cfg.fetchLimit, ids);
        TakenCount(After(t.s.q.live, marks, ex), ex);
      }
    case _ =>
  }
}
