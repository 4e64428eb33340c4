/** Retries in numbers: which nack removes a message, what a batch nack does to each message that it
    lists, and that over every run messages are given up with their last nack and not before. */
module RetryLaws {
  import opened Types
  import opened Marks
  import opened QueueModel
  import opened BatchNack
  import opened QueueLaws
  import opened BatchLaws
  import opened QueueRuns
  import opened QueueHistory

  // ----- one nack

  /** What a dead-letter queue becomes when a message is moved there: it gets the message anew if it has room. */
  predicate HandedOver(dead: Dead, dead': Dead, m: Msg) {
    match dead
    case Dlq(cap, q) =>
      dead' == Dlq(cap, if q.amount < cap then Queue(q.live + [Msg(m.id, m.val, [], 0, 0)], q.amount + 1) else q)
    case _ => dead' == dead
  }

  /** A nack goes to the first message under the id; with none it is refused, and by anyone but the holder
      it is refused. The holder's nack frees the message and counts, in place,
      if the new count stays below the limit; or else takes it out and hands it to the dead-letter queue;
      or crashes, in a queue made without one. */
  lemma NackMeaning(s: State, limit: uint32, c: Bytes, id: Bytes)
    ensures (forall i | 0 <= i < |s.q.live| :: s.q.live[i].id != id) ==> Nack(s, limit, c, id) == (s, Refused)
    ensures forall i | 0 <= i < |s.q.live| && s.q.live[i].id == id && (forall j | 0 <= j < i :: s.q.live[j].id != id) ::
      var m, r := s.q.live[i], Nack(s, limit, c, id);
      if m.owner != c then r == (s, Refused)
      else if NextCount(m) < limit then
        r == (s.(q := s.q.(live := s.q.live[i := m.(owner := [], fetched := NextCount(m))])), Done)
      else if s.dead.NilInterface? then r.1 == Panicked
      else
        && r.1 == Done && HandedOver(s.dead, r.0.dead, m)
        && r.0.q == Queue(s.q.live[..i] + s.q.live[i + 1..], s.q.amount - 1)
  {
  }

  // ----- a batch nack, message by message

  /** Which messages can still be reached from the head when those marked have used up their retries. With
      the first message kept: the first, and those behind the last one given up. With the first given up:
      those behind the leading run given up, until the next one given up. */
  ghost predicate Survives(worn: seq<bool>, i: nat)
    requires i < |worn|
  {
    if !worn[0] then i == 0 || forall j | i <= j < |worn| :: !worn[j]
    else !worn[i] && forall j, k | 0 <= j < k <= i && worn[k] :: worn[j]
  }

  /** What a message that a batch nack over ids leaves alone or frees has become. */
  function Freed(m: Msg, ids: seq<Bytes>): Msg {
    if m.id in ids then m.(owner := [], fetched := NextCount(m)) else m
  }

  /** What a dead-letter queue becomes when messages are moved there one by one: it gets as many as it has room for. */
  predicate HandedOverAll(dead: Dead, dead': Dead, ms: seq<Msg>) {
    match dead
    case Dlq(cap, q) =>
      var n := if q.amount >= cap then 0 else if q.amount + |ms| <= cap then |ms| else cap - q.amount;
      dead' == Dlq(cap, Queue(q.live + Anew(Payloads(ms[..n])), q.amount + n))
    case _ => dead' == dead
  }

  lemma {:induction false} BuryAllFits(dead: Dead, ms: seq<Msg>)
    ensures HandedOverAll(dead, BuryAll(dead, ms), ms)
  {
    if ms == [] {
      if dead.Dlq? {
        assert dead.queue.live + Anew(Payloads(ms[..0])) == dead.queue.live;
      }
    } else {
      var before, m := ms[..|ms| - 1], ms[|ms| - 1];
      BuryAllFits(dead, before);
      if dead.Dlq? {
        var q := dead.queue;
        var n := if q.amount >= dead.cap then 0 else if q.amount + |ms| <= dead.cap then |ms| else dead.cap - q.amount;
        if n == |ms| {
          assert ms[..n] == ms && before[..n - 1] == before;
          assert Anew(Payloads(ms)) == Anew(Payloads(before)) + [Fresh(m.id, m.val)];
          var f := Fresh(m.id, m.val);
          assert q.live + (Anew(Payloads(before)) + [f]) == (q.live + Anew(Payloads(before))) + [f];
        } else {
          assert ms[..n] == before[..n];
        }
      }
    }
  }

  /** A successful batch nack: exactly the messages that survive are still there, in order, the listed ones
      free with their counts up by one and the others untouched. Amount goes down by the number of messages
      given up, and the dead-letter queue is handed those one by one, lost or not. */
  lemma BatchNackEach(s: State, limit: uint32, ids: seq<Bytes>)
    requires UniqueIds(s.q.live) && NackMany(s, limit, ids).1 == Done
    requires forall i | 0 <= i < |s.q.live| :: s.q.live[i].id != []
    ensures var live, worn, s' := s.q.live, WornMarks(s.q.live, limit, ids), NackMany(s, limit, ids).0;
      && (forall i | 0 <= i < |live| :: Freed(live[i], ids) in s'.q.live <==> Survives(worn, i))
      && (forall m | m in s'.q.live && m.id != [] :: exists i :: 0 <= i < |live| && m == Freed(live[i], ids))
      && s'.q.amount == s.q.amount - Count(worn)
      && HandedOverAll(s.dead, s'.dead, Taken(live, worn))
    ensures var live, live' := s.q.live, NackMany(s, limit, ids).0.q.live;
      forall a, b, i, j | 0 <= a < b < |live'| && 0 <= i < |live| && 0 <= j < |live| ::
        live'[a] == Freed(live[i], ids) && live'[b] == Freed(live[j], ids) ==> i < j
  {
    BuryAllFits(s.dead, Taken(s.q.live, WornMarks(s.q.live, limit, ids)));
    hide HandedOverAll;
    hide NackMany, Reachable, NackMarks, Expiring, WornMarks, After, BuryAll, Taken, Count, IdHits, Survives, UniqueIds;
    var live, worn := s.q.live, WornMarks(s.q.live, limit, ids);
    var after := After(live, IdHits(live, ids), worn);
    NackManyInNumbers(s, limit, ids);
    forall i | 0 <= i < |live| ensures Freed(live[i], ids) in Reachable(after, worn) <==> Survives(worn, i) {
      SurvivesIff(live, after, worn, ids, i);
    }
    ReachedInOrder(live, after, worn, ids);
    forall m | m in Reachable(after, worn) && m.id != []
      ensures exists i :: 0 <= i < |live| && m == Freed(live[i], ids)
    {
      var k :| 0 <= k < |Reachable(after, worn)| && Reachable(after, worn)[k] == m;
      ReachableIn(after, worn, k);
      var j :| 0 <= j < |after| && m == after[j];
    }
  }

  lemma NackManyInNumbers(s: State, limit: uint32, ids: seq<Bytes>)
    requires UniqueIds(s.q.live) && NackMany(s, limit, ids).1 == Done
    ensures var live, worn, s' := s.q.live, WornMarks(s.q.live, limit, ids), NackMany(s, limit, ids).0;
      var after := After(live, IdHits(live, ids), worn);
      && s' == State(Queue(Reachable(after, worn), s.q.amount - Count(worn)), BuryAll(s.dead, Taken(live, worn)))
      && forall i | 0 <= i < |live| :: after[i] == if worn[i] then BLANK else Freed(live[i], ids)
  {
    hide NackMarks, Expiring, Reachable, BuryAll, Taken, Count;
    NackMarksAreHits(s.q.live, ids);
    WornAreExpiring(s.q.live, limit, ids);
  }

  /** Where a walk finds the element at position i. */
  lemma {:induction false} ReachesIff<T(!new)>(xs: seq<T>, ex: seq<bool>, i: nat)
    requires |xs| == |ex| && i < |xs| && forall j, k | 0 <= j < k < |xs| && !ex[j] :: xs[j] != xs[k]
    requires !ex[i] && forall j | 0 <= j < |xs| && ex[j] :: xs[j] != xs[i]
    ensures xs[i] in Reachable(xs, ex) <==> Survives(ex, i)
  {
    var r := Reachable(xs, ex);
    if !ex[0] {
      var e := PastMarks(ex);
      if e > 0 {
        assert r == [xs[0]] + xs[e..];
        if i >= e {
          assert r[i - e + 1] == xs[i];
        }
      }
    } else {
      var g := Leading(ex);
      var p := NextMark(ex, g);
      if g <= i <= p {
        assert r[i - g] == xs[i];
      }
    }
  }

  lemma ReachedInOrder(live: seq<Msg>, after: seq<Msg>, worn: seq<bool>, ids: seq<Bytes>)
    requires |live| == |after| == |worn| && UniqueIds(live)
    requires forall j | 0 <= j < |live| :: live[j].id != []
    requires forall j | 0 <= j < |live| :: after[j] == if worn[j] then BLANK else Freed(live[j], ids)
    ensures var r := Reachable(after, worn);
      forall a, b, i, j | 0 <= a < b < |r| && 0 <= i < |live| && 0 <= j < |live| ::
        r[a] == Freed(live[i], ids) && r[b] == Freed(live[j], ids) ==> i < j
  {
    var r := Reachable(after, worn);
    hide Reachable;
    forall a, b, i, j | 0 <= a < b < |r| && 0 <= i < |live| && 0 <= j < |live|
      ensures r[a] == Freed(live[i], ids) && r[b] == Freed(live[j], ids) ==> i < j
    {
      var x := ReachedFrom(after, worn, a, b);
    }
  }

  /** A walk from the head goes forward. */
  lemma ReachedFrom<T>(xs: seq<T>, ex: seq<bool>, a: nat, b: nat) returns (at: (nat, nat))
    requires |xs| == |ex| && a < b < |Reachable(xs, ex)|
    ensures at.0 < at.1 < |xs| && Reachable(xs, ex)[a] == xs[at.0] && Reachable(xs, ex)[b] == xs[at.1]
  {
    hide Leading, NextMark, PastMarks;
    if ex[0] {
      at := (Leading(ex) + a, Leading(ex) + b);
    } else if PastMarks(ex) == 0 {
      at := (a, b);
    } else {
      at := BehindFirst(xs, PastMarks(ex), a, b);
    }
  }

  lemma BehindFirst<T>(xs: seq<T>, e: nat, a: nat, b: nat) returns (at: (nat, nat))
    requires 0 < e <= |xs| && a < b < 1 + |xs| - e
    ensures at.0 < at.1 < |xs| && ([xs[0]] + xs[e..])[a] == xs[at.0] && ([xs[0]] + xs[e..])[b] == xs[at.1]
  {
    at := (if a == 0 then 0 else e + a - 1, e + b - 1);
  }

  lemma SurvivesIff(live: seq<Msg>, after: seq<Msg>, worn: seq<bool>, ids: seq<Bytes>, i: nat)
    requires |live| == |after| == |worn| && i < |live| && UniqueIds(live)
    requires forall j | 0 <= j < |live| :: live[j].id != []
    requires forall j | 0 <= j < |live| :: after[j] == if worn[j] then BLANK else Freed(live[j], ids)
    ensures Freed(live[i], ids) in Reachable(after, worn) <==> Survives(worn, i)
  {
    hide Reachable;
    if worn[i] {
      forall k | 0 <= k < |Reachable(after, worn)| ensures Reachable(after, worn)[k] != Freed(live[i], ids) {
        ReachableIn(after, worn, k);
        var j :| 0 <= j < |after| && Reachable(after, worn)[k] == after[j];
      }
    } else {
      assert forall j | 0 <= j < |live| && !worn[j] :: after[j].id == live[j].id && after[j] != BLANK;
      hide Survives;
      ReachesIff(after, worn, i);
    }
  }

  // ----- over runs

  predicate Departs(e: Event) {
    e.Buried? || e.Overflowed? || e.Discarded?
  }

  /** A message leaves by a nack right after the nack that makes the count last, and at that nack always. */
  ghost predicate OnTime(log: seq<Event>, last: int) {
    forall k {:trigger log[k]} | 0 <= k < |log| ::
      && (Departs(log[k]) ==> k > 0 && log[k - 1] == Nacked(log[k].p) && NacksIn(log[..k], log[k].p.id) == last)
      && (log[k].Nacked? && NacksIn(log[..k + 1], log[k].p.id) >= last ==>
            k + 1 < |log| && Departs(log[k + 1]) && log[k + 1].p == log[k].p)
  }

  /** Appending changes nothing at earlier positions. */
  lemma OnTimeMore(log: seq<Event>, more: seq<Event>, last: int)
    requires OnTime(log, last)
    requires forall k {:trigger more[k]} | 0 <= k < |more| ::
      && (Departs(more[k]) ==>
            && k > 0 && more[k - 1] == Nacked(more[k].p)
            && NacksIn(log + more[..k], more[k].p.id) == last)
      && (more[k].Nacked? && NacksIn(log + more[..k + 1], more[k].p.id) >= last ==>
            k + 1 < |more| && Departs(more[k + 1]) && more[k + 1].p == more[k].p)
    ensures OnTime(log + more, last)
  {
    hide NacksIn;
    var all, n := log + more, |log|;
    forall k {:trigger all[k]} | 0 <= k < |all|
      ensures Departs(all[k]) ==>
                k > 0 && all[k - 1] == Nacked(all[k].p) && NacksIn(all[..k], all[k].p.id) == last
      ensures all[k].Nacked? && NacksIn(all[..k + 1], all[k].p.id) >= last ==>
                k + 1 < |all| && Departs(all[k + 1]) && all[k + 1].p == all[k].p
    {
      if k < n {
        assert all[k] == log[k] && all[..k] == log[..k] && all[..k + 1] == log[..k + 1];
      } else {
        assert all[k] == more[k - n] && all[..k] == log + more[..k - n] && all[..k + 1] == log + more[..k - n + 1];
      }
    }
  }

  lemma OnTimeQuiet(log: seq<Event>, more: seq<Event>, last: int)
    requires OnTime(log, last) && forall k | 0 <= k < |more| :: !Departs(more[k]) && !more[k].Nacked?
    ensures OnTime(log + more, last)
  {
    hide NacksIn, OnTime;
    OnTimeMore(log, more, last);
  }

  lemma OnTimeNack(log: seq<Event>, dead: Dead, m: Msg, limit: uint32)
    requires OnTime(log, Max(1, limit)) && NacksIn(log, m.id) == m.fetched < Max(1, limit)
    ensures OnTime(log + NackEvents(dead, m, limit), Max(1, limit))
  {
    hide NacksIn, OnTime, NackEvents, Expires, Departs;
    var more := NackEvents(dead, m, limit);
    NackEventsAre(dead, m, limit);
    LogOfOne(Nacked(Of(m)));
    NacksSplit(log, [Nacked(Of(m))]);
    assert more[..1] == [Nacked(Of(m))];
    OnTimeMore(log, more, Max(1, limit));
  }

  lemma NackEventsAre(dead: Dead, m: Msg, limit: uint32)
    requires m.fetched < Max(1, limit)
    ensures var more := NackEvents(dead, m, limit);
      && more != [] && more[0] == Nacked(Of(m)) && !Departs(more[0])
      && if m.fetched + 1 < Max(1, limit) then more == [more[0]]
         else |more| == 2 && Departs(more[1]) && !more[1].Nacked? && more[1].p == Of(m)
  {
    IncExact(m.fetched, limit);
  }

  lemma {:induction false} OnTimeNacks(log: seq<Event>, dead: Dead, ms: seq<Msg>, limit: uint32)
    requires OnTime(log, Max(1, limit)) && UniqueIds(ms)
    requires forall i | 0 <= i < |ms| :: NacksIn(log, ms[i].id) == ms[i].fetched < Max(1, limit)
    ensures OnTime(log + NackLog(dead, ms, limit), Max(1, limit))
  {
    if ms == [] {
      assert log + NackLog(dead, ms, limit) == log;
    } else {
      hide NacksIn, OnTime, NackLog;
      var before, m := ms[..|ms| - 1], ms[|ms| - 1];
      OnTimeNacks(log, dead, before, limit);
      assert before + [m] == ms;
      OnTimeOneMore(log, dead, before, m, limit);
    }
  }

  lemma OnTimeOneMore(log: seq<Event>, dead: Dead, before: seq<Msg>, m: Msg, limit: uint32)
    requires OnTime(log + NackLog(dead, before, limit), Max(1, limit))
    requires NacksIn(log, m.id) == m.fetched < Max(1, limit) && forall i | 0 <= i < |before| :: before[i].id != m.id
    ensures OnTime(log + NackLog(dead, before + [m], limit), Max(1, limit))
  {
    hide NacksIn, OnTime, NackLog, NackEvents, Worn, BuryAll, AdmittedIn, UncountedIn, GoneIn, DeadGrew, Mentions;
    var sofar, mid := NackLog(dead, before, limit), BuryAll(dead, Worn(before, limit));
    LogOfNacks(dead, before, limit);
    Unmentioned(before, m.id);
    NacksSplit(log, sofar);
    NackLogSnoc(dead, before, m, limit);
    OnTimeNack(log + sofar, mid, m, limit);
    assert log + sofar + NackEvents(mid, m, limit) == log + (sofar + NackEvents(mid, m, limit));
  }

  lemma {:induction false} Unmentioned(ms: seq<Msg>, id: Bytes)
    requires forall i | 0 <= i < |ms| :: ms[i].id != id
    ensures Mentions(ms, id) == 0
  {
    if ms != [] {
      Unmentioned(ms[..|ms| - 1], id);
    }
  }

  lemma {:induction false} TakenUnique(live: seq<Msg>, marks: seq<bool>)
    requires |live| == |marks| && UniqueIds(live)
    ensures UniqueIds(Taken(live, marks)) && forall m | m in Taken(live, marks) :: m in live
  {
    if live != [] {
      var rest := Taken(live[1..], marks[1..]);
      TakenUnique(live[1..], marks[1..]);
      forall m | m in rest ensures m in live && m.id != live[0].id {
        var i :| 0 <= i < |live| - 1 && live[1..][i] == m;
        assert live[i + 1] == m;
      }
    }
  }

  lemma OnTimeBatch(cfg: Config, t: Trace, c: Bytes, ids: seq<Bytes>)
    requires OnTime(t.log, Max(1, cfg.fetchLimit)) && Retried(t) && Bounded(cfg, t) && UniqueIds(t.s.q.live)
    requires Step(cfg, t, DoBatchNack(c, ids)).Some?
    ensures OnTime(Step(cfg, t, DoBatchNack(c, ids)).value.log, Max(1, cfg.fetchLimit))
  {
    hide NackMany, OneRun, NackMarks, NackLog, OnTime, Taken, Expiring, NacksIn, UniqueIds, AdmittedIn;
    var marks := NackMarks(t.s.q.live, ids);
    if NackMany(t.s, cfg.fetchLimit, ids).1 == Done {
      TakenUnique(t.s.q.live, marks);
      forall m | m in Taken(t.s.q.live, marks) ensures NacksIn(t.log, m.id) == m.fetched < Max(1, cfg.fetchLimit) {
        var i :| 0 <= i < |t.s.q.live| && t.s.q.live[i] == m;
      }
      OnTimeNacks(t.log, t.s.dead, Taken(t.s.q.live, marks), cfg.fetchLimit);
    }
  }

  lemma OnTimeSingle(cfg: Config, t: Trace, c: Bytes, id: Bytes)
    requires OnTime(t.log, Max(1, cfg.fetchLimit)) && Retried(t) && Bounded(cfg, t)
    requires Step(cfg, t, DoNack(c, id)).Some?
    ensures OnTime(Step(cfg, t, DoNack(c, id)).value.log, Max(1, cfg.fetchLimit))
  {
    hide NacksIn, OnTime, AdmittedIn, NackEvents, Bury;
    var live, i := t.s.q.live, FirstId(t.s.q.live, id);
    if i < |live| && live[i].owner == c {
      NackLogged(cfg, t, c, id);
      OnTimeNack(t.log, t.s.dead, live[i], cfg.fetchLimit);
    }
  }

  /** The other operations log neither nacks nor departures by nack. */
  lemma QuietStep(cfg: Config, t: Trace, op: Op)
    requires Step(cfg, t, op).Some? && !op.DoNack? && !op.DoBatchNack?
    ensures var log := Step(cfg, t, op).value.log;
      && |t.log| <= |log| && log == t.log + log[|t.log|..]
      && forall k | |t.log| <= k < |log| :: !Departs(log[k]) && !log[k].Nacked?
  {
  }

  lemma OnTimeStep(cfg: Config, dead: Dead, t: Trace, op: Op)
    requires Sound(cfg, dead, t) && Retried(t) && OnTime(t.log, Max(1, cfg.fetchLimit)) && UniqueIds(t.s.q.live)
    requires Step(cfg, t, op).Some?
    ensures OnTime(Step(cfg, t, op).value.log, Max(1, cfg.fetchLimit))
  {
    hide Step, OnTime, Retried, Conserved, Ordered, Counted, DeadLettered, UniqueIds, Bounded;
    match op
    case DoNack(c, id) => OnTimeSingle(cfg, t, c, id);
    case DoBatchNack(c, ids) => OnTimeBatch(cfg, t, c, ids);
    case _ =>
      QuietStep(cfg, t, op);
      OnTimeQuiet(t.log, Step(cfg, t, op).value.log[|t.log|..], Max(1, cfg.fetchLimit));
  }

  lemma {:induction false} OnTimeFrom(cfg: Config, dead: Dead, t: Trace, ops: seq<Op>)
    requires Sound(cfg, dead, t) && Retried(t) && OnTime(t.log, Max(1, cfg.fetchLimit)) && Run(cfg, t, ops).Some?
    requires DistinctAdmissions(AdmittedIn(Run(cfg, t, ops).value.log))
    ensures OnTime(Run(cfg, t, ops).value.log, Max(1, cfg.fetchLimit))
    decreases |ops|
  {
    hide OnTime, Step, Retried, Conserved, Counted, DeadLettered, Bounded, AdmittedIn, DistinctAdmissions;
    if ops != [] {
      var t' := Step(cfg, t, ops[0]).value;
      AdmissionsGrowFrom(cfg, t', ops[1..]);
      AdmissionsGrowFrom(cfg, t, ops);
      LiveUnique(t);
      SoundStep(cfg, dead, t, ops[0]);
      RetriedStep(cfg, dead, t, ops[0]);
      OnTimeStep(cfg, dead, t, ops[0]);
      OnTimeFrom(cfg, dead, t', ops[1..]);
    }
  }

  /** Over every run that admits no id twice: a message is moved to the dead-letter queue, or dropped for
      want of room or of such a queue, right with its max(1, fetchLimit)-th nack, and with no other. */
  lemma GivenUpOnTime(cfg: Config, dead: Dead, ops: seq<Op>)
    requires Run(cfg, Start(dead), ops).Some?
    requires DistinctAdmissions(AdmittedIn(Run(cfg, Start(dead), ops).value.log))
    ensures OnTime(Run(cfg, Start(dead), ops).value.log, Max(1, cfg.fetchLimit))
  {
    StartSound(cfg, dead);
    OnTimeFrom(cfg, dead, Start(dead), ops);
  }
}
