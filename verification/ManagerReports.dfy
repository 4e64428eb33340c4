/** What the queue manager reports of each operation, and hands out, in terms of the messages in the named queue. */
module ManagerReports {
  import opened Types
  import opened Marks
  import opened QueueModel
  import opened BatchNack
  import opened QueueLaws
  import opened BatchLaws
  import opened BrokerModel

  /** Deleting takes the name away and nothing else. */
  lemma DeleteReport(qm: Manager, name: string)
    ensures var (qm', status) := ManagerDelete(qm, name);
      && status == (if name in qm.queues then Ok else Err(QueueMissing))
      && (forall n :: n in qm'.queues <==> n in qm.queues && n != name)
      && (forall n | n in qm'.queues :: qm'.queues[n] == qm.queues[n])
      && qm'.objects == qm.objects && qm'.next == qm.next && qm'.nodeTTL == qm.nodeTTL
  {
  }

  /** The marks pick what a fetch may take: the first amount of the messages that c holds, that nobody
      holds, or whose lease has run out. */
  ghost predicate FetchMarks(live: seq<Msg>, amount: nat, c: Bytes, now: int64, ttl: int64, marks: seq<bool>) {
    exists hits: seq<bool> ::
      && |hits| == |live| && FirstOf(hits, marks, amount)
      && forall i | 0 <= i < |live| ::
           hits[i] <==> live[i].owner == c || live[i].owner == [] || Sub64(now, live[i].time) > ttl
  }

  /** A fetch from a queue that exists hands out the ids and data of the messages that it takes, in order,
      and leases those, and those alone, to the fetcher. */
  lemma GetReport(qm: Manager, name: string, amount: uint32, c: Bytes, now: int64) returns (marks: seq<bool>)
    requires WellFormed(qm)
    ensures var (qm', status, got) := ManagerGet(qm, name, amount, c, now);
      if name !in qm.queues then qm' == qm && status == Err(QueueMissing) && got == []
      else
        var h := qm.queues[name];
        var live := qm.objects[h].q.live;
        && status == Ok && FetchMarks(live, amount, c, now, qm.objects[h].cfg.ttl, marks)
        && |got| == |Taken(live, marks)|
        && (forall k | 0 <= k < |got| ::
              got[k].id == Taken(live, marks)[k].id && got[k].data == Taken(live, marks)[k].val)
        && qm'.queues == qm.queues && qm'.objects.Keys == qm.objects.Keys
        && (forall k | k in qm.objects && k != h :: qm'.objects[k] == qm.objects[k])
        && qm'.objects[h] == qm.objects[h].(q := Queue(qm'.objects[h].q.live, qm.objects[h].q.amount))
        && |qm'.objects[h].q.live| == |live|
        && forall i | 0 <= i < |live| ::
             qm'.objects[h].q.live[i] == if marks[i] then live[i].(owner := c, time := now) else live[i]
  {
    if name !in qm.queues {
      marks := [];
    } else {
      var o := qm.objects[qm.queues[name]];
      var hits := EligibleHits(o.q.live, c, now, o.cfg.ttl);
      marks := FirstMarks(hits, amount);
      FirstMarksAreFirst(hits, amount);
      FetchTakesFirstEligible(o.q.live, amount, c, now, o.cfg.ttl);
      hide Fetch, FirstMarks, Taken, Count;
      assert FetchMarks(o.q.live, amount, c, now, o.cfg.ttl, marks);
    }
  }

  /** An ack is accepted exactly if the consumer holds a message under the id. */
  lemma AckReport(qm: Manager, name: string, c: Bytes, id: Bytes)
    requires WellFormed(qm)
    ensures ManagerAck(qm, name, c, id).1 ==
            if name !in qm.queues then Err(QueueMissing)
            else if HeldBy(qm.objects[qm.queues[name]].q.live, c, id) then Ok else Err(NotHeld)
  {
    hide WithPair;
  }

  /** A nack goes to the first message under the id: accepted exactly if the consumer holds that one, and
      then a crash if it uses up the retries in a queue made without a dead-letter queue. */
  lemma NackReport(qm: Manager, name: string, c: Bytes, id: Bytes)
    requires WellFormed(qm)
    ensures var status := ManagerNack(qm, name, c, id).1;
      if name !in qm.queues then status == Err(QueueMissing)
      else
        var o := qm.objects[qm.queues[name]];
        && ((forall i | 0 <= i < |o.q.live| :: o.q.live[i].id != id) ==> status == Err(FailedEmpty))
        && forall i | 0 <= i < |o.q.live| && o.q.live[i].id == id && (forall j | 0 <= j < i :: o.q.live[j].id != id) ::
             status == if o.q.live[i].owner != c then Err(FailedEmpty)
                       else if NextCount(o.q.live[i]) >= o.cfg.fetchLimit && o.dead == DeadRef.NilInterface then Panic
                       else Ok
  {
    hide WithPair;
  }

  /** What a batch ack reports when the first messages under listed ids that c holds, as many as ids are
      listed, are marked. */
  function AckStatus(q: Queue, ids: seq<Bytes>, marks: seq<bool>): Status
    requires |marks| == |q.live|
  {
    var n, k := |q.live|, Count(marks);
    if n == 0 || q.amount < |ids| || k == 0 then Err(NotHeld)
    else if k == |ids| then Ok
    else if k == n || k > 2 || (k == 2 && !marks[n - 1]) then Panic
    else if k == n - 1 then Damaged
    else Err(NotHeld)
  }

  lemma AckStatusIs(q: Queue, c: Bytes, ids: seq<Bytes>)
    requires |ids| != 1
    ensures var r := BatchAck(q, c, ids);
      AckStatus(q, ids, AckMarks(q.live, c, ids)) ==
      if r.reply == Panicked then Panic
      else if r.tail != |r.live| - 1 then Damaged
      else if r.reply == Done then Ok else Err(NotHeld)
  {
    hide Count, Kept, Taken, FirstMarks;
    TakenCount(q.live, AckMarks(q.live, c, ids));
    FirstMarksCount(HeldHits(q.live, c, ids), |ids|);
  }

  lemma BatchAckReport(qm: Manager, name: string, c: Bytes, ids: seq<Bytes>) returns (marks: seq<bool>)
    requires WellFormed(qm)
    ensures var status := ManagerBatchAck(qm, name, c, ids).1;
      if name !in qm.queues then status == Err(QueueMissing)
      else
        var q := qm.objects[qm.queues[name]].q;
        if |ids| == 1 then status == if HeldBy(q.live, c, ids[0]) then Ok else Err(NotHeld)
        else
          && |marks| == |q.live| && status == AckStatus(q, ids, marks)
          && exists hits: seq<bool> ::
               && |hits| == |q.live| && FirstOf(hits, marks, |ids|)
               && forall i | 0 <= i < |q.live| :: hits[i] <==> q.live[i].owner == c && q.live[i].id in ids
  {
    marks := [];
    if |ids| == 1 {
      AckReport(qm, name, c, ids[0]);
    } else if name in qm.queues {
      var q := qm.objects[qm.queues[name]].q;
      marks := AckMarks(q.live, c, ids);
      BatchAckTakesFirst(q.live, c, ids);
      AckStatusIs(q, c, ids);
      hide WithPair, AckMarks, AckStatus, BatchAck, ManagerAck, FirstOf;
    }
  }

  /** What a batch nack reports when the first messages under listed ids, as many as ids are listed, are
      marked: damage if the first message is given up and another one not right behind those given up with it. */
  function NackStatus(o: QueueObject, ids: seq<Bytes>, marks: seq<bool>): Status
    requires |marks| == |o.q.live|
  {
    var n := |o.q.live|;
    if n == 0 || o.q.amount < |ids| || ids == [] || Count(marks) != |ids| then Err(NotHeld)
    else if o.dead == DeadRef.NilInterface && exists i :: 0 <= i < n && WornAt(o, marks, i) then Panic
    else if WornAt(o, marks, 0) && exists i, j :: 0 <= i < j < n && !WornAt(o, marks, i) && WornAt(o, marks, j)
    then Damaged
    else Ok
  }

  predicate WornAt(o: QueueObject, marks: seq<bool>, i: nat)
    requires i < |marks| == |o.q.live|
  {
    marks[i] && NextCount(o.q.live[i]) >= o.cfg.fetchLimit
  }

  lemma SeveredIff(ex: seq<bool>)
    ensures Severed(ex) <==> ex != [] && ex[0] && exists i, j :: 0 <= i < j < |ex| && !ex[i] && ex[j]
  {
    if ex != [] && ex[0] {
      var g := Leading(ex);
      var p := NextMark(ex, g);
      if p < |ex| {
        assert !ex[g] && ex[p] && g < p;
      }
    }
  }

  lemma BatchNackReport(qm: Manager, name: string, ids: seq<Bytes>) returns (marks: seq<bool>)
    requires WellFormed(qm)
    ensures var status := ManagerBatchNack(qm, name, ids).1;
      if name !in qm.queues then status == Err(QueueMissing)
      else
        var o := qm.objects[qm.queues[name]];
        && |marks| == |o.q.live| && status == NackStatus(o, ids, marks)
        && exists hits: seq<bool> ::
             && |hits| == |o.q.live| && FirstOf(hits, marks, |ids|)
             && forall i | 0 <= i < |o.q.live| :: hits[i] <==> o.q.live[i].id in ids
  {
    marks := [];
    if name in qm.queues {
      var o := qm.objects[qm.queues[name]];
      marks := NackMarks(o.q.live, ids);
      BatchNackTakesFirst(o.q.live, ids);
      NackStatusIs(o, Pair(qm, qm.queues[name]), ids);
      hide NackMarks, NackMany, NackStatus, Severed, WithPair, Expiring, FirstOf;
    }
  }

  lemma NackStatusIs(o: QueueObject, s: State, ids: seq<Bytes>)
    requires s.q == o.q && (s.dead.NilInterface? <==> o.dead.NilInterface?)
    ensures var reply, marks := NackMany(s, o.cfg.fetchLimit, ids).1, NackMarks(o.q.live, ids);
      NackStatus(o, ids, marks) ==
      if reply == Panicked then Panic
      else if reply == Refused then Err(NotHeld)
      else if Severed(Expiring(o.q.live, marks, o.cfg.fetchLimit)) then Damaged else Ok
  {
    hide NackMarks, Count, Reachable, After, BuryAll, Severed, WornAt;
    var marks := NackMarks(o.q.live, ids);
    var ex := Expiring(o.q.live, marks, o.cfg.fetchLimit);
    ExpiringIs(o, marks);
    SeveredIff(ex);
    CountNone(ex);
    hide Expiring;
  }

  lemma ExpiringIs(o: QueueObject, marks: seq<bool>)
    requires |marks| == |o.q.live|
    ensures var ex := Expiring(o.q.live, marks, o.cfg.fetchLimit);
      |ex| == |marks| && forall i | 0 <= i < |ex| :: ex[i] == WornAt(o, marks, i)
  {
  }

  lemma CountNone(marks: seq<bool>)
    ensures Count(marks) > 0 <==> exists i :: 0 <= i < |marks| && marks[i]
  {
    if Count(marks) == 0 {
      ClearIfNone(marks);
    } else if ClearFrom(marks, 0) {
      AllClear(marks, marks);
    }
  }
}
