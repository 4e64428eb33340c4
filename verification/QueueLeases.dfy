/** Leases are exclusive over whole runs. */
module QueueLeases {
  import opened Types
  import opened Marks
  import opened QueueModel
  import opened BatchNack
  import opened QueueLaws
  import opened QueueRuns
  import opened QueueHistory
  import opened BatchLaws

  /** The operations that end c's lease of a message: its own nack, a batch nack by anyone that
      lists the message and succeeds, an unlock of all that c holds, or a fetch by which another
      consumer gets the message, more than nodeTTL after the lease was last taken. */
  ghost predicate LeaseEnds(cfg: Config, s: State, op: Op, c: Bytes, id: Bytes) {
    || op == DoNack(c, id)
    || (op.DoBatchNack? && id in op.ids && NackMany(s, cfg.fetchLimit, op.ids).1 == Done)
    || op == DoUnlockAll(c)
    || (op.DoFetch? && op.c != c && IsOverdue(s.q.live, c, id, op.now, cfg.ttl)
        && HeldBy(Fetch(s.q.live, op.amount, op.c, op.now, cfg.ttl).live, op.c, id))
  }

  ghost predicate IsOverdue(live: seq<Msg>, c: Bytes, id: Bytes, now: int64, ttl: int64) {
    exists i :: 0 <= i < |live| && Overdue(live[i], c, id, now, ttl)
  }

  predicate Overdue(m: Msg, c: Bytes, id: Bytes, now: int64, ttl: int64) {
    m.id == id && m.owner == c && Sub64(now, m.time) > ttl
  }

  // ----- one step

  lemma {:induction false} KeptHas<T>(xs: seq<T>, marks: seq<bool>, i: nat)
    requires |xs| == |marks| && i < |xs| && !marks[i]
    ensures xs[i] in Kept(xs, marks)
  {
    if i > 0 {
      KeptHas(xs[1..], marks[1..], i - 1);
      assert xs[1..][i - 1] == xs[i];
    }
  }

  lemma HeldIn(live: seq<Msg>, c: Bytes, id: Bytes, m: Msg)
    requires m in live && m.id == id && m.owner == c
    ensures HeldBy(live, c, id)
  {
  }

  /** Taking marked messages out leaves one that was held either held or gone. */
  lemma LeaseTake(live: seq<Msg>, marks: seq<bool>, c: Bytes, id: Bytes)
    requires UniqueIds(live) && |marks| == |live| && HeldBy(live, c, id)
    ensures HeldBy(Kept(live, marks), c, id) || !Present(Kept(live, marks), id)
  {
    var kept := Kept(live, marks);
    var i :| 0 <= i < |live| && live[i].id == id && live[i].owner == c;
    if !marks[i] {
      KeptHas(live, marks, i);
      HeldIn(kept, c, id, live[i]);
    } else if Present(kept, id) {
      var k :| 0 <= k < |kept| && kept[k].id == id;
      KeptFrom(live, marks, kept[k]);
    }
  }

  lemma LeaseAck(q: Queue, c': Bytes, id': Bytes, c: Bytes, id: Bytes)
    requires UniqueIds(q.live) && HeldBy(q.live, c, id)
    ensures var live := Ack(q, c', id').0.live; HeldBy(live, c, id) || !Present(live, id)
  {
    var j := FirstHeld(q.live, c', id');
    if j < |q.live| {
      RemoveAtIsKept(q.live, j);
      LeaseTake(q.live, OneMark(|q.live|, j), c, id);
    }
  }

  lemma LeaseNack(s: State, limit: uint32, c': Bytes, id': Bytes, c: Bytes, id: Bytes)
    requires UniqueIds(s.q.live) && HeldBy(s.q.live, c, id) && !(c' == c && id' == id)
    ensures var live := Nack(s, limit, c', id').0.q.live; HeldBy(live, c, id) || !Present(live, id)
  {
    var live, j := s.q.live, FirstId(s.q.live, id');
    if j < |live| && live[j].owner == c' {
      var i :| 0 <= i < |live| && live[i].id == id && live[i].owner == c;
      if Expires(live[j], limit) && !s.dead.NilInterface? {
        RemoveAtIsKept(live, j);
        LeaseTake(live, OneMark(|live|, j), c, id);
      } else {
        assert live[j := Returned(live[j])][i] == live[i];
      }
    }
  }

  lemma LeaseBatchNack(s: State, limit: uint32, ids: seq<Bytes>, c: Bytes, id: Bytes)
    requires UniqueIds(s.q.live) && HeldBy(s.q.live, c, id) && id !in ids
    requires NackMany(s, limit, ids).1 == Done && OneRun(Expiring(s.q.live, NackMarks(s.q.live, ids), limit))
    ensures HeldBy(NackMany(s, limit, ids).0.q.live, c, id)
  {
    var live, marks := s.q.live, NackMarks(s.q.live, ids);
    var ex := Expiring(live, marks, limit);
    BatchNackLeaves(s, limit, ids);
    var i :| 0 <= i < |live| && live[i].id == id && live[i].owner == c;
    MarksAreHits(IdHits(live, ids), |ids|, i);
    hide Kept, OneRun, NackMany;
    KeptHas(After(live, marks, ex), ex, i);
    HeldIn(Kept(After(live, marks, ex), ex), c, id, live[i]);
  }

  /** The holder's nack leaves the message with no consumer. */
  lemma NackFrees(s: State, limit: uint32, c: Bytes, id: Bytes)
    requires UniqueIds(s.q.live) && HeldBy(s.q.live, c, id) && c != NO_CONSUMER && Nack(s, limit, c, id).1 != Panicked
    ensures !HeldBy(Nack(s, limit, c, id).0.q.live, c, id)
  {
    var live, j := s.q.live, FirstId(s.q.live, id);
    var i :| 0 <= i < |live| && live[i].id == id && live[i].owner == c;
    assert j == i;
  }

  lemma UnlockFrees(live: seq<Msg>, c: Bytes, id: Bytes)
    requires c != NO_CONSUMER
    ensures !HeldBy(UnlockAll(live, c), c, id)
  {
  }

  /** A fetch moves the lease exactly when the other consumer gets the message. */
  lemma LeaseFetch(live: seq<Msg>, amount: uint32, c': Bytes, now: int64, ttl: int64, c: Bytes, id: Bytes)
    requires UniqueIds(live) && HeldBy(live, c, id) && c != NO_CONSUMER
    ensures var live' := Fetch(live, amount, c', now, ttl).live;
      HeldBy(live', c, id) <==> !(c' != c && IsOverdue(live, c, id, now, ttl) && HeldBy(live', c', id))
  {
    var hits := EligibleHits(live, c', now, ttl);
    var live' := Fetch(live, amount, c', now, ttl).live;
    var i :| 0 <= i < |live| && live[i].id == id && live[i].owner == c;
    FetchReleases(live, amount, c', now, ttl);
    MarksAreHits(hits, amount, i);
    OnlyAt(live, live', i, c);
    OnlyAt(live, live', i, c');
    OverdueAt(live, i, c, now, ttl);
    hide Fetch, FirstMarks, HeldBy, IsOverdue, UniqueIds;
  }

  /** With unique ids the message at position i decides who holds its id, there and in a list with the same ids. */
  lemma OnlyAt(live: seq<Msg>, live': seq<Msg>, i: nat, x: Bytes)
    requires UniqueIds(live) && i < |live| == |live'| && forall k | 0 <= k < |live| :: live'[k].id == live[k].id
    ensures HeldBy(live', x, live[i].id) <==> live'[i].owner == x
  {
  }

  lemma OverdueAt(live: seq<Msg>, i: nat, c: Bytes, now: int64, ttl: int64)
    requires UniqueIds(live) && i < |live| && live[i].owner == c
    ensures IsOverdue(live, c, live[i].id, now, ttl) <==> Sub64(now, live[i].time) > ttl
  {
  }

  lemma MarksAreHits(hits: seq<bool>, k: nat, i: nat)
    requires i < |hits|
    ensures FirstMarks(hits, k)[i] ==> hits[i]
  {
    FirstMarksAt(hits, k, i);
  }

  /** After one operation the lease stands exactly unless the operation ended it or the message is gone. */
  lemma LeaseStep(cfg: Config, t: Trace, op: Op, c: Bytes, id: Bytes)
    requires UniqueIds(t.s.q.live) && HeldBy(t.s.q.live, c, id) && c != NO_CONSUMER && Step(cfg, t, op).Some?
    ensures var live' := Step(cfg, t, op).value.s.q.live;
      HeldBy(live', c, id) <==> !LeaseEnds(cfg, t.s, op, c, id) && Present(live', id)
  {
    hide Nack, Ack, BatchAck, NackMany, Fetch, UnlockAll, OneRun, Expiring, NackMarks, UniqueIds;
    var live, live' := t.s.q.live, Step(cfg, t, op).value.s.q.live;
    match op
    case DoEnqueue(_, _) => LeaseAppend(live, live', c, id);
    case DoBatchEnqueue(_) => LeaseAppend(live, live', c, id);
    case DoFetch(amount, c', now) => LeaseFetch(live, amount, c', now, cfg.ttl, c, id);
    case DoNack(c', id') =>
      if c' == c && id' == id {
        NackFrees(t.s, cfg.fetchLimit, c, id);
      } else {
        LeaseNack(t.s, cfg.fetchLimit, c', id', c, id);
      }
    case DoAck(c', id') => LeaseAck(t.s.q, c', id', c, id);
    case DoUnlockAll(c') =>
      if c' == c {
        UnlockFrees(live, c, id);
      } else {
        UnlockLeaves(live, c', c, id);
      }
    case DoBatchAck(c', ids) =>
      if |ids| == 1 {
        LeaseAck(t.s.q, c', ids[0], c, id);
      } else if BatchAck(t.s.q, c', ids).reply == Done {
        LeaseBatchAck(t.s.q, c', ids, c, id);
      }
    case DoBatchNack(c', ids) =>
      if NackMany(t.s, cfg.fetchLimit, ids).1 == Done {
        if id in ids {
          BatchNackFreesAll(t.s, cfg.fetchLimit, ids);
        } else {
          LeaseBatchNack(t.s, cfg.fetchLimit, ids, c, id);
        }
      }
  }

  lemma LeaseAppend(live: seq<Msg>, live': seq<Msg>, c: Bytes, id: Bytes)
    requires HeldBy(live, c, id) && |live| <= |live'| && live'[..|live|] == live
    ensures HeldBy(live', c, id)
  {
    var i :| 0 <= i < |live| && live[i].id == id && live[i].owner == c;
    assert live'[..|live|][i] == live'[i];
  }

  lemma UnlockLeaves(live: seq<Msg>, c': Bytes, c: Bytes, id: Bytes)
    requires HeldBy(live, c, id) && c' != c
    ensures HeldBy(UnlockAll(live, c'), c, id)
  {
    var i :| 0 <= i < |live| && live[i].id == id && live[i].owner == c;
    assert UnlockAll(live, c')[i] == live[i];
  }

  lemma LeaseBatchAck(q: Queue, c': Bytes, ids: seq<Bytes>, c: Bytes, id: Bytes)
    requires UniqueIds(q.live) && HeldBy(q.live, c, id) && |ids| != 1 && BatchAck(q, c', ids).reply == Done
    ensures var live := BatchAck(q, c', ids).live; HeldBy(live, c, id) || !Present(live, id)
  {
    LeaseTake(q.live, AckMarks(q.live, c', ids), c, id);
  }

  // ----- a message that is gone stays gone

  ghost predicate Sourced(live: seq<Msg>, live': seq<Msg>) {
    forall i | 0 <= i < |live'| :: Present(live, live'[i].id)
  }

  lemma SourcedTake(live: seq<Msg>, marks: seq<bool>)
    requires |marks| == |live|
    ensures Sourced(live, Kept(live, marks))
  {
    forall i | 0 <= i < |Kept(live, marks)| ensures Present(live, Kept(live, marks)[i].id) {
      KeptAt(live, marks, i);
    }
  }

  /** Only an admission brings in a new id. */
  lemma SourcedStep(cfg: Config, t: Trace, op: Op)
    requires Step(cfg, t, op).Some? && !op.DoEnqueue? && !op.DoBatchEnqueue?
    ensures Sourced(t.s.q.live, Step(cfg, t, op).value.s.q.live)
  {
    var live, live' := t.s.q.live, Step(cfg, t, op).value.s.q.live;
    assert Sourced(live, live);
    match op
    case DoFetch(amount, c, now) =>
      FetchReleases(live, amount, c, now, cfg.ttl);
      forall i | 0 <= i < |live'| ensures Present(live, live'[i].id) {
        assert live[i].id == live'[i].id;
      }
    case DoUnlockAll(c) =>
      forall i | 0 <= i < |live'| ensures Present(live, live'[i].id) {
        assert live[i].id == live'[i].id;
      }
    case DoNack(c, id) =>
      var j := FirstId(live, id);
      if j < |live| && live[j].owner == c && Expires(live[j], cfg.fetchLimit) {
        RemoveAtIsKept(live, j);
        SourcedTake(live, OneMark(|live|, j));
      } else {
        forall i | 0 <= i < |live'| ensures Present(live, live'[i].id) {
          assert live[i].id == live'[i].id;
        }
      }
    case DoAck(c, id) => SourcedAck(t.s.q, c, id);
    case DoBatchAck(c, ids) =>
      if |ids| == 1 {
        SourcedAck(t.s.q, c, ids[0]);
      } else {
        SourcedTake(live, AckMarks(live, c, ids));
      }
    case DoBatchNack(c, ids) =>
      if NackMany(t.s, cfg.fetchLimit, ids).1 == Done {
        SourcedNacked(t.s, cfg.fetchLimit, ids);
      }
  }

  lemma SourcedNacked(s: State, limit: uint32, ids: seq<Bytes>)
    requires NackMany(s, limit, ids).1 == Done && OneRun(Expiring(s.q.live, NackMarks(s.q.live, ids), limit))
    ensures Sourced(s.q.live, NackMany(s, limit, ids).0.q.live)
  {
    var live, marks := s.q.live, NackMarks(s.q.live, ids);
    var ex := Expiring(live, marks, limit);
    BatchNackLeaves(s, limit, ids);
    hide Kept, OneRun, NackMany;
    var after := After(live, marks, ex);
    forall i | 0 <= i < |Kept(after, ex)| ensures Present(live, Kept(after, ex)[i].id) {
      KeptAt(after, ex, i);
      var j :| 0 <= j < |live| && !ex[j] && Kept(after, ex)[i] == after[j];
      assert live[j].id == after[j].id;
    }
  }

  lemma SourcedAck(q: Queue, c: Bytes, id: Bytes)
    ensures Sourced(q.live, Ack(q, c, id).0.live)
  {
    var j := FirstHeld(q.live, c, id);
    if j < |q.live| {
      RemoveAtIsKept(q.live, j);
      SourcedTake(q.live, OneMark(|q.live|, j));
    }
  }

  lemma StillAbsent(live: seq<Msg>, batch: seq<MessageBatch>, id: Bytes)
    requires !Present(live, id) && forall i | 0 <= i < |batch| :: batch[i].id != id
    ensures !Present(live + FreshAll(batch), id)
  {
  }

  lemma AdmitUnknown(cfg: Config, t: Trace, batch: seq<MessageBatch>, id: Bytes)
    requires Known(AdmittedIn(t.log), id) && !Present(t.s.q.live, id)
    requires var t' := Step(cfg, t, DoBatchEnqueue(batch)).value; DistinctAdmissions(AdmittedIn(t'.log))
    ensures !Present(Step(cfg, t, DoBatchEnqueue(batch)).value.s.q.live, id)
  {
    hide AdmittedIn;
    if batch != [] && t.s.q.amount < cfg.cap {
      var ps := BatchPayloads(batch);
      var more := Each(ps, p => Admitted(p));
      LogOfAdmitted(more, ps);
      AdmittedSplit(t.log, more);
      NewUnknown(AdmittedIn(t.log), ps);
      hide Known, DistinctAdmissions;
      StillAbsent(t.s.q.live, batch, id);
    }
  }

  lemma GoneStep(cfg: Config, t: Trace, op: Op, id: Bytes)
    requires Known(AdmittedIn(t.log), id) && !Present(t.s.q.live, id) && Step(cfg, t, op).Some?
    requires DistinctAdmissions(AdmittedIn(Step(cfg, t, op).value.log))
    ensures !Present(Step(cfg, t, op).value.s.q.live, id)
    ensures Known(AdmittedIn(Step(cfg, t, op).value.log), id)
  {
    hide AdmittedIn;
    var t' := Step(cfg, t, op).value;
    KnownStep(cfg, t, op, id);
    if op.DoEnqueue? {
      SingleIsBatch(cfg, t, op.id, op.val);
      AdmitUnknown(cfg, t, [MessageBatch(op.id, op.val)], id);
    } else if op.DoBatchEnqueue? {
      AdmitUnknown(cfg, t, op.batch, id);
    } else {
      SourcedStep(cfg, t, op);
    }
  }

  lemma KnownStep(cfg: Config, t: Trace, op: Op, id: Bytes)
    requires Known(AdmittedIn(t.log), id) && Step(cfg, t, op).Some?
    ensures Known(AdmittedIn(Step(cfg, t, op).value.log), id)
  {
    hide AdmittedIn;
    var log := Step(cfg, t, op).value.log;
    LogGrows(cfg, t, op);
    AdmittedSplit(t.log, log[|t.log|..]);
    KnownGrows(AdmittedIn(t.log), AdmittedIn(log[|t.log|..]));
  }

  lemma {:induction false} GoneFrom(cfg: Config, t: Trace, ops: seq<Op>, id: Bytes)
    requires Known(AdmittedIn(t.log), id) && !Present(t.s.q.live, id) && Run(cfg, t, ops).Some?
    requires DistinctAdmissions(AdmittedIn(Run(cfg, t, ops).value.log))
    ensures !Present(Run(cfg, t, ops).value.s.q.live, id)
    decreases |ops|
  {
    if ops != [] {
      var t' := Step(cfg, t, ops[0]).value;
      AdmissionsGrowFrom(cfg, t', ops[1..]);
      GoneStep(cfg, t, ops[0], id);
      GoneFrom(cfg, t', ops[1..], id);
    }
  }

  // ----- runs

  lemma {:induction false} RunPrefix(cfg: Config, t: Trace, ops: seq<Op>, k: nat)
    requires Run(cfg, t, ops).Some? && k <= |ops|
    ensures Run(cfg, t, ops[..k]).Some?
    decreases |ops|
  {
    if k > 0 {
      RunPrefix(cfg, Step(cfg, t, ops[0]).value, ops[1..], k - 1);
      assert ops[..k][1..] == ops[1..][..k - 1];
    }
  }

  lemma {:induction false} RunConcat(cfg: Config, t: Trace, a: seq<Op>, b: seq<Op>)
    requires Run(cfg, t, a).Some?
    ensures Run(cfg, t, a + b) == Run(cfg, Run(cfg, t, a).value, b)
    decreases |a|
  {
    if a == [] {
      assert a + b == b;
    } else {
      assert (a + b)[1..] == a[1..] + b;
      RunConcat(cfg, Step(cfg, t, a[0]).value, a[1..], b);
    }
  }

  /** The k-th operation of the run is one that ends c's lease, which has stood until then and no longer stands. */
  ghost predicate EndedAt(cfg: Config, t: Trace, ops: seq<Op>, k: nat, c: Bytes, id: Bytes) {
    && k < |ops|
    && Run(cfg, t, ops[..k]).Some?
    && HeldBy(Run(cfg, t, ops[..k]).value.s.q.live, c, id)
    && LeaseEnds(cfg, Run(cfg, t, ops[..k]).value.s, ops[k], c, id)
    && Run(cfg, t, ops[..k + 1]).Some?
    && !HeldBy(Run(cfg, t, ops[..k + 1]).value.s.q.live, c, id)
  }

  /** Facts that every state of such a run has. */
  ghost predicate Regular(cfg: Config, dead: Dead, t: Trace, ops: seq<Op>) {
    Sound(cfg, dead, t) && Run(cfg, t, ops).Some? && DistinctAdmissions(AdmittedIn(Run(cfg, t, ops).value.log))
  }

  lemma RegularStep(cfg: Config, dead: Dead, t: Trace, ops: seq<Op>)
    requires Regular(cfg, dead, t, ops) && ops != []
    ensures Regular(cfg, dead, Step(cfg, t, ops[0]).value, ops[1..])
    ensures UniqueIds(t.s.q.live)
    ensures forall i | 0 <= i < |t.s.q.live| :: Known(AdmittedIn(t.log), t.s.q.live[i].id)
    ensures DistinctAdmissions(AdmittedIn(Step(cfg, t, ops[0]).value.log))
  {
    SoundStep(cfg, dead, t, ops[0]);
    AdmissionsGrowFrom(cfg, t, ops);
    AdmissionsGrowFrom(cfg, Step(cfg, t, ops[0]).value, ops[1..]);
    LiveUnique(t);
  }

  /** If a message that c holds is later held by someone else, then at some point in between c held it
      and lost it: c nacked it, a batch nack that lists it succeeded, all of c's messages were unlocked,
      or another consumer fetched it more than nodeTTL after the lease was last taken. */
  lemma {:induction false} ExclusiveLease(cfg: Config, dead: Dead, t: Trace, ops: seq<Op>, c: Bytes, c': Bytes,
                                          id: Bytes)
    returns (k: nat)
    requires Regular(cfg, dead, t, ops)
    requires c != NO_CONSUMER && HeldBy(t.s.q.live, c, id)
    requires c' != c && HeldBy(Run(cfg, t, ops).value.s.q.live, c', id)
    ensures EndedAt(cfg, t, ops, k, c, id)
    decreases |ops|
  {
    hide Regular, Sound, AdmittedIn, LeaseEnds, Step, UniqueIds, Known, DistinctAdmissions, HeldBy, Present;
    if ops == [] {
      OneHolder(cfg, dead, t, c, c', id);
    } else {
      RegularRuns(cfg, dead, t, ops);
      var t' := Step(cfg, t, ops[0]).value;
      RegularStep(cfg, dead, t, ops);
      HeldKnown(t, c, id);
      LeaseStep(cfg, t, ops[0], c, id);
      KnownStep(cfg, t, ops[0], id);
      if HeldBy(t'.s.q.live, c, id) {
        k := ExclusiveLease(cfg, dead, t', ops[1..], c, c', id);
        EndedLater(cfg, t, ops, k, c, id);
        k := k + 1;
      } else if LeaseEnds(cfg, t.s, ops[0], c, id) {
        k := 0;
        EndedNow(cfg, t, ops, c, id);
      } else {
        StaysGone(cfg, dead, t', ops[1..], c', id);
      }
    }
  }

  lemma OneHolder(cfg: Config, dead: Dead, t: Trace, c: Bytes, c': Bytes, id: Bytes)
    requires Regular(cfg, dead, t, []) && HeldBy(t.s.q.live, c, id) && HeldBy(t.s.q.live, c', id)
    ensures c == c'
  {
    LiveUnique(t);
  }

  lemma RegularRuns(cfg: Config, dead: Dead, t: Trace, ops: seq<Op>)
    requires Regular(cfg, dead, t, ops) && ops != []
    ensures Step(cfg, t, ops[0]).Some? && Run(cfg, t, ops) == Run(cfg, Step(cfg, t, ops[0]).value, ops[1..])
  {
  }

  lemma HeldKnown(t: Trace, c: Bytes, id: Bytes)
    requires HeldBy(t.s.q.live, c, id)
    requires forall i | 0 <= i < |t.s.q.live| :: Known(AdmittedIn(t.log), t.s.q.live[i].id)
    ensures Known(AdmittedIn(t.log), id)
  {
  }

  lemma EndedNow(cfg: Config, t: Trace, ops: seq<Op>, c: Bytes, id: Bytes)
    requires ops != [] && Step(cfg, t, ops[0]).Some?
    requires HeldBy(t.s.q.live, c, id) && LeaseEnds(cfg, t.s, ops[0], c, id)
    requires !HeldBy(Step(cfg, t, ops[0]).value.s.q.live, c, id)
    ensures EndedAt(cfg, t, ops, 0, c, id)
  {
    hide Step, HeldBy, LeaseEnds;
    assert ops[..0] == [] && ops[..1] == [ops[0]] && ops[..1][1..] == [];
    assert Run(cfg, Step(cfg, t, ops[0]).value, []).Some?;
  }

  lemma EndedLater(cfg: Config, t: Trace, ops: seq<Op>, k: nat, c: Bytes, id: Bytes)
    requires ops != [] && Step(cfg, t, ops[0]).Some?
    requires EndedAt(cfg, Step(cfg, t, ops[0]).value, ops[1..], k, c, id)
    ensures EndedAt(cfg, t, ops, k + 1, c, id)
  {
    hide Step, HeldBy, LeaseEnds;
    assert ops[..k + 1][1..] == ops[1..][..k] && ops[..k + 2][1..] == ops[1..][..k + 1];
  }

  lemma StaysGone(cfg: Config, dead: Dead, t: Trace, ops: seq<Op>, c: Bytes, id: Bytes)
    requires Regular(cfg, dead, t, ops) && Known(AdmittedIn(t.log), id) && !Present(t.s.q.live, id)
    ensures !HeldBy(Run(cfg, t, ops).value.s.q.live, c, id)
  {
    GoneFrom(cfg, t, ops, id);
  }

  /** The same for two points of a run from an empty queue. */
  lemma ExclusiveLeaseOverRuns(cfg: Config, dead: Dead, before: seq<Op>, ops: seq<Op>, c: Bytes, c': Bytes, id: Bytes)
    requires Run(cfg, Start(dead), before + ops).Some?
    requires DistinctAdmissions(AdmittedIn(Run(cfg, Start(dead), before + ops).value.log))
    requires c != NO_CONSUMER && c' != c
    requires Run(cfg, Start(dead), before).Some? && HeldBy(Run(cfg, Start(dead), before).value.s.q.live, c, id)
    requires HeldBy(Run(cfg, Start(dead), before + ops).value.s.q.live, c', id)
    ensures exists k :: EndedAt(cfg, Run(cfg, Start(dead), before).value, ops, k, c, id)
  {
    EveryRunSound(cfg, dead, before);
    RunConcat(cfg, Start(dead), before, ops);
    var k := ExclusiveLease(cfg, dead, Run(cfg, Start(dead), before).value, ops, c, c', id);
  }
}
