/** Conservation over a queue and its dead-letter queue, when both are submitted to and consumed
    through the manager. */
module PairHistory {
  import opened Types
  import opened QueueModel
  import opened BatchNack
  import opened BatchLaws
  import opened BrokerModel
  import opened QueueRuns
  import opened QueueHistory
  import opened ManagerLaws
  import opened ManagerRuns

  /** What has happened to the queue; to its dead-letter queue, with an admission for each message that
      was moved there; and what was submitted to the dead-letter queue itself. */
  datatype PairLog = PairLog(main: seq<Event>, spare: seq<Event>, direct: seq<Payload>)

  function More(log: seq<Event>, longer: seq<Event>): seq<Event> {
    if |log| <= |longer| then longer[|log|..] else []
  }

  /** One operation as the pair of h sees it; None where the queue it is about has no next state. */
  function PairStep(qm: Manager, h: Handle, op: ManagerOp, log: PairLog): Option<PairLog>
    requires h in qm.objects
  {
    if !op.Ask? || op.name !in qm.queues || qm.queues[op.name] !in qm.objects then Some(log)
    else
      var k := qm.queues[op.name];
      if k == h then
        match Step(qm.objects[h].cfg, Trace(Pair(qm, h), log.main), op.op)
        case None => None
        case Some(t) => Some(log.(main := t.log, spare := log.spare + Moved(BuriedIn(More(log.main, t.log)))))
      else if qm.objects[h].dead == Ref(k) then
        match Step(qm.objects[k].cfg, Trace(Pair(qm, k), log.spare), op.op)
        case None => None
        case Some(t) => Some(log.(spare := t.log, direct := log.direct + AdmittedIn(More(log.spare, t.log))))
      else Some(log)
  }

  function Moved(ps: seq<Payload>): (r: seq<Event>)
    ensures |r| == |ps| && forall i | 0 <= i < |ps| :: r[i] == Admitted(ps[i])
  {
    Each(ps, p => Admitted(p))
  }

  /** The messages that have left for good: acked, or dropped because there was no room or no dead-letter queue. */
  function SettledIn(log: seq<Event>): seq<Payload> {
    if log == [] then []
    else
      var e := log[|log| - 1];
      SettledIn(log[..|log| - 1]) + if e.Buried? then [] else Leaving(e)
  }

  lemma {:induction false} SettledOrBuried(log: seq<Event>)
    ensures multiset(GoneIn(log)) == multiset(SettledIn(log)) + multiset(BuriedIn(log))
  {
    if log != [] {
      SettledOrBuried(log[..|log| - 1]);
    }
  }

  /** Both queues are steady, and what came into the dead-letter queue was moved there or submitted. */
  ghost predicate Both(cfg: Config, cfgD: Config, s: State, spare: State, log: PairLog) {
    && s.dead.Dlq? && s.dead.queue == spare.q
    && Steady(cfg, Trace(s, log.main)) && Steady(cfgD, Trace(spare, log.spare))
    && multiset(AdmittedIn(log.spare)) == multiset(log.direct) + multiset(BuriedIn(log.main))
  }

  ghost predicate PairSteady(qm: Manager, h: Handle, log: PairLog) {
    && h in qm.objects && qm.objects[h].dead.Ref? && qm.objects[h].dead.queue in qm.objects
    && var d := qm.objects[h].dead.queue;
       Both(qm.objects[h].cfg, qm.objects[d].cfg, Pair(qm, h), Pair(qm, d), log)
  }

  /** The manager does to a queue what the queue's own step says. */
  lemma AskedIsStep(s: State, cfg: Config, log: seq<Event>, op: Request)
    requires Step(cfg, Trace(s, log), op).Some?
    ensures Asked(s, cfg, op) == Step(cfg, Trace(s, log), op).value.s
  {
    match op
    case DoBatchNack(c, ids) =>
      var ex := Expiring(s.q.live, NackMarks(s.q.live, ids), cfg.fetchLimit);
      if OneRun(ex) {
        NotSevered(ex);
      }
      hide OneRun, Severed, Expiring, NackMarks, Reachable, After, BuryAll, NackLog;
    case _ => hide Fetch, Ack, Nack, BatchAck;
  }

  /** Steadiness looks at the queue and the log alone. */
  lemma SteadyElsewhere(cfg: Config, s: State, s': State, log: seq<Event>)
    requires Steady(cfg, Trace(s, log)) && s'.q == s.q
    ensures Steady(cfg, Trace(s', log))
  {
  }

  lemma SteadyMoved(cfg: Config, s: State, s': State, log: seq<Event>, ps: seq<Payload>)
    requires Steady(cfg, Trace(s, log))
    requires s' == s.(q := Queue(s.q.live + Anew(ps), s.q.amount + |ps|))
    ensures Steady(cfg, Trace(s', log + Moved(ps)))
    ensures AdmittedIn(log + Moved(ps)) == AdmittedIn(log) + ps
  {
    hide Steady;
    SteadyAdmit(cfg, Trace(s, log), Trace(s', log + Moved(ps)), Moved(ps), Anew(ps));
    LogOfAdmitted(Moved(ps), ps);
    AdmittedSplit(log, Moved(ps));
  }

  lemma MovesWhatItBuries(cfg: Config, t: Trace, op: Op)
    requires t.s.dead.Dlq? && Steady(cfg, t) && Step(cfg, t, op).Some?
    ensures var t' := Step(cfg, t, op).value;
      var moved := BuriedIn(More(t.log, t'.log));
      && Steady(cfg, t') && BuriedIn(t'.log) == BuriedIn(t.log) + moved
      && SameShape(t.s.dead, t'.s.dead)
      && t'.s.dead.queue == Queue(t.s.dead.queue.live + Anew(moved), t.s.dead.queue.amount + |moved|)
  {
    var t' := Step(cfg, t, op).value;
    hide Step, Steady, BuriedIn, Anew;
    SteadyStep(cfg, t, op);
    BuriedSplit(t.log, t'.log[|t.log|..]);
  }

  lemma BothAfterMain(cfg: Config, cfgD: Config, s: State, spare: State, log: PairLog, op: Op, spare': State)
    requires Both(cfg, cfgD, s, spare, log) && Step(cfg, Trace(s, log.main), op).Some?
    requires var t' := Step(cfg, Trace(s, log.main), op).value;
      t'.s.dead.Dlq? ==> spare' == spare.(q := t'.s.dead.queue)
    ensures var t' := Step(cfg, Trace(s, log.main), op).value;
      Both(cfg, cfgD, t'.s, spare', log.(main := t'.log, spare := log.spare + Moved(BuriedIn(More(log.main, t'.log)))))
  {
    hide Step, Steady, AdmittedIn, BuriedIn, Anew, Moved;
    var t := Trace(s, log.main);
    var t' := Step(cfg, t, op).value;
    MovesWhatItBuries(cfg, t, op);
    SteadyMoved(cfgD, spare, spare', log.spare, BuriedIn(More(log.main, t'.log)));
  }

  lemma BothAfterSpare(cfg: Config, cfgD: Config, s: State, spare: State, log: PairLog, op: Op, s': State)
    requires Both(cfg, cfgD, s, spare, log) && Step(cfgD, Trace(spare, log.spare), op).Some?
    requires var t' := Step(cfgD, Trace(spare, log.spare), op).value; s' == s.(dead := s.dead.(queue := t'.s.q))
    ensures var t' := Step(cfgD, Trace(spare, log.spare), op).value;
      Both(cfg, cfgD, s', t'.s, log.(spare := t'.log, direct := log.direct + AdmittedIn(More(log.spare, t'.log))))
  {
    var t := Trace(spare, log.spare);
    var t' := Step(cfgD, t, op).value;
    hide Step, Steady, AdmittedIn, BuriedIn, DeadGrew;
    SteadyStep(cfgD, t, op);
    AdmittedSplit(log.spare, t'.log[|t.log|..]);
    SteadyElsewhere(cfg, s, s', log.main);
    Submitted(AdmittedIn(log.spare), log.direct, BuriedIn(log.main), AdmittedIn(More(log.spare, t'.log)));
  }

  lemma Submitted(all: seq<Payload>, direct: seq<Payload>, moved: seq<Payload>, more: seq<Payload>)
    requires multiset(all) == multiset(direct) + multiset(moved)
    ensures multiset(all + more) == multiset(direct + more) + multiset(moved)
  {
  }

  /** A request to the queue itself. */
  lemma MainKept(qm: Manager, h: Handle, op: ManagerOp, log: PairLog)
    requires WellFormed(qm) && PairSteady(qm, h, log)
    requires op.Ask? && op.name in qm.queues && qm.queues[op.name] == h && PairStep(qm, h, op, log).Some?
    ensures PairSteady(ManagerStep(qm, op).0, h, PairStep(qm, h, op, log).value)
  {
    hide Step, Asked, ManagerAsk, Both;
    var d, cfg, qm' := qm.objects[h].dead.queue, qm.objects[h].cfg, ManagerStep(qm, op).0;
    AskKeeps(qm, op.name, op.op);
    AskedIsStep(Pair(qm, h), cfg, log.main, op.op);
    BothAfterMain(cfg, qm.objects[d].cfg, Pair(qm, h), Pair(qm, d), log, op.op, Pair(qm', d));
  }

  /** A request to the dead-letter queue. */
  lemma SpareKept(qm: Manager, h: Handle, op: ManagerOp, log: PairLog)
    requires WellFormed(qm) && PairSteady(qm, h, log)
    requires op.Ask? && op.name in qm.queues && qm.objects[h].dead == Ref(qm.queues[op.name])
    requires PairStep(qm, h, op, log).Some?
    ensures PairSteady(ManagerStep(qm, op).0, h, PairStep(qm, h, op, log).value)
  {
    hide Step, Asked, ManagerAsk, Both;
    var d, qm' := qm.queues[op.name], ManagerStep(qm, op).0;
    AskKeeps(qm, op.name, op.op);
    AskedIsStep(Pair(qm, d), qm.objects[d].cfg, log.spare, op.op);
    BothAfterSpare(qm.objects[h].cfg, qm.objects[d].cfg, Pair(qm, h), Pair(qm, d), log, op.op, Pair(qm', h));
  }

  /** Anything else leaves the two as they are. */
  lemma OthersKept(qm: Manager, h: Handle, op: ManagerOp, log: PairLog)
    requires Sane(qm) && PairSteady(qm, h, log)
    requires op.Ask? && op.name in qm.queues ==>
               qm.queues[op.name] != h && qm.objects[h].dead != Ref(qm.queues[op.name])
    ensures PairSteady(ManagerStep(qm, op).0, h, log)
  {
    hide Both;
    var qm', d := ManagerStep(qm, op).0, qm.objects[h].dead.queue;
    match op
    case Create(name, size, retryLimit, hasDLQ) => CreateLaw(qm, name, size, retryLimit, hasDLQ);
    case Remove(name) =>
    case Ask(name, request) =>
      hide ManagerAsk;
      AskIs(qm, name, request);
      if name in qm.queues {
        AskKeeps(qm, name, request);
        hide Asked, WithPair, Fetch;
      }
  }

  lemma PairKept(qm: Manager, h: Handle, op: ManagerOp, log: PairLog)
    requires Sane(qm) && h in qm.objects && PairSteady(qm, h, log) && PairStep(qm, h, op, log).Some?
    ensures PairSteady(ManagerStep(qm, op).0, h, PairStep(qm, h, op, log).value)
  {
    hide PairSteady, ManagerStep;
    assert h in qm.objects && forall n | n in qm.queues :: qm.queues[n] in qm.objects;
    if op.Ask? && op.name in qm.queues && qm.queues[op.name] == h {
      MainKept(qm, h, op, log);
    } else if op.Ask? && op.name in qm.queues && qm.objects[h].dead == Ref(qm.queues[op.name]) {
      SpareKept(qm, h, op, log);
    } else {
      hide WellFormed;
      OthersKept(qm, h, op, log);
    }
  }

  function PairRun(qm: Manager, h: Handle, ops: seq<ManagerOp>, log: PairLog): Option<PairLog>
    decreases |ops|
  {
    if ops == [] then Some(log)
    else if h !in qm.objects then None
    else
      match PairStep(qm, h, ops[0], log)
      case None => None
      case Some(log') => PairRun(ManagerStep(qm, ops[0]).0, h, ops[1..], log')
  }

  lemma {:induction false} PairKeptFrom(qm: Manager, h: Handle, ops: seq<ManagerOp>, log: PairLog)
    requires Sane(qm) && PairSteady(qm, h, log) && PairRun(qm, h, ops, log).Some?
    ensures PairSteady(ManagerRun(qm, ops), h, PairRun(qm, h, ops, log).value)
    decreases |ops|
  {
    if ops != [] {
      SaneStep(qm, ops[0]);
      PairKept(qm, h, ops[0], log);
      hide Sane, WellFormed, PairSteady, PairStep, ManagerStep;
      PairKeptFrom(ManagerStep(qm, ops[0]).0, h, ops[1..], PairStep(qm, h, ops[0], log).value);
    }
  }

  lemma CreatedSteady(qm: Manager, name: string, size: uint32, retryLimit: uint32)
    requires WellFormed(qm) && ManagerCreate(qm, name, size, retryLimit, true).1 == Ok
    ensures var qm1 := ManagerCreate(qm, name, size, retryLimit, true).0;
      PairSteady(qm1, qm1.queues[name], PairLog([], [], []))
  {
    assert |name + "-dlq"| == |name| + 4;
    var qm1 := ManagerCreate(qm, name, size, retryLimit, true).0;
    var h := qm1.queues[name];
    var d := qm1.objects[h].dead.queue;
    StartSound(qm1.objects[h].cfg, Pair(qm1, h).dead);
    StartSound(qm1.objects[d].cfg, Pair(qm1, d).dead);
    hide Steady, DeadGrew;
  }

  /** After a queue has been created with a dead-letter queue, over every run of the manager, whatever
      else is created, deleted, submitted or consumed: the messages admitted to the two are, as a
      multiset, those live in either plus those acked or dropped from either. */
  lemma PairConserved(qm: Manager, name: string, size: uint32, retryLimit: uint32, ops: seq<ManagerOp>)
    requires Sane(qm) && ManagerCreate(qm, name, size, retryLimit, true).1 == Ok
    requires var qm1 := ManagerCreate(qm, name, size, retryLimit, true).0;
      PairRun(qm1, qm1.queues[name], ops, PairLog([], [], [])).Some?
    ensures
      var qm1 := ManagerCreate(qm, name, size, retryLimit, true).0;
      var h, qm' := qm1.queues[name], ManagerRun(qm1, ops);
      var log := PairRun(qm1, h, ops, PairLog([], [], [])).value;
      && h in qm'.objects && Pair(qm', h).dead.Dlq?
      && multiset(AdmittedIn(log.main)) + multiset(log.direct)
         == multiset(Payloads(Pair(qm', h).q.live)) + multiset(Payloads(Pair(qm', h).dead.queue.live))
            + multiset(SettledIn(log.main)) + multiset(GoneIn(log.spare))
  {
    var qm1 := ManagerCreate(qm, name, size, retryLimit, true).0;
    var h, none := qm1.queues[name], PairLog([], [], []);
    var log, qm' := PairRun(qm1, h, ops, none).value, ManagerRun(qm1, ops);
    CreateLaw(qm, name, size, retryLimit, true);
    SaneStep(qm, Create(name, size, retryLimit, true));
    CreatedSteady(qm, name, size, retryLimit);
    PairKeptFrom(qm1, h, ops, none);
    hide ManagerRun, PairRun, Sane, WellFormed, Unshared, ManagerCreate, Both, Pair;
    assert h in qm'.objects && qm'.objects[h].dead.Ref?;
    var d := qm'.objects[h].dead.queue;
    BothConserved(qm'.objects[h].cfg, qm'.objects[d].cfg, Pair(qm', h), Pair(qm', d), log);
  }

  lemma BothConserved(cfg: Config, cfgD: Config, s: State, spare: State, log: PairLog)
    requires Both(cfg, cfgD, s, spare, log)
    ensures s.dead.Dlq?
    ensures multiset(AdmittedIn(log.main)) + multiset(log.direct)
            == multiset(Payloads(s.q.live)) + multiset(Payloads(s.dead.queue.live))
               + multiset(SettledIn(log.main)) + multiset(GoneIn(log.spare))
  {
    SettledOrBuried(log.main);
    Balance(multiset(AdmittedIn(log.main)), multiset(Payloads(s.q.live)), multiset(SettledIn(log.main)),
            multiset(BuriedIn(log.main)), multiset(log.direct), multiset(Payloads(spare.q.live)),
            multiset(GoneIn(log.spare)));
    hide AdmittedIn, GoneIn, BuriedIn, SettledIn, Ordered, Counted, Bounded, Payloads;
  }

  lemma Balance(admitted: multiset<Payload>, live: multiset<Payload>, settled: multiset<Payload>,
                moved: multiset<Payload>, direct: multiset<Payload>, spare: multiset<Payload>, gone: multiset<Payload>)
    ensures admitted == live + (settled + moved) && direct + moved == spare + gone ==>
              admitted + direct == live + spare + settled + gone
  {
    if admitted == live + (settled + moved) && direct + moved == spare + gone {
      assert admitted + direct == live + settled + (direct + moved);
    }
  }
}
