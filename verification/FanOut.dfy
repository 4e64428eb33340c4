/** The goroutines that deliver a submission to the queues of a routing list. Each looks
    its queue up, takes a spare node (a single message does so before it locks the queue)
    and appends under the queue's lock; the steps of different goroutines interleave freely. */
module FanOut {
  import opened Types
  import opened BrokerModel

  datatype Phase = Begin | Found(h: Handle) | Filled(h: Handle) | Finished

  /** The queues, how many spare nodes each has pooled, and where the goroutines stand. */
  datatype Fan = Fan(objects: map<Handle, QueueObject>, spare: map<Handle, nat>, pcs: seq<Phase>)

  function Target(qm: Manager, name: string): Option<Handle> {
    if name in qm.queues && qm.queues[name] in qm.objects then Some(qm.queues[name]) else None
  }

  function Less(n: nat, taken: nat): nat {
    if n > taken then n - taken else 0
  }

  /** The spare nodes left after a delivery to o. */
  function SpareAfter(o: QueueObject, spare: nat, d: Delivery): nat {
    match d
    case One(_, _) => Less(spare, 1)
    case Many(batch) => if o.q.amount >= o.cfg.cap then spare else Less(spare, |batch|)
  }

  /** One atomic step of goroutine i. */
  function Advance(qm: Manager, names: seq<string>, d: Delivery, f: Fan, i: nat): Fan
    requires i < |names| == |f.pcs|
  {
    match f.pcs[i]
    case Begin =>
      f.(pcs := f.pcs[i := if Target(qm, names[i]) == None then Finished else Found(Target(qm, names[i]).value)])
    case Found(h) =>
      if h !in f.objects || h !in f.spare then f
      else if d.One? then
        f.(spare := f.spare[h := Less(f.spare[h], 1)], pcs := f.pcs[i := Filled(h)])
      else
        Fan(f.objects[h := Deliver(f.objects[h], d)], f.spare[h := SpareAfter(f.objects[h], f.spare[h], d)],
            f.pcs[i := Finished])
    case Filled(h) =>
      if h !in f.objects then f
      else f.(objects := f.objects[h := Deliver(f.objects[h], d)], pcs := f.pcs[i := Finished])
    case Finished => f
  }

  /** The goroutines take their steps in the order of the schedule. */
  function Interleave(qm: Manager, names: seq<string>, d: Delivery, f: Fan, schedule: seq<nat>): Fan
    requires |f.pcs| == |names| && forall k | 0 <= k < |schedule| :: schedule[k] < |names|
    decreases |schedule|
  {
    if schedule == [] then f
    else
      var f' := Advance(qm, names, d, f, schedule[0]);
      assert forall k | 0 <= k < |schedule| - 1 :: schedule[1..][k] == schedule[k + 1];
      Interleave(qm, names, d, f', schedule[1..])
  }

  function Launch(qm: Manager, names: seq<string>, spare: map<Handle, nat>): Fan {
    Fan(qm.objects, spare, seq(|names|, _ => Begin))
  }

  predicate AllFinished(f: Fan) {
    forall i | 0 <= i < |f.pcs| :: f.pcs[i] == Finished
  }

  // ----- a queue after n deliveries

  function ObjectTimes(o: QueueObject, d: Delivery, n: nat): QueueObject {
    if n == 0 then o else Deliver(ObjectTimes(o, d, n - 1), d)
  }

  function SpareTimes(o: QueueObject, spare: nat, d: Delivery, n: nat): nat {
    if n == 0 then spare else SpareAfter(ObjectTimes(o, d, n - 1), SpareTimes(o, spare, d, n - 1), d)
  }

  /** The goroutines that have appended to the queue at h. */
  ghost function Appended(qm: Manager, names: seq<string>, pcs: seq<Phase>, h: Handle): set<nat>
    requires |names| == |pcs|
  {
    set i: nat | i < |names| && Target(qm, names[i]) == Some(h) && pcs[i] == Finished
  }

  /** The goroutines that have taken a spare node of the queue at h. */
  ghost function Took(qm: Manager, names: seq<string>, pcs: seq<Phase>, h: Handle): set<nat>
    requires |names| == |pcs|
  {
    set i: nat | i < |names| && Target(qm, names[i]) == Some(h) && HasTaken(pcs[i])
  }

  predicate HasTaken(p: Phase) {
    p == Finished || p.Filled?
  }

  ghost predicate DeliveredAt(qm: Manager, names: seq<string>, d: Delivery, spare: map<Handle, nat>, f: Fan, h: Handle)
    requires |f.pcs| == |names| && h in qm.objects && h in f.objects && h in spare && h in f.spare
  {
    && f.objects[h] == ObjectTimes(qm.objects[h], d, |Appended(qm, names, f.pcs, h)|)
    && f.spare[h] == SpareTimes(qm.objects[h], spare[h], d, |Took(qm, names, f.pcs, h)|)
  }

  /** A goroutine that has found its queue stands at the queue of its name. */
  ghost predicate Placed(qm: Manager, names: seq<string>, d: Delivery, f: Fan) {
    && |f.pcs| == |names|
    && forall i | 0 <= i < |names| ::
         && (f.pcs[i].Found? ==> Target(qm, names[i]) == Some(f.pcs[i].h))
         && (f.pcs[i].Filled? ==> Target(qm, names[i]) == Some(f.pcs[i].h) && d.One?)
  }

  /** Each queue has had one delivery for each goroutine that has appended to it. */
  ghost predicate Delivered(qm: Manager, names: seq<string>, d: Delivery, spare: map<Handle, nat>, f: Fan) {
    && Placed(qm, names, d, f)
    && f.objects.Keys == qm.objects.Keys && f.spare.Keys == spare.Keys == qm.objects.Keys
    && forall h | h in qm.objects :: DeliveredAt(qm, names, d, spare, f, h)
  }

  lemma AddMember(s: set<nat>, s': set<nat>, i: nat, b: bool)
    requires s' == s + if b then {i} else {}
    ensures |s'| == |s| + if b && i !in s then 1 else 0
  {
    if b && i in s {
      assert s' == s;
    }
  }

  lemma AppendedUpdate(qm: Manager, names: seq<string>, pcs: seq<Phase>, i: nat, p: Phase, h: Handle)
    requires |names| == |pcs| && i < |names| && (pcs[i] == Finished ==> p == Finished)
    ensures |Appended(qm, names, pcs[i := p], h)| == |Appended(qm, names, pcs, h)| +
              if Target(qm, names[i]) == Some(h) && p == Finished && pcs[i] != Finished then 1 else 0
  {
    hide Target;
    AddMember(Appended(qm, names, pcs, h), Appended(qm, names, pcs[i := p], h), i,
              Target(qm, names[i]) == Some(h) && p == Finished);
  }

  lemma TookUpdate(qm: Manager, names: seq<string>, pcs: seq<Phase>, i: nat, p: Phase, h: Handle)
    requires |names| == |pcs| && i < |names| && (HasTaken(pcs[i]) ==> HasTaken(p))
    ensures |Took(qm, names, pcs[i := p], h)| == |Took(qm, names, pcs, h)| +
              if Target(qm, names[i]) == Some(h) && HasTaken(p) && !HasTaken(pcs[i]) then 1 else 0
  {
    hide Target, HasTaken;
    AddMember(Took(qm, names, pcs, h), Took(qm, names, pcs[i := p], h), i,
              Target(qm, names[i]) == Some(h) && HasTaken(p));
  }

  /** How a step of goroutine i changes who has appended and who has taken a node. */
  lemma MembersStep(qm: Manager, names: seq<string>, d: Delivery, f: Fan, i: nat, h: Handle)
    requires Placed(qm, names, d, f) && i < |names|
    ensures var f' := Advance(qm, names, d, f, i);
      var mine := Target(qm, names[i]) == Some(h);
      && |f'.pcs| == |names|
      && |Appended(qm, names, f'.pcs, h)| == |Appended(qm, names, f.pcs, h)|
           + (if mine && f'.pcs[i] == Finished && f.pcs[i] != Finished then 1 else 0)
      && |Took(qm, names, f'.pcs, h)| == |Took(qm, names, f.pcs, h)|
           + (if mine && HasTaken(f'.pcs[i]) && !HasTaken(f.pcs[i]) then 1 else 0)
  {
    var f' := Advance(qm, names, d, f, i);
    assert f'.pcs == f.pcs[i := f'.pcs[i]];
    AppendedUpdate(qm, names, f.pcs, i, f'.pcs[i], h);
    TookUpdate(qm, names, f.pcs, i, f'.pcs[i], h);
    hide Appended, Took, Target;
  }

  lemma ManyTakesAsItAppends(qm: Manager, names: seq<string>, d: Delivery, f: Fan, h: Handle)
    requires Placed(qm, names, d, f) && d.Many?
    ensures Appended(qm, names, f.pcs, h) == Took(qm, names, f.pcs, h)
  {
  }

  lemma DeliveredStepAt(qm: Manager, names: seq<string>, d: Delivery, spare: map<Handle, nat>, f: Fan, i: nat,
                        h: Handle)
    requires Delivered(qm, names, d, spare, f) && i < |names| && h in qm.objects
    ensures var f' := Advance(qm, names, d, f, i);
      |f'.pcs| == |names| && h in f'.objects && h in f'.spare && DeliveredAt(qm, names, d, spare, f', h)
  {
    hide Appended, Took, Deliver, Target;
    MembersStep(qm, names, d, f, i, h);
    assert DeliveredAt(qm, names, d, spare, f, h);
    if d.Many? {
      ManyTakesAsItAppends(qm, names, d, f, h);
    }
  }

  lemma DeliveredStep(qm: Manager, names: seq<string>, d: Delivery, spare: map<Handle, nat>, f: Fan, i: nat)
    requires Delivered(qm, names, d, spare, f) && i < |names|
    ensures Delivered(qm, names, d, spare, Advance(qm, names, d, f, i))
  {
    var f' := Advance(qm, names, d, f, i);
    PlacedStep(qm, names, d, f, i);
    KeysStep(qm, names, d, f, i);
    hide Advance, DeliveredAt, Placed;
    forall h | h in qm.objects ensures h in f'.objects && h in f'.spare && DeliveredAt(qm, names, d, spare, f', h) {
      DeliveredStepAt(qm, names, d, spare, f, i, h);
    }
  }

  lemma KeysStep(qm: Manager, names: seq<string>, d: Delivery, f: Fan, i: nat)
    requires Placed(qm, names, d, f) && i < |names|
    ensures var f' := Advance(qm, names, d, f, i); f'.objects.Keys == f.objects.Keys && f'.spare.Keys == f.spare.Keys
  {
    hide Deliver, SpareAfter, Target;
  }

  lemma PlacedStep(qm: Manager, names: seq<string>, d: Delivery, f: Fan, i: nat)
    requires Placed(qm, names, d, f) && i < |names|
    ensures Placed(qm, names, d, Advance(qm, names, d, f, i))
  {
  }

  lemma {:induction false} DeliveredAlong(qm: Manager, names: seq<string>, d: Delivery, spare: map<Handle, nat>,
                                          f: Fan, schedule: seq<nat>)
    requires Delivered(qm, names, d, spare, f) && forall k | 0 <= k < |schedule| :: schedule[k] < |names|
    ensures Delivered(qm, names, d, spare, Interleave(qm, names, d, f, schedule))
    decreases |schedule|
  {
    if schedule != [] {
      DeliveredStep(qm, names, d, spare, f, schedule[0]);
      assert forall k | 0 <= k < |schedule| - 1 :: schedule[1..][k] == schedule[k + 1];
      DeliveredAlong(qm, names, d, spare, Advance(qm, names, d, f, schedule[0]), schedule[1..]);
    }
  }

  // ----- every complete schedule

  /** The goroutines bound to a queue, by the first k names. */
  ghost function Bound(qm: Manager, names: seq<string>, k: nat, h: Handle): set<nat>
    requires k <= |names|
  {
    set i: nat | i < k && Target(qm, names[i]) == Some(h)
  }

  lemma {:induction false} DeliverAllSnoc(qm: Manager, names: seq<string>, name: string, d: Delivery)
    ensures DeliverAll(qm, names + [name], d) == DeliverTo(DeliverAll(qm, names, d), name, d)
    decreases |names|
  {
    if names == [] {
      assert [name][1..] == [];
    } else {
      assert (names + [name])[1..] == names[1..] + [name];
      DeliverAllSnoc(DeliverTo(qm, names[0], d), names[1..], name, d);
    }
  }

  /** Delivering one after the other gives each queue one delivery for each of its names. */
  lemma {:induction false} DeliverAllCounts(qm: Manager, names: seq<string>, d: Delivery, k: nat)
    requires k <= |names|
    ensures var r := DeliverAll(qm, names[..k], d);
      && r.queues == qm.queues && r.next == qm.next && r.nodeTTL == qm.nodeTTL
      && r.objects.Keys == qm.objects.Keys
      && forall h | h in qm.objects :: r.objects[h] == ObjectTimes(qm.objects[h], d, |Bound(qm, names, k, h)|)
  {
    if k == 0 {
      forall h ensures Bound(qm, names, 0, h) == {} {
      }
    } else {
      DeliverAllCounts(qm, names, d, k - 1);
      DeliverAllSnoc(qm, names[..k - 1], names[k - 1], d);
      assert names[..k] == names[..k - 1] + [names[k - 1]];
      hide DeliverAll, Deliver;
      forall h | h in qm.objects
        ensures |Bound(qm, names, k, h)| ==
                |Bound(qm, names, k - 1, h)| + if Target(qm, names[k - 1]) == Some(h) then 1 else 0
      {
        BoundMore(qm, names, k - 1, h);
      }
      hide Bound;
    }
  }

  lemma BoundMore(qm: Manager, names: seq<string>, k: nat, h: Handle)
    requires k < |names|
    ensures |Bound(qm, names, k + 1, h)| ==
            |Bound(qm, names, k, h)| + if Target(qm, names[k]) == Some(h) then 1 else 0
  {
    hide Target;
    AddMember(Bound(qm, names, k, h), Bound(qm, names, k + 1, h), k, Target(qm, names[k]) == Some(h));
  }

  /** However the goroutines of a submission interleave, with missing queues, full queues and
      queues bound more than once, once all have finished every queue is as if they had run one
      after the other, and so is the number of its spare nodes. */
  lemma FanOutConfluent(qm: Manager, names: seq<string>, d: Delivery, spare: map<Handle, nat>, schedule: seq<nat>)
    requires spare.Keys == qm.objects.Keys && forall k | 0 <= k < |schedule| :: schedule[k] < |names|
    requires AllFinished(Interleave(qm, names, d, Launch(qm, names, spare), schedule))
    ensures var f := Interleave(qm, names, d, Launch(qm, names, spare), schedule);
      && qm.(objects := f.objects) == DeliverAll(qm, names, d)
      && f.spare.Keys == qm.objects.Keys
      && forall h | h in qm.objects ::
           f.spare[h] == SpareTimes(qm.objects[h], spare[h], d, |Bound(qm, names, |names|, h)|)
  {
    var start := Launch(qm, names, spare);
    hide Interleave, DeliverAll, Delivered, AllFinished, Bound, ObjectTimes, SpareTimes;
    LaunchDelivered(qm, names, d, spare);
    DeliveredAlong(qm, names, d, spare, start, schedule);
    var f := Interleave(qm, names, d, start, schedule);
    DeliverAllCounts(qm, names, d, |names|);
    assert names[..|names|] == names;
    FinishedFits(qm, names, d, spare, f);
    assert f.objects == DeliverAll(qm, names, d).objects;
  }

  lemma LaunchDelivered(qm: Manager, names: seq<string>, d: Delivery, spare: map<Handle, nat>)
    requires spare.Keys == qm.objects.Keys
    ensures Delivered(qm, names, d, spare, Launch(qm, names, spare))
  {
    var start := Launch(qm, names, spare);
    hide Target;
    forall h | h in qm.objects ensures DeliveredAt(qm, names, d, spare, start, h) {
      assert Appended(qm, names, start.pcs, h) == {} && Took(qm, names, start.pcs, h) == {};
    }
  }

  lemma FinishedFits(qm: Manager, names: seq<string>, d: Delivery, spare: map<Handle, nat>, f: Fan)
    requires Delivered(qm, names, d, spare, f) && AllFinished(f)
    ensures f.objects.Keys == qm.objects.Keys == f.spare.Keys
    ensures forall h | h in qm.objects ::
      var n := |Bound(qm, names, |names|, h)|;
      f.objects[h] == ObjectTimes(qm.objects[h], d, n) && f.spare[h] == SpareTimes(qm.objects[h], spare[h], d, n)
  {
    hide Target;
    forall h | h in qm.objects
      ensures var n := |Bound(qm, names, |names|, h)|;
        f.objects[h] == ObjectTimes(qm.objects[h], d, n) && f.spare[h] == SpareTimes(qm.objects[h], spare[h], d, n)
    {
      assert DeliveredAt(qm, names, d, spare, f, h);
      assert Appended(qm, names, f.pcs, h) == Bound(qm, names, |names|, h);
      assert Took(qm, names, f.pcs, h) == Bound(qm, names, |names|, h);
    }
  }

  /** Some schedule in which every goroutine finishes; the theorem above is not vacuous. */
  lemma {:induction false} CompleteScheduleExists(qm: Manager, names: seq<string>, d: Delivery, f: Fan, k: nat)
    returns (schedule: seq<nat>)
    requires |f.pcs| == |names| && k <= |names| && Placed(qm, names, d, f)
    requires f.objects.Keys == f.spare.Keys == qm.objects.Keys
    requires forall i | 0 <= i < k :: f.pcs[i] == Finished
    ensures forall j | 0 <= j < |schedule| :: schedule[j] < |names|
    ensures AllFinished(Interleave(qm, names, d, f, schedule))
    decreases |names| - k
  {
    if k == |names| {
      schedule := [];
    } else {
      hide Advance, Placed, Interleave;
      var f1 := Advance(qm, names, d, f, k);
      var f2 := Advance(qm, names, d, f1, k);
      var f3 := Advance(qm, names, d, f2, k);
      ThreeSteps(qm, names, d, f, k);
      var rest := CompleteScheduleExists(qm, names, d, f3, k + 1);
      schedule := [k, k, k] + rest;
      InterleaveCons(qm, names, d, f2, k, rest);
      InterleaveCons(qm, names, d, f1, k, [k] + rest);
      InterleaveCons(qm, names, d, f, k, [k] + ([k] + rest));
      assert schedule == [k] + ([k] + ([k] + rest));
    }
  }

  lemma InterleaveCons(qm: Manager, names: seq<string>, d: Delivery, f: Fan, k: nat, rest: seq<nat>)
    requires |f.pcs| == |names| && k < |names| && forall j | 0 <= j < |rest| :: rest[j] < |names|
    ensures forall j | 0 <= j < |[k] + rest| :: ([k] + rest)[j] < |names|
    ensures |Advance(qm, names, d, f, k).pcs| == |names|
    ensures Interleave(qm, names, d, f, [k] + rest) == Interleave(qm, names, d, Advance(qm, names, d, f, k), rest)
  {
    assert ([k] + rest)[1..] == rest;
  }

  /** Three steps of a goroutine finish it. */
  lemma ThreeSteps(qm: Manager, names: seq<string>, d: Delivery, f: Fan, k: nat)
    requires Placed(qm, names, d, f) && k < |names|
    requires f.objects.Keys == f.spare.Keys == qm.objects.Keys
    ensures
      var f1 := Advance(qm, names, d, f, k);
      && |f.pcs| == |f1.pcs| == |names|
      && var f2 := Advance(qm, names, d, f1, k);
      && |f2.pcs| == |names|
      && var f3 := Advance(qm, names, d, f2, k);
      && |f3.pcs| == |names| && Placed(qm, names, d, f3) && f3.objects.Keys == f3.spare.Keys == qm.objects.Keys
      && f3.pcs[k] == Finished && forall i | 0 <= i < |names| && i != k :: f3.pcs[i] == f.pcs[i]
  {
    hide Advance, Placed;
    StepOf(qm, names, d, f, k);
    var f1 := Advance(qm, names, d, f, k);
    StepOf(qm, names, d, f1, k);
    var f2 := Advance(qm, names, d, f1, k);
    StepOf(qm, names, d, f2, k);
  }

  lemma StepOf(qm: Manager, names: seq<string>, d: Delivery, f: Fan, k: nat)
    requires Placed(qm, names, d, f) && k < |names|
    requires f.objects.Keys == f.spare.Keys == qm.objects.Keys
    ensures |f.pcs| == |names|
    ensures var f' := Advance(qm, names, d, f, k);
      && |f'.pcs| == |names| && Placed(qm, names, d, f') && f'.objects.Keys == f'.spare.Keys == qm.objects.Keys
      && (f.pcs[k] == Finished || Left(f'.pcs[k]) < Left(f.pcs[k]))
      && (f.pcs[k] == Finished ==> f' == f)
      && forall i | 0 <= i < |names| && i != k :: f'.pcs[i] == f.pcs[i]
  {
    PlacedStep(qm, names, d, f, k);
  }

  // ----- termination

  function Left(p: Phase): nat {
    match p
    case Begin => 3
    case Found(_) => 2
    case Filled(_) => 1
    case Finished => 0
  }

  /** The steps that goroutines may still take. */
  function Remaining(pcs: seq<Phase>): nat {
    if pcs == [] then 0 else Left(pcs[0]) + Remaining(pcs[1..])
  }

  lemma {:induction false} RemainingUpdate(pcs: seq<Phase>, i: nat, p: Phase)
    requires i < |pcs|
    ensures Remaining(pcs[i := p]) == Remaining(pcs) - Left(pcs[i]) + Left(p)
  {
    if i == 0 {
      assert pcs[i := p][1..] == pcs[1..];
    } else {
      assert pcs[i := p][1..] == pcs[1..][i - 1 := p];
      RemainingUpdate(pcs[1..], i - 1, p);
    }
  }

  /** Every step of an unfinished goroutine brings the end nearer. */
  lemma StepProgresses(qm: Manager, names: seq<string>, d: Delivery, spare: map<Handle, nat>, f: Fan, i: nat)
    requires Delivered(qm, names, d, spare, f) && i < |names| && f.pcs[i] != Finished
    ensures Remaining(Advance(qm, names, d, f, i).pcs) < Remaining(f.pcs)
  {
    hide Remaining, DeliveredAt, Advance, Placed;
    StepOf(qm, names, d, f, i);
    var f' := Advance(qm, names, d, f, i);
    assert f'.pcs == f.pcs[i := f'.pcs[i]];
    RemainingUpdate(f.pcs, i, f'.pcs[i]);
  }
}
