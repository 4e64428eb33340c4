/** The batcher as a system of atomic steps: one sender at a time reserves a slot and waits, one
    loop stores what was sent and flushes full batches, another flushes when the timer fires. The two
    loops exclude each other by a lock that the sender does not take. */
module BatcherModel {
  import opened Types
  import opened FsmModel
  import opened FsmLaws

  /** What is buffered in an output channel; nil results are None. Channels have room for one. */
  type Channel = seq<Option<Result>>

  /** Where the sender is that holds the lock: it has picked its slot, read the index again,
      advanced it and sent its data, or waits no more and is about to return. */
  datatype Sender =
    | Idle
    | Picked(e: Entry, at: nat)
    | Reread(e: Entry, at: nat, seen: nat)
    | Sent(e: Entry, at: nat)
    | Stored(at: nat)

  /** Where the loop of the timer is: it holds the lock once it has found the first slot filled and read
      the index, which it has yet to reset. */
  datatype Timer = Waits | Looked(seen: nat)

  datatype Flush = Flush(datas: seq<Entry>, chans: seq<Channel>)

  /** Slots without data are Empty. Each flush leaves fresh channels behind. */
  datatype Batcher = Batcher(next: nat, slots: seq<Entry>, sender: Sender, timer: Timer, log: seq<Flush>)

  /** How applying a batch ended: with an error or something that is no list of results, or with results. */
  datatype Answer = Failed | Results(rs: seq<Result>)

  datatype Event = Pick(e: Entry) | Reread | Send | Store(answer: Answer) | Return | Look | Tick(answer: Answer)

  function Blank(n: nat): (r: seq<Entry>)
    ensures |r| == n && forall i | 0 <= i < n :: r[i] == Empty
  {
    seq(n, i => Empty)
  }

  function Start(n: nat): Batcher {
    Batcher(0, Blank(n), Idle, Waits, [])
  }

  /** What the channels of a batch receive. */
  function Received(n: nat, datas: seq<Entry>, answer: Answer): (r: seq<Channel>)
    ensures |r| == n
  {
    match answer
    case Failed => seq(n, i => if i < |datas| then [None] else [])
    case Results(rs) => seq(n, i => if 0 <= i < |rs| then [Some(rs[i])] else [])
  }

  /** The batch that a flush would take. */
  function Due(n: nat, b: Batcher, ev: Event): seq<Entry>
    requires |b.slots| == n
  {
    if ev.Store? && b.sender.Sent? && b.sender.at < n then b.slots[b.sender.at := b.sender.e]
    else if b.timer.Looked? && b.timer.seen <= n then b.slots[..b.timer.seen]
    else []
  }

  predicate Shaped(n: nat, b: Batcher) {
    && |b.slots| == n > b.next
    && (b.sender.Idle? || b.sender.at < n)
    && (b.sender.Picked? || b.sender.Reread? || b.sender.Sent? ==> !b.sender.e.Empty?)
    && (b.sender.Reread? ==> b.sender.seen < n)
    && (b.timer.Looked? ==> b.timer.seen < n)
  }

  /** Sent data are not empty, and applying gives as many results as there are commands. */
  predicate Enabled(n: nat, b: Batcher, ev: Event)
    requires Shaped(n, b)
  {
    match ev
    case Pick(e) => b.sender.Idle? && !e.Empty?
    case Reread => b.sender.Picked?
    case Send => b.sender.Reread?
    case Store(answer) =>
      b.sender.Sent? && b.timer.Waits? && (answer.Results? ==> |answer.rs| == |Commands(Due(n, b, ev))|)
    case Return => b.sender.Stored?
    case Look => b.timer.Waits?
    case Tick(answer) => b.timer.Looked? && (answer.Results? ==> |answer.rs| == |Commands(Due(n, b, ev))|)
  }

  function Flushed(n: nat, b: Batcher, datas: seq<Entry>, sender: Sender, answer: Answer): Batcher {
    Batcher(0, Blank(n), sender, Waits, b.log + [Flush(datas, Received(n, datas, answer))])
  }

  function Step(n: nat, b: Batcher, ev: Event): Batcher
    requires Shaped(n, b) && Enabled(n, b, ev)
  {
    match ev
    case Pick(e) => b.(sender := Picked(e, b.next))
    case Reread => b.(sender := Sender.Reread(b.sender.e, b.sender.at, b.next))
    case Send => b.(sender := Sent(b.sender.e, b.sender.at), next := (b.sender.seen + 1) % n)
    case Store(answer) =>
      var slots, sender := b.slots[b.sender.at := b.sender.e], Stored(b.sender.at);
      if b.sender.at != n - 1 then b.(slots := slots, sender := sender)
      else Flushed(n, b, slots, sender, answer)
    case Return => b.(sender := Idle)
    case Look => if b.slots[0].Empty? then b else b.(timer := Looked(b.next))
    case Tick(answer) => Flushed(n, b, b.slots[..b.timer.seen], b.sender, answer)
  }

  /** The states of a run. */
  ghost predicate Trace(n: nat, bs: seq<Batcher>, evs: seq<Event>) {
    && |bs| == |evs| + 1 && bs[0] == Start(n)
    && forall i | 0 <= i < |evs| :: Moves(n, bs[i], evs[i], bs[i + 1])
  }

  ghost predicate Moves(n: nat, b: Batcher, ev: Event, b': Batcher) {
    Shaped(n, b) && Enabled(n, b, ev) && b' == Step(n, b, ev)
  }

  /** A slot is reserved whose data are not stored yet. */
  predicate Reserved(b: Batcher) {
    b.sender.Picked? || b.sender.Reread? || b.sender.Sent?
  }

  /** The timer resets the index and flushes between a reservation and its store. */
  predicate Disturbs(b: Batcher, ev: Event) {
    ev.Tick? && Reserved(b)
  }

  /** Exactly the first k slots are filled. */
  predicate FilledTo(slots: seq<Entry>, k: nat) {
    k <= |slots| && forall i | 0 <= i < |slots| :: slots[i].Empty? <==> i >= k
  }

  predicate Whole(datas: seq<Entry>) {
    datas != [] && forall i | 0 <= i < |datas| :: !datas[i].Empty?
  }

  /** Every batch flushed so far is whole, and with no reservation open the filled slots are
      exactly those before the next free one. */
  predicate Settled(b: Batcher) {
    && (forall i | 0 <= i < |b.log| :: Whole(b.log[i].datas))
    && (!Reserved(b) ==> FilledTo(b.slots, b.next))
  }

  /** The first channels have received one value each, the others nothing. */
  predicate Delivered(n: nat, f: Flush) {
    |f.chans| == n >= |f.datas| && forall i | 0 <= i < n :: |f.chans[i]| == if i < |f.datas| then 1 else 0
  }

  // ----- without disturbance

  lemma {:induction false} WholeHasAll(datas: seq<Entry>)
    requires forall i | 0 <= i < |datas| :: !datas[i].Empty?
    ensures Commands(datas) == datas
  {
    if datas != [] {
      WholeHasAll(datas[1..]);
    }
  }

  lemma WholeIsDelivered(n: nat, datas: seq<Entry>, answer: Answer)
    requires Whole(datas) && |datas| <= n && (answer.Results? ==> |answer.rs| == |Commands(datas)|)
    ensures Delivered(n, Flush(datas, Received(n, datas, answer)))
  {
    WholeHasAll(datas);
  }

  /** What holds at every point of an undisturbed run. */
  predicate Tidy(n: nat, b: Batcher) {
    && Shaped(n, b) && Settled(b) && (forall i | 0 <= i < |b.log| :: Delivered(n, b.log[i]))
    && (b.sender.Picked? ==> b.sender.at == b.next && FilledTo(b.slots, b.next))
    && (b.sender.Reread? ==> b.sender.at == b.sender.seen == b.next && FilledTo(b.slots, b.next))
    && (b.sender.Sent? ==> b.next == (b.sender.at + 1) % n && FilledTo(b.slots, b.sender.at))
    && (b.timer.Looked? ==> !b.slots[0].Empty? && (!Reserved(b) ==> b.timer.seen == b.next))
  }

  lemma NextSlot(n: nat, at: nat)
    requires at < n
    ensures (at + 1) % n == if at == n - 1 then 0 else at + 1
  {
  }

  lemma TidyStep(n: nat, b: Batcher, ev: Event)
    requires Tidy(n, b) && Enabled(n, b, ev) && !Disturbs(b, ev)
    ensures Tidy(n, Step(n, b, ev))
  {
    hide Received, Delivered;
    if ev.Send? {
      NextSlot(n, b.sender.seen);
    } else if ev.Store? {
      NextSlot(n, b.sender.at);
      if b.sender.at == n - 1 {
        WholeIsDelivered(n, Due(n, b, ev), ev.answer);
      }
    } else if ev.Tick? {
      WholeIsDelivered(n, Due(n, b, ev), ev.answer);
    }
  }

  lemma {:induction false} TidyTo(n: nat, bs: seq<Batcher>, evs: seq<Event>, k: nat)
    requires n > 0 && Trace(n, bs, evs) && k <= |evs|
    requires forall i | 0 <= i < k :: !Disturbs(bs[i], evs[i])
    ensures Tidy(n, bs[k])
  {
    if k > 0 {
      TidyTo(n, bs, evs, k - 1);
      hide Tidy, Enabled, Step, Disturbs;
      assert Moves(n, bs[k - 1], evs[k - 1], bs[k]);
      TidyStep(n, bs[k - 1], evs[k - 1]);
    }
  }

  /** The commands that have been stored so far, in order. */
  function StoredIn(bs: seq<Batcher>, evs: seq<Event>, k: nat): seq<Entry>
    requires k <= |evs| <= |bs|
  {
    if k == 0 then []
    else StoredIn(bs, evs, k - 1) + if evs[k - 1].Store? && bs[k - 1].sender.Sent? then [bs[k - 1].sender.e] else []
  }

  /** The commands of the batches, one batch after the other. */
  function Batches(log: seq<Flush>): seq<Entry> {
    if log == [] then [] else Batches(log[..|log| - 1]) + log[|log| - 1].datas
  }

  /** The commands stored and not flushed. */
  function Waiting(b: Batcher): seq<Entry>
    requires b.next <= |b.slots| && (b.sender.Sent? ==> b.sender.at <= |b.slots|)
  {
    b.slots[..if b.sender.Sent? then b.sender.at else b.next]
  }

  lemma HandedOn(n: nat, b: Batcher, ev: Event)
    requires Tidy(n, b) && Enabled(n, b, ev) && !Disturbs(b, ev)
    ensures Tidy(n, Step(n, b, ev))
    ensures Batches(Step(n, b, ev).log) + Waiting(Step(n, b, ev)) ==
            Batches(b.log) + Waiting(b) + if ev.Store? then [b.sender.e] else []
  {
    TidyStep(n, b, ev);
    hide Tidy, Batches, Waiting, Step, Enabled;
    if ev.Store? {
      StoreHandsOn(n, b, ev);
    } else if ev.Tick? {
      TickHandsOn(n, b, ev);
    } else {
      OthersHandOn(n, b, ev);
    }
  }

  lemma StoreHandsOn(n: nat, b: Batcher, ev: Event)
    requires Tidy(n, b) && Enabled(n, b, ev) && ev.Store? && Tidy(n, Step(n, b, ev))
    ensures Batches(Step(n, b, ev).log) + Waiting(Step(n, b, ev)) == Batches(b.log) + Waiting(b) + [b.sender.e]
  {
    hide Received, Delivered, Settled, FilledTo;
    var b', at := Step(n, b, ev), b.sender.at;
    NextSlot(n, at);
    Stores(b.slots, at, b.sender.e);
    if at == n - 1 {
      assert b'.log[..|b.log|] == b.log;
      assert b.slots[at := b.sender.e][..n] == b.slots[at := b.sender.e];
    }
    hide Batches;
  }

  lemma Stores(slots: seq<Entry>, at: nat, e: Entry)
    requires at < |slots|
    ensures slots[at := e][..at + 1] == slots[..at] + [e]
  {
  }

  lemma TickHandsOn(n: nat, b: Batcher, ev: Event)
    requires Tidy(n, b) && Enabled(n, b, ev) && ev.Tick? && !Disturbs(b, ev) && Tidy(n, Step(n, b, ev))
    ensures Batches(Step(n, b, ev).log) + Waiting(Step(n, b, ev)) == Batches(b.log) + Waiting(b)
  {
    hide Received, Delivered, Settled, FilledTo;
    assert Step(n, b, ev).log[..|b.log|] == b.log;
  }

  lemma OthersHandOn(n: nat, b: Batcher, ev: Event)
    requires Tidy(n, b) && Enabled(n, b, ev) && !ev.Store? && !ev.Tick? && Tidy(n, Step(n, b, ev))
    ensures Batches(Step(n, b, ev).log) + Waiting(Step(n, b, ev)) == Batches(b.log) + Waiting(b)
  {
    hide Received, Delivered, Settled, FilledTo, Batches;
    if ev.Send? {
      NextSlot(n, b.sender.seen);
    }
  }

  /** Along an undisturbed run the batches and what waits in the slots are together the commands
      that were sent, each once and in the order of sending; each channel of a batch has received
      one value and the channels beyond it none. */
  lemma {:induction false} CommandsHandedOn(n: nat, bs: seq<Batcher>, evs: seq<Event>, k: nat)
    requires n > 0 && Trace(n, bs, evs) && k <= |evs|
    requires forall i | 0 <= i < k :: !Disturbs(bs[i], evs[i])
    ensures Tidy(n, bs[k])
    ensures Batches(bs[k].log) + Waiting(bs[k]) == StoredIn(bs, evs, k)
    ensures forall i | 0 <= i < |bs[k].log| :: Whole(bs[k].log[i].datas) && Delivered(n, bs[k].log[i])
  {
    hide Whole, Delivered;
    if k > 0 {
      CommandsHandedOn(n, bs, evs, k - 1);
      hide Tidy, Step, Disturbs, Batches, Waiting;
      assert Moves(n, bs[k - 1], evs[k - 1], bs[k]);
      TidyTo(n, bs, evs, k);
      HandedOn(n, bs[k - 1], evs[k - 1]);
    }
  }

  // ----- after a disturbance

  /** A reservation is open for a slot other than the first while no slot is filled. */
  predicate Doomed(n: nat, b: Batcher) {
    Shaped(n, b) && Reserved(b) && b.sender.at > 0 && FilledTo(b.slots, 0) && b.timer.Waits?
  }

  lemma DisturbedIsDoomed(n: nat, b: Batcher, ev: Event)
    requires Tidy(n, b) && Enabled(n, b, ev) && Disturbs(b, ev)
    ensures Doomed(n, Step(n, b, ev))
  {
    hide Received;
  }

  /** Nothing but the store ends the reservation, and the store leaves a gap before its slot. */
  lemma DoomedStep(n: nat, b: Batcher, ev: Event)
    requires Doomed(n, b) && Enabled(n, b, ev)
    ensures Doomed(n, Step(n, b, ev)) || !Settled(Step(n, b, ev))
  {
    hide Received;
    var b' := Step(n, b, ev);
    if ev.Store? {
      if b.sender.at == n - 1 {
        assert b'.log[|b.log|].datas[0].Empty?;
      } else {
        assert b'.slots[0].Empty? && !b'.slots[b.sender.at].Empty?;
      }
    }
  }

  lemma {:induction false} DoomedUntil(n: nat, bs: seq<Batcher>, evs: seq<Event>, k: nat, m: nat)
    requires Trace(n, bs, evs) && k <= m <= |evs| && Doomed(n, bs[k])
    ensures Doomed(n, bs[m]) || exists i :: k <= i <= m && !Settled(bs[i])
  {
    hide Doomed, Enabled, Settled, Step;
    if k < m {
      DoomedUntil(n, bs, evs, k, m - 1);
      assert Moves(n, bs[m - 1], evs[m - 1], bs[m]);
      if Doomed(n, bs[m - 1]) {
        DoomedStep(n, bs[m - 1], evs[m - 1]);
      }
    }
  }

  lemma {:induction false} FirstDisturbance(bs: seq<Batcher>, evs: seq<Event>, k: nat) returns (i: nat)
    requires |bs| == |evs| + 1 && k < |evs| && Disturbs(bs[k], evs[k])
    ensures i <= k && Disturbs(bs[i], evs[i]) && forall j | 0 <= j < i :: !Disturbs(bs[j], evs[j])
  {
    hide Disturbs;
    i := 0;
    while !Disturbs(bs[i], evs[i])
      invariant i <= k && forall j | 0 <= j < i :: !Disturbs(bs[j], evs[j])
      decreases k - i
    {
      i := i + 1;
    }
  }

  /** In every run that ends with no reservation open: all batches are whole and the filled slots
      are always those before the next free one, exactly when the timer never flushes between a
      reservation and its store. */
  lemma AlignedIff(n: nat, bs: seq<Batcher>, evs: seq<Event>)
    requires n > 0 && Trace(n, bs, evs) && !Reserved(bs[|evs|])
    ensures (forall i | 0 <= i <= |evs| :: Settled(bs[i])) <==> (forall i | 0 <= i < |evs| :: !Disturbs(bs[i], evs[i]))
  {
    hide Settled, Disturbs, Enabled, Step;
    if forall i | 0 <= i < |evs| :: !Disturbs(bs[i], evs[i]) {
      forall i | 0 <= i <= |evs| ensures Settled(bs[i]) {
        TidyTo(n, bs, evs, i);
      }
    } else {
      var k: nat :| k < |evs| && Disturbs(bs[k], evs[k]);
      var i := FirstDisturbance(bs, evs, k);
      TidyTo(n, bs, evs, i);
      hide Tidy;
      assert Moves(n, bs[i], evs[i], bs[i + 1]);
      DisturbedIsDoomed(n, bs[i], evs[i]);
      DoomedUntil(n, bs, evs, i + 1, |evs|);
    }
  }

  // ----- channels

  lemma {:induction false} CommandsCount(datas: seq<Entry>)
    ensures |Commands(datas)| <= |datas|
    ensures |Commands(datas)| == |datas| <==> forall i | 0 <= i < |datas| :: !datas[i].Empty?
  {
    if datas != [] {
      CommandsCount(datas[1..]);
      assert forall i | 1 <= i < |datas| :: datas[i] == datas[1..][i - 1];
      assert forall i | 0 <= i < |datas[1..]| :: datas[1..][i] == datas[i + 1];
    }
  }

  /** The result of the command in slot k goes to one channel, once; it is channel k exactly when
      no slot before is empty. */
  lemma ResultReaches(n: nat, s: System, datas: seq<Entry>, out: (System, seq<Result>), k: nat)
    returns (before: (System, seq<Result>), after: (System, seq<Result>))
    requires ApplyMay(s, datas, out) && !out.0.halted && k < |datas| <= n && !datas[k].Empty?
    ensures ApplyMay(s, datas[..k], before) && EntryMay(before.0, datas[k], after)
    ensures var j := |Commands(datas[..k])|;
      && j < n && |after.1| == 1
      && Received(n, datas, Results(out.1))[j] == [Some(after.1[0])]
      && (j == k <==> forall i | 0 <= i < k :: !datas[i].Empty?)
  {
    hide ApplyMay, EntryMay, Commands;
    before, after := ResultAt(s, datas, out, k);
    CommandsCount(datas[..k]);
    assert forall i | 0 <= i < k :: datas[..k][i] == datas[i];
  }

  // ----- from the sender to the state machine

  function LogsOf(log: seq<Flush>): seq<Log>
    decreases |log|
  {
    if log == [] then [] else LogsOf(log[..|log| - 1]) + [Data(log[|log| - 1].datas)]
  }

  lemma {:induction false} FlatJoin(logs: seq<Log>, log: Log)
    ensures Flat(logs + [log]) == Flat(logs) + Entries(log)
    decreases |logs|
  {
    if logs == [] {
      assert logs + [log] == [log] && [log][1..] == [];
    } else {
      FlatJoin(logs[1..], log);
      assert (logs + [log])[1..] == logs[1..] + [log];
    }
  }

  lemma {:induction false} BatchesAreFlat(log: seq<Flush>)
    ensures Flat(LogsOf(log)) == Batches(log)
    decreases |log|
  {
    if log != [] {
      var before := log[..|log| - 1];
      BatchesAreFlat(before);
      FlatJoin(LogsOf(before), Data(log[|log| - 1].datas));
    }
  }

  /** Applying the batches of an undisturbed run may end exactly as applying the commands sent, one
      by one in the order of sending, up to those that still wait in the slots. */
  lemma BatchedAsSent(n: nat, bs: seq<Batcher>, evs: seq<Event>, k: nat, s: System, out: (System, seq<Result>))
    requires n > 0 && Trace(n, bs, evs) && k <= |evs|
    requires forall i | 0 <= i < k :: !Disturbs(bs[i], evs[i])
    ensures var sent, flushed := StoredIn(bs, evs, k), |Batches(bs[k].log)|;
      && flushed <= |sent|
      && (RunMay(s, LogsOf(bs[k].log), out) <==> ApplyMay(s, sent[..flushed], out))
  {
    CommandsHandedOn(n, bs, evs, k);
    hide ApplyMay, RunMay, Tidy, Step, Disturbs, Whole, Delivered, StoredIn;
    BatchesAreFlat(bs[k].log);
    RunIsFlat(s, LogsOf(bs[k].log), out);
    assert StoredIn(bs, evs, k)[..|Batches(bs[k].log)|] == Batches(bs[k].log);
  }

  // ----- which channel the caller is given

  /** A batch has the number of batches before it. The caller whose data were stored at step i and
      that returns at step m is given a channel of its own batch exactly when its slot was not the
      last and the timer flushed nothing in between; otherwise the channels have been replaced. */
  lemma {:induction false} OwnChannelIff(n: nat, bs: seq<Batcher>, evs: seq<Event>, i: nat, m: nat)
    requires Trace(n, bs, evs) && i < m <= |evs| && evs[i].Store?
    requires forall j | i < j < m :: !evs[j].Return?
    ensures bs[i].sender.Sent? && bs[m].sender == Stored(bs[i].sender.at)
    ensures |bs[m].log| >= |bs[i].log|
    ensures |bs[m].log| == |bs[i].log| <==> bs[i].sender.at != n - 1 && forall j | i < j < m :: !evs[j].Tick?
  {
    hide Received;
    assert Moves(n, bs[m - 1], evs[m - 1], bs[m]);
    if m > i + 1 {
      OwnChannelIff(n, bs, evs, i, m - 1);
    }
  }

  // ----- what the channels hold

  /** A batch that the machine was applied to, with its results in the channels; or one whose
      application failed, with nil in each channel and the machine as it was. */
  ghost predicate Answered(n: nat, s: System, f: Flush, s': System) {
    || (s' == s && f.chans == Received(n, f.datas, Failed))
    || exists rs :: AnsweredWith(n, s, f, s', rs)
  }

  ghost predicate AnsweredWith(n: nat, s: System, f: Flush, s': System, rs: seq<Result>) {
    ApplyMay(s, f.datas, (s', rs)) && !s'.halted && f.chans == Received(n, f.datas, Results(rs))
  }

  /** A step of the batcher together with the machine that applies its batches. */
  ghost predicate Together(n: nat, b: Batcher, s: System, ev: Event, b': Batcher, s': System) {
    && Moves(n, b, ev, b')
    && if |b'.log| == |b.log| then s' == s else |b'.log| == |b.log| + 1 && Answered(n, s, b'.log[|b.log|], s')
  }

  ghost predicate JointRun(n: nat, bs: seq<Batcher>, ss: seq<System>, evs: seq<Event>) {
    && |bs| == |ss| == |evs| + 1 && bs[0] == Start(n)
    && forall i | 0 <= i < |evs| :: Together(n, bs[i], ss[i], evs[i], bs[i + 1], ss[i + 1])
  }

  /** The machine is where applying the batches one after the other has led it. */
  ghost predicate Reached(n: nat, s0: System, log: seq<Flush>, s: System)
    decreases |log|
  {
    if log == [] then s == s0
    else exists mid :: Reached(n, s0, Earlier(log), mid) && Answered(n, mid, Last(log), s)
  }

  function Earlier(log: seq<Flush>): (r: seq<Flush>)
    requires log != []
    ensures |r| == |log| - 1
  {
    log[..|log| - 1]
  }

  function Last(log: seq<Flush>): Flush
    requires log != []
  {
    log[|log| - 1]
  }

  lemma JointIsTrace(n: nat, bs: seq<Batcher>, ss: seq<System>, evs: seq<Event>)
    requires JointRun(n, bs, ss, evs)
    ensures Trace(n, bs, evs)
  {
    hide Moves, Answered;
    forall i | 0 <= i < |evs| ensures Moves(n, bs[i], evs[i], bs[i + 1]) {
      assert Together(n, bs[i], ss[i], evs[i], bs[i + 1], ss[i + 1]);
    }
  }

  lemma LogExtends(n: nat, b: Batcher, ev: Event, b': Batcher)
    requires Moves(n, b, ev, b')
    ensures |b.log| <= |b'.log| <= |b.log| + 1 && b'.log[..|b.log|] == b.log
  {
    hide Received;
  }

  lemma {:induction false} ReachedAlong(n: nat, bs: seq<Batcher>, ss: seq<System>, evs: seq<Event>, k: nat)
    requires JointRun(n, bs, ss, evs) && k <= |evs|
    ensures Reached(n, ss[0], bs[k].log, ss[k])
  {
    hide Moves, Answered;
    if k > 0 {
      ReachedAlong(n, bs, ss, evs, k - 1);
      assert Together(n, bs[k - 1], ss[k - 1], evs[k - 1], bs[k], ss[k]);
      LogExtends(n, bs[k - 1], evs[k - 1], bs[k]);
      assert if |bs[k].log| == |bs[k - 1].log| then bs[k].log == bs[k - 1].log else Earlier(bs[k].log) == bs[k - 1].log;
    }
  }

  lemma {:induction false} ReachedBefore(n: nat, s0: System, log: seq<Flush>, s: System, j: nat)
    returns (mid: System, next: System)
    requires Reached(n, s0, log, s) && j < |log|
    ensures Reached(n, s0, log[..j], mid) && Answered(n, mid, log[j], next)
    decreases |log|
  {
    hide Answered;
    var before: System :| Reached(n, s0, Earlier(log), before) && Answered(n, before, Last(log), s);
    if j == |log| - 1 {
      mid, next := before, s;
    } else {
      assert log[..|log| - 1][..j] == log[..j];
      mid, next := ReachedBefore(n, s0, log[..|log| - 1], before, j);
    }
  }

  /** Channel i of a whole batch holds the result of its i-th command. */
  ghost predicate HoldsOwn(s: System, f: Flush, i: nat) {
    && i < |f.datas| && i < |f.chans|
    && exists before: (System, seq<Result>), after: (System, seq<Result>) :: OwnResult(s, f, i, before, after)
  }

  /** Applying the batch failed: all its channels hold nil, and no others hold anything. */
  predicate AllNil(n: nat, f: Flush) {
    f.chans == Received(n, f.datas, Failed)
  }

  ghost predicate OwnResult(s: System, f: Flush, i: nat, before: (System, seq<Result>), after: (System, seq<Result>))
    requires i < |f.datas| && i < |f.chans|
  {
    && ApplyMay(s, f.datas[..i], before) && EntryMay(before.0, f.datas[i], after)
    && |after.1| == 1 && f.chans[i] == [Some(after.1[0])]
  }

  lemma WholeHoldsOwn(n: nat, s: System, f: Flush, s': System, i: nat)
    requires Answered(n, s, f, s') && Whole(f.datas) && i < |f.datas| <= n
    ensures |f.chans| == n && (AllNil(n, f) || HoldsOwn(s, f, i))
    ensures AllNil(n, f) ==> !HoldsOwn(s, f, i) && s' == s
  {
    hide ApplyMay, EntryMay;
    if exists rs :: AnsweredWith(n, s, f, s', rs) {
      var rs :| AnsweredWith(n, s, f, s', rs);
      var before, after := ResultReaches(n, s, f.datas, (s', rs), i);
      assert |Commands(f.datas[..i])| == i;
      assert OwnResult(s, f, i, before, after);
    }
  }

  /** In every undisturbed run of the batcher with the machine: if applying a batch failed, all its
      channels have received nil and the machine is as it was; or else channel i has received what the
      i-th command gives in the state that the earlier batches and the earlier commands of the batch lead to. */
  lemma ChannelsHoldOwnResults(n: nat, bs: seq<Batcher>, ss: seq<System>, evs: seq<Event>, k: nat, j: nat, i: nat)
    requires n > 0 && JointRun(n, bs, ss, evs) && k <= |evs|
    requires forall m | 0 <= m < k :: !Disturbs(bs[m], evs[m])
    requires j < |bs[k].log| && i < |bs[k].log[j].datas|
    ensures var f := bs[k].log[j];
      && |f.chans| == n && i < n
      && exists s, s' :: Reached(n, ss[0], bs[k].log[..j], s) && Answered(n, s, f, s')
                       && if AllNil(n, f) then s' == s else HoldsOwn(s, f, i)
  {
    hide Disturbs, Reached, Whole, HoldsOwn, AllNil, Answered, Together, Tidy;
    JointIsTrace(n, bs, ss, evs);
    CommandsHandedOn(n, bs, evs, k);
    ReachedAlong(n, bs, ss, evs, k);
    var s, next := ReachedBefore(n, ss[0], bs[k].log, ss[k], j);
    WholeHoldsOwn(n, s, bs[k].log[j], next, i);
  }

  // ----- a disturbed run

  /** With two slots: the first is stored and the second is picked. */
  lemma UntilPicked(e1: Entry, e2: Entry)
    requires !e1.Empty? && !e2.Empty?
    ensures var blank, first := [Empty, Empty], [e1, Empty];
      && Start(2) == Batcher(0, blank, Idle, Waits, [])
      && Moves(2, Start(2), Pick(e1), Batcher(0, blank, Picked(e1, 0), Waits, []))
      && Moves(2, Batcher(0, blank, Picked(e1, 0), Waits, []), Event.Reread,
               Batcher(0, blank, Sender.Reread(e1, 0, 0), Waits, []))
      && Moves(2, Batcher(0, blank, Sender.Reread(e1, 0, 0), Waits, []), Send,
               Batcher(1, blank, Sent(e1, 0), Waits, []))
      && Moves(2, Batcher(1, blank, Sent(e1, 0), Waits, []), Store(Failed), Batcher(1, first, Stored(0), Waits, []))
      && Moves(2, Batcher(1, first, Stored(0), Waits, []), Return, Batcher(1, first, Idle, Waits, []))
      && Moves(2, Batcher(1, first, Idle, Waits, []), Pick(e2), Batcher(1, first, Picked(e2, 1), Waits, []))
  {
    assert Blank(2) == [Empty, Empty] && [Empty, Empty][0 := e1] == [e1, Empty];
  }

  /** The timer reads the index, the sender advances it and sends, the timer resets it and flushes the
      first slot, and the store of the second flushes a batch with a hole. */
  lemma AfterPicked(e1: Entry, e2: Entry, r1: Result, r2: Result)
    requires !e1.Empty? && !e2.Empty?
    ensures var blank, first := [Empty, Empty], [e1, Empty];
      var f1, f2 := Flush([e1], [[Some(r1)], []]), Flush([Empty, e2], [[Some(r2)], []]);
      && Moves(2, Batcher(1, first, Picked(e2, 1), Waits, []), Look, Batcher(1, first, Picked(e2, 1), Looked(1), []))
      && Moves(2, Batcher(1, first, Picked(e2, 1), Looked(1), []), Event.Reread,
               Batcher(1, first, Sender.Reread(e2, 1, 1), Looked(1), []))
      && Moves(2, Batcher(1, first, Sender.Reread(e2, 1, 1), Looked(1), []), Send,
               Batcher(0, first, Sent(e2, 1), Looked(1), []))
      && Moves(2, Batcher(0, first, Sent(e2, 1), Looked(1), []), Tick(Results([r1])),
               Batcher(0, blank, Sent(e2, 1), Waits, [f1]))
      && Moves(2, Batcher(0, blank, Sent(e2, 1), Waits, [f1]), Store(Results([r2])),
               Batcher(0, blank, Stored(1), Waits, [f1, f2]))
  {
    hide Received, Blank, Commands;
    TickTakes(e1, e2, r1);
    HoleStored(e2, r2, Flush([e1], [[Some(r1)], []]));
  }

  lemma TickTakes(e1: Entry, e2: Entry, r1: Result)
    requires !e1.Empty? && !e2.Empty?
    ensures Moves(2, Batcher(0, [e1, Empty], Sent(e2, 1), Looked(1), []), Tick(Results([r1])),
                  Batcher(0, [Empty, Empty], Sent(e2, 1), Waits, [Flush([e1], [[Some(r1)], []])]))
  {
    assert [e1, Empty][..1] == [e1] && [e1][1..] == [] && Commands([e1]) == [e1];
    assert Received(2, [e1], Results([r1])) == [[Some(r1)], []];
    assert Blank(2) == [Empty, Empty];
    hide Received, Blank, Commands;
  }

  lemma HoleStored(e2: Entry, r2: Result, f1: Flush)
    requires !e2.Empty?
    ensures Moves(2, Batcher(0, [Empty, Empty], Sent(e2, 1), Waits, [f1]), Store(Results([r2])),
                  Batcher(0, [Empty, Empty], Stored(1), Waits, [f1, Flush([Empty, e2], [[Some(r2)], []])]))
  {
    var hole := [Empty, e2];
    assert [Empty, Empty][1 := e2] == hole && hole[1..] == [e2] && [e2][1..] == [];
    assert Commands([e2]) == [e2] && Commands(hole) == [] + [e2];
    assert Received(2, hole, Results([r2])) == [[Some(r2)], []];
    assert Blank(2) == [Empty, Empty];
    hide Received, Blank, Commands;
  }

  /** A run that the timer disturbs: the only result of the batch with the hole goes to channel 0, and
      the sender, who waits at channel 1, is not answered. */
  lemma DisturbedRun(e1: Entry, e2: Entry, r1: Result, r2: Result) returns (bs: seq<Batcher>, evs: seq<Event>)
    requires !e1.Empty? && !e2.Empty?
    ensures Trace(2, bs, evs) && |evs| == 11 && Disturbs(bs[9], evs[9])
    ensures bs[9].sender == Sent(e2, 1) && bs[11].sender == Stored(1)
    ensures bs[11].log == [Flush([e1], [[Some(r1)], []]), Flush([Empty, e2], [[Some(r2)], []])]
  {
    UntilPicked(e1, e2);
    AfterPicked(e1, e2, r1, r2);
    hide Moves, Start;
    var blank, first := [Empty, Empty], [e1, Empty];
    var f1, f2 := Flush([e1], [[Some(r1)], []]), Flush([Empty, e2], [[Some(r2)], []]);
    evs := [Pick(e1), Event.Reread, Send, Store(Failed), Return,
            Pick(e2), Look, Event.Reread, Send, Tick(Results([r1])), Store(Results([r2]))];
    bs := [Batcher(0, blank, Idle, Waits, []),
           Batcher(0, blank, Picked(e1, 0), Waits, []),
           Batcher(0, blank, Sender.Reread(e1, 0, 0), Waits, []),
           Batcher(1, blank, Sent(e1, 0), Waits, []),
           Batcher(1, first, Stored(0), Waits, []),
           Batcher(1, first, Idle, Waits, []),
           Batcher(1, first, Picked(e2, 1), Waits, []),
           Batcher(1, first, Picked(e2, 1), Looked(1), []),
           Batcher(1, first, Sender.Reread(e2, 1, 1), Looked(1), []),
           Batcher(0, first, Sent(e2, 1), Looked(1), []),
           Batcher(0, blank, Sent(e2, 1), Waits, [f1]),
           Batcher(0, blank, Stored(1), Waits, [f1, f2])];
  }
}
