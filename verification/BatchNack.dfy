/** The batch nack as a value: which messages it selects, which of them expire
    and which part of the chain is still reachable afterwards. */
module BatchNack {
  import opened Types
  import opened Marks
  import opened QueueModel

  function IdHits(live: seq<Msg>, ids: seq<Bytes>): (r: seq<bool>)
    ensures |r| == |live|
    ensures forall i | 0 <= i < |live| :: r[i] == (live[i].id in ids)
  {
    seq(|live|, i requires 0 <= i < |live| => live[i].id in ids)
  }

  /** The messages that a batch nack selects: the first |ids| that match. */
  function NackMarks(live: seq<Msg>, ids: seq<Bytes>): (r: seq<bool>)
    ensures |r| == |live|
  {
    FirstMarks(IdHits(live, ids), |ids|)
  }

  /** The selected messages that reach the retry limit. */
  function Expiring(live: seq<Msg>, marks: seq<bool>, limit: uint32): (r: seq<bool>)
    requires |live| == |marks|
    ensures |r| == |live|
    ensures forall i | 0 <= i < |live| :: r[i] == (marks[i] && Expires(live[i], limit))
  {
    seq(|live|, i requires 0 <= i < |live| => marks[i] && Expires(live[i], limit))
  }

  /** What the nodes hold afterwards; an expired node is reset. */
  function After(live: seq<Msg>, marks: seq<bool>, ex: seq<bool>): (r: seq<Msg>)
    requires |live| == |marks| == |ex|
    ensures |r| == |live|
    ensures forall i | 0 <= i < |live| ::
              r[i] == if ex[i] then BLANK else if marks[i] then Returned(live[i]) else live[i]
  {
    seq(|live|, i requires 0 <= i < |live| =>
      if ex[i] then BLANK else if marks[i] then Returned(live[i]) else live[i])
  }

  /** The length of the leading run of marks. */
  function Leading(ex: seq<bool>): (g: nat)
    ensures g <= |ex|
    ensures forall i | 0 <= i < g :: ex[i]
    ensures g < |ex| ==> !ex[g]
  {
    if ex == [] || !ex[0] then 0 else 1 + Leading(ex[1..])
  }

  /** The first mark at or after a position. */
  function NextMark(ex: seq<bool>, from: nat): (p: nat)
    requires from <= |ex|
    ensures from <= p <= |ex|
    ensures forall i | from <= i < p :: !ex[i]
    ensures p < |ex| ==> ex[p]
    decreases |ex| - from
  {
    if from == |ex| || ex[from] then from else NextMark(ex, from + 1)
  }

  /** One past the last mark. */
  function PastMarks(ex: seq<bool>): (e: nat)
    ensures e <= |ex|
    ensures e > 0 ==> ex[e - 1]
    ensures forall i | e <= i < |ex| :: !ex[i]
  {
    if ex == [] || ex[|ex| - 1] then |ex| else PastMarks(ex[..|ex| - 1])
  }

  /** What a walk from Head reaches after the marked nodes have been expired with
      the first node taken for the predecessor of every later one. */
  function Reachable<T>(xs: seq<T>, ex: seq<bool>): seq<T>
    requires |xs| == |ex|
  {
    if xs == [] then []
    else if !ex[0] then
      if PastMarks(ex) == 0 then xs else [xs[0]] + xs[PastMarks(ex)..]
    else
      var g := Leading(ex);
      var p := NextMark(ex, g);
      if p == |ex| then xs[g..] else xs[g..p + 1]
  }

  /** The marks form one run that starts at the first or the second position. */
  predicate OneRun(ex: seq<bool>) {
    var from := if ex != [] && !ex[0] then 1 else 0;
    NextMark(ex, from + Leading(ex[from..])) == |ex|
  }

  /** Some marks follow a leading run, but not directly: a walk from Head then ends in a reset node. */
  predicate Severed(ex: seq<bool>) {
    ex != [] && ex[0] && NextMark(ex, Leading(ex)) < |ex|
  }

  lemma ReachableSize<T>(xs: seq<T>, ex: seq<bool>)
    requires |xs| == |ex| && !Severed(ex)
    ensures |Reachable(xs, ex)| <= |xs| - Count(ex)
  {
    if xs == [] {
    } else if !ex[0] {
      var e := PastMarks(ex);
      SplitCount(ex, e);
      AllClear(xs[e..], ex[e..]);
      if e > 0 {
        SplitCount(ex[..e], 1);
        assert ex[..e][..1] == [false];
      }
    } else {
      var g := Leading(ex);
      SplitCount(ex, g);
      AllClear(xs[g..], ex[g..]);
    }
  }

  function BuryAll(dead: Dead, ms: seq<Msg>): (r: Dead)
    ensures r.NilInterface? <==> dead.NilInterface?
  {
    if ms == [] then dead else Bury(BuryAll(dead, ms[..|ms| - 1]), ms[|ms| - 1])
  }

  function NackMany(s: State, limit: uint32, ids: seq<Bytes>): (State, Reply) {
    var live := s.q.live;
    var marks := NackMarks(live, ids);
    var ex := Expiring(live, marks, limit);
    if live == [] || s.q.amount < |ids| || ids == [] || Count(marks) != |ids| then (s, Refused)
    else if s.dead.NilInterface? && Count(ex) > 0 then (s, Panicked)
    else
      (State(Queue(Reachable(After(live, marks, ex), ex), s.q.amount - Count(ex)),
             BuryAll(s.dead, Taken(live, ex))), Done)
  }

  lemma RefusedChangesNothing(s: State, limit: uint32, ids: seq<Bytes>)
    ensures NackMany(s, limit, ids).1 == Refused ==> NackMany(s, limit, ids).0 == s
  {
  }

  // ----- adding one mark behind all others

  lemma {:induction false} TakenOneMore<T>(xs: seq<T>, marks: seq<bool>, p: nat)
    requires |xs| == |marks| && p < |marks| && ClearFrom(marks, p)
    ensures Taken(xs, marks[p := true]) == Taken(xs, marks) + [xs[p]]
    ensures Count(marks[p := true]) == Count(marks) + 1
  {
    SplitTaken(xs, marks, p);
    SplitTaken(xs, marks[p := true], p);
    SplitCount(marks, p);
    SplitCount(marks[p := true], p);
    var now := marks[p := true];
    assert now[..p] == marks[..p];
    assert now[p..] == [true] + marks[p + 1..];
    assert marks[p..] == [false] + marks[p + 1..];
    assert xs[p..] == [xs[p]] + xs[p + 1..];
    AllClear(xs[p + 1..], marks[p + 1..]);
    assert Taken(xs[p..], now[p..]) == [xs[p]] + Taken(xs[p + 1..], marks[p + 1..]);
    assert Taken(xs[p..], marks[p..]) == [] + Taken(xs[p + 1..], marks[p + 1..]);
  }

  lemma ShapeOneMore(ex: seq<bool>, p: nat)
    requires p < |ex| && ClearFrom(ex, p)
    ensures PastMarks(ex[p := true]) == p + 1
    ensures ex[0] ==> Leading(ex) <= p
    ensures ex[0] && Leading(ex) < p ==>
              Leading(ex[p := true]) == Leading(ex) && NextMark(ex[p := true], Leading(ex)) <= p
    ensures p == 0 || (ex[0] && Leading(ex) == p) ==> Leading(ex[p := true]) == p + 1
    ensures ex[0] && Leading(ex) == p ==> NextMark(ex, p) == |ex|
  {
    var now := ex[p := true];
    var g := Leading(ex);
    assert !ex[p] && now[p] && (p + 1 < |now| ==> !now[p + 1]);
    assert p == 0 || (ex[0] && g == p) ==> forall i | 0 <= i <= p :: now[i];
    if ex[0] && g < p {
      assert !now[g] && forall i | 0 <= i < g :: now[i];
    }
  }

  /** A mark keeps the message's value and changes nothing else. */
  lemma MarkOneMore(live: seq<Msg>, marks: seq<bool>, limit: uint32, p: nat)
    requires |live| == |marks| && p < |marks| && !marks[p]
    ensures
      var ex, now := Expiring(live, marks, limit), marks[p := true];
      && Expiring(live, now, limit) == (if Expires(live[p], limit) then ex[p := true] else ex)
      && After(live, now, Expiring(live, now, limit))
           == After(live, marks, ex)[p := if Expires(live[p], limit) then BLANK else Returned(live[p])]
  {
    var ex, now := Expiring(live, marks, limit), marks[p := true];
    var ex2 := Expiring(live, now, limit);
    assert forall i | 0 <= i < |live| :: ex2[i] == if i == p then Expires(live[p], limit) else ex[i];
    if !Expires(live[p], limit) {
      assert ex2 == ex;
    }
  }

  // ----- the marked positions in order

  function Positions(marks: seq<bool>, from: nat): (r: seq<nat>)
    requires from <= |marks|
    ensures forall i | 0 <= i < |r| :: from <= r[i] < |marks| && marks[r[i]]
    decreases |marks| - from
  {
    var p := NextMark(marks, from);
    if p == |marks| then [] else [p] + Positions(marks, p + 1)
  }

  lemma {:induction false} PositionsCount(marks: seq<bool>, from: nat)
    requires from <= |marks|
    ensures |Positions(marks, from)| == Count(marks[from..])
    decreases |marks| - from
  {
    if from < |marks| {
      assert marks[from..][1..] == marks[from + 1..];
      PositionsCount(marks, from + 1);
      if marks[from] {
        assert Positions(marks, from) == [from] + Positions(marks, from + 1);
      } else {
        assert NextMark(marks, from) == NextMark(marks, from + 1);
      }
    }
  }

  /** A scan that has dealt with i messages has selected the positions sel. */
  ghost predicate SelectedTo(live: seq<Msg>, ids: seq<Bytes>, i: nat, sel: seq<nat>) {
    var marks := NackMarks(live, ids);
    && i <= |live| && |sel| == Count(marks[..i]) <= |ids|
    && sel + Positions(marks, i) == Positions(marks, 0)
  }

  lemma SelectStep(live: seq<Msg>, ids: seq<Bytes>, i: nat, sel: seq<nat>)
    requires SelectedTo(live, ids, i, sel) && i < |live| && |sel| < |ids|
    ensures SelectedTo(live, ids, i + 1, if live[i].id in ids then sel + [i] else sel)
  {
    hide Count, Positions;
    var marks := NackMarks(live, ids);
    FirstMarksAt(IdHits(live, ids), |ids|, i);
    CountNext(marks, i);
    PositionsNext(marks, i);
    assert sel + ([i] + Positions(marks, i + 1)) == (sel + [i]) + Positions(marks, i + 1);
  }

  lemma PositionsNext(marks: seq<bool>, i: nat)
    requires i < |marks|
    ensures Positions(marks, i) == (if marks[i] then [i] else []) + Positions(marks, i + 1)
  {
    if marks[i] {
      assert NextMark(marks, i) == i;
    } else {
      assert NextMark(marks, i) == NextMark(marks, i + 1);
    }
  }

  lemma CountNext(marks: seq<bool>, i: nat)
    requires i < |marks|
    ensures Count(marks[..i + 1]) == Count(marks[..i]) + if marks[i] then 1 else 0
  {
    SplitCount(marks[..i + 1], i);
    assert marks[..i + 1][..i] == marks[..i] && marks[..i + 1][i..] == [marks[i]];
  }

  lemma SelectEnd(live: seq<Msg>, ids: seq<Bytes>, i: nat, sel: seq<nat>)
    requires SelectedTo(live, ids, i, sel) && (i == |live| || |sel| == |ids|)
    ensures sel == Positions(NackMarks(live, ids), 0) && |sel| == Count(NackMarks(live, ids))
  {
    var marks := NackMarks(live, ids);
    SplitCount(marks, i);
    FirstMarksCount(IdHits(live, ids), |ids|);
    PositionsCount(marks, i);
    assert sel + [] == sel;
  }

  /** The marks at positions below b. */
  function Below(marks: seq<bool>, b: nat): (r: seq<bool>)
    ensures |r| == |marks|
    ensures forall i | 0 <= i < |marks| :: r[i] == (i < b && marks[i])
  {
    seq(|marks|, i requires 0 <= i < |marks| => i < b && marks[i])
  }

  /** Going on to the next selected position. */
  lemma BelowNext(marks: seq<bool>, b: nat)
    requires b <= |marks| && Positions(marks, b) != []
    ensures var p := Positions(marks, b)[0];
      && b <= p < |marks|
      && Positions(marks, b)[1..] == Positions(marks, p + 1)
      && ClearFrom(Below(marks, b), p)
      && Below(marks, b)[p := true] == Below(marks, p + 1)
  {
  }

  lemma BelowAll(marks: seq<bool>, b: nat)
    requires b <= |marks| && Positions(marks, b) == []
    ensures Below(marks, b) == marks
  {
  }

  /** The counter and the dead-letter queue after the marked positions have been dealt with. */
  ghost predicate Tally(s: State, limit: uint32, marks: seq<bool>, amount: int, dead: Dead)
    requires |marks| == |s.q.live|
  {
    var ex := Expiring(s.q.live, marks, limit);
    && amount == s.q.amount - Count(ex)
    && dead == BuryAll(s.dead, Taken(s.q.live, ex))
    && (s.dead.NilInterface? ==> Count(ex) == 0)
  }

  lemma TallyStep(s: State, limit: uint32, marks: seq<bool>, p: nat, amount: int, dead: Dead)
    requires |marks| == |s.q.live| && p < |marks| && ClearFrom(marks, p)
    requires Tally(s, limit, marks, amount, dead)
    ensures
      var m := s.q.live[p];
      if !Expires(m, limit) then Tally(s, limit, marks[p := true], amount, dead)
      else
        && Count(Expiring(s.q.live, marks[p := true], limit)) > 0
        && (!s.dead.NilInterface? ==> Tally(s, limit, marks[p := true], amount - 1, Bury(dead, m)))
  {
    var ex := Expiring(s.q.live, marks, limit);
    MarkOneMore(s.q.live, marks, limit, p);
    if Expires(s.q.live[p], limit) {
      TakenOneMore(s.q.live, ex, p);
      var t, m := Taken(s.q.live, ex), s.q.live[p];
      assert (t + [m])[..|t|] == t;
    }
  }

  lemma TallyEnd(s: State, limit: uint32, marks: seq<bool>, amount: int, dead: Dead)
    requires |marks| == |s.q.live| && Tally(s, limit, marks, amount, dead)
    ensures var ex := Expiring(s.q.live, marks, limit);
      && amount == s.q.amount - Count(ex) && dead == BuryAll(s.dead, Taken(s.q.live, ex))
      && (s.dead.NilInterface? ==> Count(ex) == 0)
  {
  }

  lemma ExpiringSize(live: seq<Msg>, marks: seq<bool>, limit: uint32)
    requires |marks| == |live|
    ensures |Expiring(live, marks, limit)| == |live|
  {
  }

  lemma TallyStart(s: State, limit: uint32, marks: seq<bool>)
    requires |marks| == |s.q.live| && ClearFrom(marks, 0)
    ensures Tally(s, limit, marks, s.q.amount, s.dead)
  {
    AllClear(s.q.live, Expiring(s.q.live, marks, limit));
  }

  lemma {:induction false} CountGrows(some: seq<bool>, all: seq<bool>)
    requires |some| == |all| && forall i | 0 <= i < |some| :: some[i] ==> all[i]
    ensures Count(some) <= Count(all)
  {
    if some != [] {
      CountGrows(some[1..], all[1..]);
    }
  }

  lemma BelowStart(marks: seq<bool>, none: seq<bool>)
    requires |none| == |marks| && ClearFrom(none, 0)
    ensures none == Below(marks, 0)
  {
  }

  lemma ExpiringGrows(live: seq<Msg>, some: seq<bool>, all: seq<bool>, limit: uint32)
    requires |some| == |all| == |live| && forall i | 0 <= i < |some| :: some[i] ==> all[i]
    ensures Count(Expiring(live, some, limit)) <= Count(Expiring(live, all, limit))
  {
    CountGrows(Expiring(live, some, limit), Expiring(live, all, limit));
  }

  lemma SelectStart(live: seq<Msg>, ids: seq<Bytes>)
    requires live != []
    ensures SelectedTo(live, ids, 0, [])
    ensures ids == [] ==> Positions(NackMarks(live, ids), 0) == [] && Count(NackMarks(live, ids)) == 0
    ensures ids != [] ==> SelectedTo(live, ids, 1, if live[0].id in ids then [0] else [])
  {
    if ids != [] {
      SelectStep(live, ids, 0, []);
    } else {
      SelectEnd(live, ids, 0, []);
    }
  }
}
