/** When the batch operations succeed, what they then do, and when they fall
    short of doing the same to each message singly. */
module BatchLaws {
  import opened Types
  import opened Marks
  import opened QueueModel
  import opened BatchNack
  import opened QueueLaws

  /** The messages whose ids are not listed, in order. */
  function Without(live: seq<Msg>, ids: seq<Bytes>): seq<Msg> {
    if live == [] then []
    else (if live[0].id in ids then [] else [live[0]]) + Without(live[1..], ids)
  }

  ghost predicate HeldBy(live: seq<Msg>, c: Bytes, id: Bytes) {
    exists i :: 0 <= i < |live| && live[i].id == id && live[i].owner == c
  }

  ghost predicate Present(live: seq<Msg>, id: Bytes) {
    exists i :: 0 <= i < |live| && live[i].id == id
  }

  // ----- counting the matches

  ghost function IdSet(ids: seq<Bytes>): set<Bytes> {
    set id | id in ids
  }

  ghost function HitIds(live: seq<Msg>, hits: seq<bool>): set<Bytes>
    requires |live| == |hits|
  {
    set i | 0 <= i < |live| && hits[i] :: live[i].id
  }

  lemma {:induction false} IdSetSize(ids: seq<Bytes>)
    ensures |IdSet(ids)| <= |ids|
    ensures |IdSet(ids)| == |ids| <==> DistinctIds(ids)
  {
    if ids == [] {
    } else {
      var last := |ids| - 1;
      var front := ids[..last];
      IdSetSize(front);
      assert ids == front + [ids[last]];
      assert IdSet(ids) == IdSet(front) + {ids[last]};
      assert DistinctIds(ids) <==> DistinctIds(front) && ids[last] !in front;
    }
  }

  lemma {:induction false} HitIdsSize(live: seq<Msg>, hits: seq<bool>)
    requires |live| == |hits| && UniqueIds(live)
    ensures |HitIds(live, hits)| == Count(hits)
  {
    if live == [] {
      assert HitIds(live, hits) == {};
    } else {
      HitIdsCons(live, hits);
      hide HitIds;
      HitIdsSize(live[1..], hits[1..]);
    }
  }

  lemma HitIdsCons(live: seq<Msg>, hits: seq<bool>)
    requires |live| == |hits| > 0 && UniqueIds(live)
    ensures UniqueIds(live[1..]) && live[0].id !in HitIds(live[1..], hits[1..])
    ensures HitIds(live, hits) == HitIds(live[1..], hits[1..]) + if hits[0] then {live[0].id} else {}
  {
    var rest := HitIds(live[1..], hits[1..]);
    forall i | 1 <= i < |live| && hits[i] ensures live[i].id in rest {
      assert live[1..][i - 1] == live[i] && hits[1..][i - 1] == hits[i];
    }
  }

  ghost predicate Hit(live: seq<Msg>, hits: seq<bool>, id: Bytes)
    requires |live| == |hits|
  {
    exists i :: 0 <= i < |live| && hits[i] && live[i].id == id
  }

  /** With unique ids no more messages match than ids are listed, and all of the
      list is matched exactly when it is distinct and each id has a match. */
  lemma MatchCount(live: seq<Msg>, hits: seq<bool>, ids: seq<Bytes>)
    requires |live| == |hits| && UniqueIds(live)
    requires forall i | 0 <= i < |live| :: hits[i] ==> live[i].id in ids
    ensures Count(hits) <= |ids|
    ensures Count(hits) == |ids| <==> DistinctIds(ids) && forall id | id in ids :: Hit(live, hits, id)
  {
    var s, t := HitIds(live, hits), IdSet(ids);
    IdSetSize(ids);
    HitIdsSize(live, hits);
    assert s <= t;
    SubsetSize(s, t);
    if forall id | id in ids :: Hit(live, hits, id) {
      assert t <= s;
    }
    if s == t {
      forall id | id in ids ensures Hit(live, hits, id) {
        assert id in s;
      }
    }
  }

  lemma SubsetSize<T>(s: set<T>, t: set<T>)
    requires s <= t
    ensures |s| <= |t| && (|s| == |t| <==> s == t)
  {
    assert t == s + (t - s);
  }

  // ----- batch ack

  lemma AckMarksAreHits(live: seq<Msg>, c: Bytes, ids: seq<Bytes>)
    requires UniqueIds(live)
    ensures AckMarks(live, c, ids) == HeldHits(live, c, ids)
    ensures Count(HeldHits(live, c, ids)) == |ids| <==> DistinctIds(ids) && forall id | id in ids :: HeldBy(live, c, id)
  {
    var hits := HeldHits(live, c, ids);
    MatchCount(live, hits, ids);
    FirstMarksAll(hits, |ids|);
    forall id | id in ids ensures Hit(live, hits, id) <==> HeldBy(live, c, id) {
    }
  }

  /** Whatever ids repeat, in the list or in the queue: a batch ack takes out the first messages that c
      holds under a listed id, as many as ids are listed. */
  lemma BatchAckTakesFirst(live: seq<Msg>, c: Bytes, ids: seq<Bytes>)
    ensures exists hits: seq<bool> ::
              && |hits| == |live| && FirstOf(hits, AckMarks(live, c, ids), |ids|)
              && forall i | 0 <= i < |live| :: hits[i] <==> live[i].owner == c && live[i].id in ids
  {
    FirstMarksAreFirst(HeldHits(live, c, ids), |ids|);
    assert forall i | 0 <= i < |live| :: HeldHits(live, c, ids)[i] <==> live[i].owner == c && live[i].id in ids;
  }

  /** And a batch nack the first messages under a listed id, whoever holds them. */
  lemma BatchNackTakesFirst(live: seq<Msg>, ids: seq<Bytes>)
    ensures exists hits: seq<bool> ::
              && |hits| == |live| && FirstOf(hits, NackMarks(live, ids), |ids|)
              && forall i | 0 <= i < |live| :: hits[i] <==> live[i].id in ids
  {
    FirstMarksAreFirst(IdHits(live, ids), |ids|);
    assert forall i | 0 <= i < |live| :: IdHits(live, ids)[i] <==> live[i].id in ids;
  }

  lemma {:induction false} KeptIsWithout(live: seq<Msg>, c: Bytes, ids: seq<Bytes>)
    requires forall i | 0 <= i < |live| :: live[i].id in ids ==> live[i].owner == c
    ensures Kept(live, HeldHits(live, c, ids)) == Without(live, ids)
  {
    if live != [] {
      KeptIsWithout(live[1..], c, ids);
      assert HeldHits(live, c, ids)[1..] == HeldHits(live[1..], c, ids);
    }
  }

  /** A batch ack of two or more ids succeeds exactly when the ids are distinct and all
      held, and then leaves the other messages, in order, from Head to Tail. */
  lemma BatchAckSucceedsIff(q: Queue, c: Bytes, ids: seq<Bytes>)
    requires UniqueIds(q.live) && q.amount >= |q.live| && |ids| > 1
    ensures var r := BatchAck(q, c, ids);
      && (r.reply == Done <==> DistinctIds(ids) && forall id | id in ids :: HeldBy(q.live, c, id))
      && (r.reply == Done ==> r.live == Without(q.live, ids) && r.tail == |r.live| - 1 && |r.live| == |q.live| - |ids|)
  {
    var r, hits := BatchAck(q, c, ids), HeldHits(q.live, c, ids);
    AckMarksAreHits(q.live, c, ids);
    TakenCount(q.live, hits);
    if r.reply == Done {
      forall i | 0 <= i < |q.live| && q.live[i].id in ids ensures q.live[i].owner == c {
        assert HeldBy(q.live, c, q.live[i].id);
      }
      KeptIsWithout(q.live, c, ids);
    }
  }

  /** The only partial match that the rollback undoes: one message, the second of three or more. */
  predicate Undone(marks: seq<bool>) {
    |marks| > 2 && marks[1] && Count(marks) == 1
  }

  /** A batch ack that fails leaves the queue as it was, with Tail at its end, exactly when
      the queue is too short, nothing matched, or the rollback happens to undo the one match. */
  lemma BatchAckFailureHarmlessIff(q: Queue, c: Bytes, ids: seq<Bytes>)
    requires UniqueIds(q.live) && |ids| > 1
    requires BatchAck(q, c, ids).reply != Done
    ensures var r, marks := BatchAck(q, c, ids), AckMarks(q.live, c, ids);
      (r.reply == Refused && r.live == q.live && r.tail == |q.live| - 1)
      <==> q.amount < |ids| || Count(marks) == 0 || Undone(marks)
  {
    var marks := AckMarks(q.live, c, ids);
    TakenCount(q.live, marks);
    if q.amount >= |ids| && q.live != [] && Count(marks) > 0 {
      RollBackUndoesIff(q.live, marks);
    }
  }

  /** A batch ack crashes exactly when something but not enough matched, and the rollback then follows
      a nil pointer: all messages were taken out, or more than two, or two and not the last. */
  lemma BatchAckPanicsIff(q: Queue, c: Bytes, ids: seq<Bytes>)
    requires |ids| > 1
    ensures var marks := AckMarks(q.live, c, ids);
      BatchAck(q, c, ids).reply == Panicked <==>
        && q.live != [] && |ids| <= q.amount && 0 < Count(marks) < |ids|
        && (Count(marks) == |q.live| || Count(marks) > 2 || (Count(marks) == 2 && !marks[|q.live| - 1]))
  {
    TakenCount(q.live, AckMarks(q.live, c, ids));
    FirstMarksCount(HeldHits(q.live, c, ids), |ids|);
    hide Count, Kept, Taken, FirstMarks;
  }

  /** A batch ack of the first two of three messages and of an id that is not there crashes. */
  lemma PartialBatchAckCrashes(a: Msg, b: Msg, m: Msg, other: Bytes)
    requires a.owner == b.owner && a.id != b.id && m.id !in {a.id, b.id, other}
    requires other != a.id && other != b.id
    ensures BatchAck(Queue([a, b, m], 3), a.owner, [a.id, b.id, other]).reply == Panicked
  {
    var q, ids := Queue([a, b, m], 3), [a.id, b.id, other];
    var hits := [true, true, false];
    assert HeldHits(q.live, a.owner, ids) == hits;
    assert hits[1..] == [true, false] && [true, false][1..] == [false] && [false][1..] == [];
    assert Count([false]) == 0 && Count([true, false]) == 1 && Count(hits) == 2;
    FirstMarksAll(hits, 3);
    BatchAckPanicsIff(q, a.owner, ids);
  }

  /** A batch ack of the first of two messages and of an id that is not there is refused, but
      leaves the messages in the other order and Tail at the head. */
  lemma RefusedBatchAckReorders(a: Msg, b: Msg, other: Bytes)
    requires a.id != b.id && other != a.id && other != b.id
    ensures BatchAck(Queue([a, b], 2), a.owner, [a.id, other]) == BatchAcked(Refused, [b, a], 0)
  {
    var live, ids := [a, b], [a.id, other];
    assert HeldHits(live, a.owner, ids) == [true, false];
    assert live[1..] == [b] && [b][1..] == [] && [true, false][1..] == [false] && [false][1..] == [];
    assert FirstMarks([true, false], 2) == [true, false];
    assert Kept([b], [false]) == [b] && Taken([b], [false]) == [];
    assert Kept(live, [true, false]) == [b] && Taken(live, [true, false]) == [a];
    assert [b] + [a] + [b][1..] == [b, a];
  }

  /** A refused batch ack that matched something puts what it took out behind the first message left, in
      order, and points Tail at the head when only one message was left. */
  lemma RefusedBatchAckPutsBack(q: Queue, c: Bytes, ids: seq<Bytes>)
    requires |ids| > 1 && BatchAck(q, c, ids).reply == Refused && q.amount >= |ids|
    requires Count(AckMarks(q.live, c, ids)) > 0
    ensures var r, marks := BatchAck(q, c, ids), AckMarks(q.live, c, ids);
      var taken, kept := Taken(q.live, marks), Kept(q.live, marks);
      && kept != [] && 1 <= |taken| <= 2 && (|taken| == 2 ==> marks[|q.live| - 1])
      && |r.live| == |q.live| && r.live[0] == kept[0]
      && r.live[1..][..|taken|] == taken && r.live[1..][|taken|..] == kept[1..]
      && r.tail == if |kept| == 1 then 0 else |q.live| - 1
  {
    var marks := AckMarks(q.live, c, ids);
    TakenCount(q.live, marks);
    FirstMarksCount(HeldHits(q.live, c, ids), |ids|);
    hide Count, Kept, Taken, FirstMarks;
    var taken, kept := Taken(q.live, marks), Kept(q.live, marks);
    assert ([kept[0]] + taken + kept[1..])[1..] == taken + kept[1..];
  }

  /** With the second and the last of four messages matched and a third id missing, the last two change places. */
  lemma TwoPutBack(a: Msg, b: Msg, m: Msg, z: Msg, other: Bytes)
    requires b.owner == z.owner && a.id !in {b.id, z.id, other} && m.id !in {b.id, z.id, other}
    requires b.id != z.id
    ensures BatchAck(Queue([a, b, m, z], 4), b.owner, [b.id, z.id, other]) == BatchAcked(Refused, [a, b, z, m], 3)
  {
    var live, ids, hits := [a, b, m, z], [b.id, z.id, other], [false, true, false, true];
    assert HeldHits(live, b.owner, ids) == hits;
    assert live[1..] == [b, m, z] && [b, m, z][1..] == [m, z] && [m, z][1..] == [z] && [z][1..] == [];
    assert hits[1..] == [true, false, true] && [true, false, true][1..] == [false, true];
    assert [false, true][1..] == [true] && [true][1..] == [];
    assert Count([true]) == 1 && Count([false, true]) == 1 && Count([true, false, true]) == 2 && Count(hits) == 2;
    FirstMarksAll(hits, 3);
    assert Kept([z], [true]) == [] && Taken([z], [true]) == [z];
    assert Kept([m, z], [false, true]) == [m] && Taken([m, z], [false, true]) == [z];
    assert Kept([b, m, z], [true, false, true]) == [m] && Taken([b, m, z], [true, false, true]) == [b, z];
    assert Kept(live, hits) == [a, m] && Taken(live, hits) == [b, z];
    assert [a] + [b, z] + [a, m][1..] == [a, b, z, m];
  }

  lemma RollBackUndoesIff(live: seq<Msg>, marks: seq<bool>)
    requires |live| == |marks| && UniqueIds(live) && live != [] && Count(marks) > 0
    ensures
      var kept := Kept(live, marks);
      var r := RollBack(kept, Taken(live, marks), marks[|live| - 1]);
      (r == Some(live) && (if |kept| == 1 then 0 else |live| - 1) == |live| - 1) <==> Undone(marks)
  {
    var kept, taken := Kept(live, marks), Taken(live, marks);
    TakenCount(live, marks);
    SplitKept(live, marks, 1);
    assert live[..1] == [live[0]] && marks[..1] == [marks[0]];
    if marks[0] {
      SplitCount(marks, 1);
      assert |marks| > 2 && marks[1] ==> marks[1..][0];
      if kept != [] {
        KeptIn(live[1..], marks[1..], kept[0]);
        assert kept[0] != live[0];
      }
    } else {
      assert kept[0] == live[0];
      if Undone(marks) {
        OnlySecond(live, marks);
        assert [live[0]] + [live[1]] + live[2..] == live;
      } else if RollBack(kept, taken, marks[|live| - 1]).Some? && |kept| > 1 {
        NotOnlySecond(live, marks);
      }
    }
  }

  lemma {:induction false} KeptIn<T>(xs: seq<T>, marks: seq<bool>, x: T)
    requires |xs| == |marks| && x in Kept(xs, marks)
    ensures x in xs
  {
    if x !in (if marks[0] then [] else [xs[0]]) {
      KeptIn(xs[1..], marks[1..], x);
    }
  }

  lemma OnlySecond<T>(xs: seq<T>, marks: seq<bool>)
    requires |xs| == |marks| && Undone(marks) && !marks[0]
    ensures Taken(xs, marks) == [xs[1]] && Kept(xs, marks) == [xs[0]] + xs[2..]
  {
    SplitCount(marks, 2);
    SplitTaken(xs, marks, 2);
    SplitKept(xs, marks, 2);
    assert marks[..2] == [false, true] && xs[..2] == [xs[0], xs[1]];
    assert Count([false, true]) == 1;
    ClearIfNone(marks[2..]);
    AllClear(xs[2..], marks[2..]);
    assert Taken([xs[0], xs[1]], [false, true]) == [xs[1]];
    assert Kept([xs[0], xs[1]], [false, true]) == [xs[0]];
  }

  lemma NotOnlySecond(live: seq<Msg>, marks: seq<bool>)
    requires |live| == |marks| && UniqueIds(live) && live != [] && Count(marks) > 0 && !marks[0] && !Undone(marks)
    requires |Kept(live, marks)| > 1 && Kept(live, marks)[0] == live[0]
    requires |Taken(live, marks)| == 1 || (|Taken(live, marks)| == 2 && marks[|live| - 1])
    ensures [live[0]] + Taken(live, marks) + Kept(live, marks)[1..] != live
  {
    var kept, taken, n := Kept(live, marks), Taken(live, marks), |live|;
    TakenCount(live, marks);
    var chain := [live[0]] + taken + kept[1..];
    if chain == live {
      assert chain[1] == taken[0] && live[1] in taken;
      TakenIn(live, marks, live[1]);
      assert marks[1];
      if |taken| == 2 {
        assert chain[2] == taken[1];
        TakenIn(live, marks, live[n - 1]);
      }
    }
  }

  // ----- batch nack

  lemma NackMarksAreHits(live: seq<Msg>, ids: seq<Bytes>)
    requires UniqueIds(live)
    ensures NackMarks(live, ids) == IdHits(live, ids)
    ensures Count(IdHits(live, ids)) == |ids| <==> DistinctIds(ids) && forall id | id in ids :: Present(live, id)
  {
    var hits := IdHits(live, ids);
    MatchCount(live, hits, ids);
    FirstMarksAll(hits, |ids|);
    forall id | id in ids ensures Hit(live, hits, id) <==> Present(live, id) {
    }
  }

  /** The ids are distinct and all present, and there are some; Amount, which is tested first, never
      stands in the way while it counts all messages. */
  ghost predicate Fits(q: Queue, ids: seq<Bytes>) {
    ids != [] && |ids| <= q.amount && DistinctIds(ids) && forall id | id in ids :: Present(q.live, id)
  }

  /** A listed message uses up its retries. */
  ghost predicate SomeExpires(live: seq<Msg>, limit: uint32, ids: seq<Bytes>) {
    exists i :: 0 <= i < |live| && live[i].id in ids && NextCount(live[i]) >= limit
  }

  /** The listed messages that use up their retries. */
  function WornMarks(live: seq<Msg>, limit: uint32, ids: seq<Bytes>): (r: seq<bool>)
    ensures |r| == |live|
    ensures forall i | 0 <= i < |live| :: r[i] == (live[i].id in ids && NextCount(live[i]) >= limit)
  {
    seq(|live|, i requires 0 <= i < |live| => live[i].id in ids && NextCount(live[i]) >= limit)
  }

  lemma WornAreExpiring(live: seq<Msg>, limit: uint32, ids: seq<Bytes>)
    requires UniqueIds(live)
    ensures Expiring(live, NackMarks(live, ids), limit) == WornMarks(live, limit, ids)
  {
    NackMarksAreHits(live, ids);
    hide NackMarks;
    var ex, worn := Expiring(live, NackMarks(live, ids), limit), WornMarks(live, limit, ids);
    assert forall i | 0 <= i < |live| :: ex[i] == worn[i];
  }

  /** A batch nack whose ids are distinct and all present, whoever holds them, crashes when a listed
      message has used up its retries in a queue that was made without a dead-letter queue, and else
      succeeds; any other is refused and changes nothing. */
  lemma BatchNackSucceedsIff(s: State, limit: uint32, ids: seq<Bytes>)
    requires UniqueIds(s.q.live)
    ensures var r, crash := NackMany(s, limit, ids), s.dead.NilInterface? && SomeExpires(s.q.live, limit, ids);
      && (r.1 == Done <==> Fits(s.q, ids) && !crash)
      && (r.1 == Panicked <==> Fits(s.q, ids) && crash)
      && (r.1 == Refused ==> r.0 == s)
    ensures s.q.amount >= |s.q.live| ==>
              (Fits(s.q, ids) <==> ids != [] && DistinctIds(ids) && forall id | id in ids :: Present(s.q.live, id))
  {
    hide Reachable, After, NackMarks, Expiring, IdSet, Count, BuryAll, Taken, WornMarks, SomeExpires;
    hide DistinctIds, Present;
    NackMarksAreHits(s.q.live, ids);
    WornAreExpiring(s.q.live, limit, ids);
    CountWorn(s.q.live, limit, ids);
    NonePresent(s.q.live, ids);
  }

  lemma NonePresent(live: seq<Msg>, ids: seq<Bytes>)
    ensures ids != [] && (forall id | id in ids :: Present(live, id)) ==> live != []
  {
    if ids != [] && forall id | id in ids :: Present(live, id) {
      assert Present(live, ids[0]);
    }
  }

  lemma CountWorn(live: seq<Msg>, limit: uint32, ids: seq<Bytes>)
    ensures Count(WornMarks(live, limit, ids)) > 0 <==> SomeExpires(live, limit, ids)
  {
    var worn := WornMarks(live, limit, ids);
    if Count(worn) == 0 {
      ClearIfNone(worn);
    } else if ClearFrom(worn, 0) {
      AllClear(live, worn);
    }
    if SomeExpires(live, limit, ids) {
      var i :| 0 <= i < |live| && live[i].id in ids && NextCount(live[i]) >= limit;
      assert worn[i];
    }
  }

  lemma CountExpiring(live: seq<Msg>, marks: seq<bool>, limit: uint32)
    requires |marks| == |live|
    ensures Count(Expiring(live, marks, limit)) > 0
            <==> exists i :: 0 <= i < |live| && marks[i] && Expires(live[i], limit)
  {
    var ex := Expiring(live, marks, limit);
    if Count(ex) == 0 {
      ClearIfNone(ex);
    } else if ClearFrom(ex, 0) {
      AllClear(live, ex);
    }
    if i :| 0 <= i < |live| && marks[i] && Expires(live[i], limit) {
      assert ex[i];
    }
  }

  /** Nacks each message singly, in order, as its holder. */
  function NackEach(s: State, limit: uint32, targets: seq<Msg>): State {
    if targets == [] then s
    else
      var m := targets[|targets| - 1];
      Nack(NackEach(s, limit, targets[..|targets| - 1]), limit, m.owner, m.id).0
  }

  lemma {:induction false} KeptFrom<T>(xs: seq<T>, marks: seq<bool>, x: T)
    requires |xs| == |marks| && x in Kept(xs, marks)
    ensures exists i :: 0 <= i < |xs| && !marks[i] && xs[i] == x
  {
    if x in (if marks[0] then [] else [xs[0]]) {
    } else {
      KeptFrom(xs[1..], marks[1..], x);
      var j :| 0 <= j < |xs| - 1 && !marks[1..][j] && xs[1..][j] == x;
      assert !marks[j + 1] && xs[j + 1] == x;
    }
  }

  /** What nacking the marked messages singly comes to. */
  function NackedSingly(s: State, limit: uint32, marks: seq<bool>): State
    requires |marks| == |s.q.live|
  {
    var ex := Expiring(s.q.live, marks, limit);
    State(Queue(Kept(After(s.q.live, marks, ex), ex), s.q.amount - Count(ex)), BuryAll(s.dead, Taken(s.q.live, ex)))
  }

  lemma KeptAround<T>(xs: seq<T>, marks: seq<bool>, p: nat)
    requires |xs| == |marks| && p < |marks| && ClearFrom(marks, p)
    ensures Kept(xs, marks) == Kept(xs[..p], marks[..p]) + ([xs[p]] + xs[p + 1..])
  {
    SplitKept(xs, marks, p);
    AllClear(xs[p..], marks[p..]);
    assert xs[p..] == [xs[p]] + xs[p + 1..];
  }

  lemma KeptWithout<T>(xs: seq<T>, marks: seq<bool>, p: nat)
    requires |xs| == |marks| && p < |marks| && ClearFrom(marks, p)
    ensures Kept(xs, marks[p := true]) == Kept(xs[..p], marks[..p]) + xs[p + 1..]
  {
    var now := marks[p := true];
    assert now[..p] == marks[..p] && now[p..][1..] == marks[p + 1..] && xs[p..][1..] == xs[p + 1..];
    TakenFirst(xs[p..], now[p..]);
    AllClear(xs[p + 1..], marks[p + 1..]);
    hide Kept, Taken, Count, ClearFrom;
    SplitKept(xs, now, p);
  }

  lemma TakenFirst<T>(xs: seq<T>, marks: seq<bool>)
    requires |xs| == |marks| > 0 && marks[0]
    ensures Kept(xs, marks) == Kept(xs[1..], marks[1..])
  {
  }

  lemma NackSinglyStep(s: State, limit: uint32, marks: seq<bool>, p: nat)
    requires UniqueIds(s.q.live) && |marks| == |s.q.live| && p < |marks| && ClearFrom(marks, p)
    requires s.dead.NilInterface? ==> !Expires(s.q.live[p], limit)
    ensures var m := s.q.live[p];
      Nack(NackedSingly(s, limit, marks), limit, m.owner, m.id).0 == NackedSingly(s, limit, marks[p := true])
  {
    hide Kept, Taken, Count, FirstId, RemoveAt, Expires;
    var live, m := s.q.live, s.q.live[p];
    var ex := Expiring(live, marks, limit);
    var after := After(live, marks, ex);
    NextIsAt(live, marks, limit, p);
    MarkOneMore(live, marks, limit, p);
    BehindFront(after, ex, p, if Expires(m, limit) then BLANK else Returned(m));
    TakenOneMore(live, ex, p);
    var t := Taken(live, ex);
    assert (t + [m])[..|t|] == t;
    hide After, Expiring;
  }

  /** Changing the element at p, behind all marks, and marking it or not. */
  lemma BehindFront<T>(xs: seq<T>, marks: seq<bool>, p: nat, x: T)
    requires |xs| == |marks| && p < |marks| && ClearFrom(marks, p)
    ensures var front := Kept(xs[..p], marks[..p]);
      && Kept(xs[p := x], marks[p := true]) == front + xs[p + 1..]
      && Kept(xs[p := x], marks) == front + ([x] + xs[p + 1..])
  {
    var now := xs[p := x];
    assert now[..p] == xs[..p] && now[p + 1..] == xs[p + 1..];
    KeptAround(now, marks, p);
    KeptWithout(now, marks, p);
  }

  lemma Replace<T>(a: seq<T>, x: T, b: seq<T>, y: T)
    ensures var s := a + ([x] + b);
      && s[|a|] == x && (forall k | 0 <= k < |a| :: s[k] == a[k])
      && RemoveAt(s, |a|) == a + b && s[|a| := y] == a + ([y] + b)
  {
    Middle(a, x, b);
  }

  /** Where the next message to nack stands once the earlier ones have been dealt with. */
  lemma NextIsAt(live: seq<Msg>, marks: seq<bool>, limit: uint32, p: nat)
    requires UniqueIds(live) && |marks| == |live| && p < |marks| && ClearFrom(marks, p)
    ensures
      var ex := Expiring(live, marks, limit);
      var after := After(live, marks, ex);
      var front, cur, m := Kept(after[..p], ex[..p]), Kept(after, ex), live[p];
      && |front| < |cur| && cur[|front|] == m && FirstId(cur, m.id) == |front|
      && RemoveAt(cur, |front|) == front + after[p + 1..]
      && cur[|front| := Returned(m)] == front + ([Returned(m)] + after[p + 1..])
  {
    var ex := Expiring(live, marks, limit);
    var after := After(live, marks, ex);
    var front, cur, m := Kept(after[..p], ex[..p]), Kept(after, ex), live[p];
    KeptAround(after, ex, p);
    Replace(front, m, after[p + 1..], Returned(m));
    assert after[p] == m;
    hide Kept;
    forall k | 0 <= k < |front| ensures cur[k].id != m.id {
      KeptFrom(after[..p], ex[..p], front[k]);
    }
  }

  lemma {:induction false} NackEachIs(s: State, limit: uint32, marks: seq<bool>, b: nat)
    requires UniqueIds(s.q.live) && |marks| == |s.q.live| && b <= |marks|
    requires s.dead.NilInterface? ==> forall i | 0 <= i < |marks| && marks[i] :: !Expires(s.q.live[i], limit)
    ensures NackEach(s, limit, Taken(s.q.live[..b], marks[..b])) == NackedSingly(s, limit, Below(marks, b))
  {
    var live := s.q.live;
    if b == 0 {
      NackedNone(s, limit, Below(marks, 0));
    } else {
      hide NackedSingly, Nack, Taken, UniqueIds, NackEach, Expires;
      var p := b - 1;
      NackEachIs(s, limit, marks, p);
      PassedOne(live, marks, p);
      BelowOne(marks, p);
      if marks[p] {
        NackSinglyStep(s, limit, Below(marks, p), p);
        NackEachSnoc(s, limit, Taken(live[..p], marks[..p]), live[p]);
      }
      assert Taken(live[..p], marks[..p]) + [] == Taken(live[..p], marks[..p]);
    }
  }

  lemma BelowOne(marks: seq<bool>, p: nat)
    requires p < |marks|
    ensures Below(marks, p + 1) == (if marks[p] then Below(marks, p)[p := true] else Below(marks, p))
    ensures ClearFrom(Below(marks, p), p)
  {
  }

  lemma NackEachSnoc(s: State, limit: uint32, targets: seq<Msg>, m: Msg)
    ensures NackEach(s, limit, targets + [m]) == Nack(NackEach(s, limit, targets), limit, m.owner, m.id).0
  {
    assert (targets + [m])[..|targets|] == targets;
  }

  lemma NackedNone(s: State, limit: uint32, none: seq<bool>)
    requires |none| == |s.q.live| && ClearFrom(none, 0)
    ensures NackedSingly(s, limit, none) == s
  {
    var live := s.q.live;
    var ex := Expiring(live, none, limit);
    AllClear(live, ex);
    AllClear(After(live, none, ex), ex);
    assert After(live, none, ex) == live;
  }

  lemma NackEachAll(s: State, limit: uint32, marks: seq<bool>)
    requires UniqueIds(s.q.live) && |marks| == |s.q.live|
    requires s.dead.NilInterface? ==> Count(Expiring(s.q.live, marks, limit)) == 0
    ensures NackEach(s, limit, Taken(s.q.live, marks)) == NackedSingly(s, limit, marks)
  {
    var n := |marks|;
    CountExpiring(s.q.live, marks, limit);
    NackEachIs(s, limit, marks, n);
    assert s.q.live[..n] == s.q.live && marks[..n] == marks && Below(marks, n) == marks;
  }

  /** A successful batch nack equals nacking the same messages singly, as their holders and
      in queue order, exactly when the messages that reach the limit form one run that
      starts at the first or the second position of the queue. */
  lemma BatchNackIsFoldIff(s: State, limit: uint32, ids: seq<Bytes>)
    requires UniqueIds(s.q.live) && forall i | 0 <= i < |s.q.live| :: s.q.live[i].id != []
    requires NackMany(s, limit, ids).1 == Done
    ensures
      NackMany(s, limit, ids).0 == NackEach(s, limit, Taken(s.q.live, IdHits(s.q.live, ids)))
      <==> OneRun(WornMarks(s.q.live, limit, ids))
  {
    var live, marks := s.q.live, NackMarks(s.q.live, ids);
    var ex := Expiring(live, marks, limit);
    NackMarksAreHits(live, ids);
    WornAreExpiring(live, limit, ids);
    NackEachAll(s, limit, marks);
    ReachableIsKeptIff(After(live, marks, ex), ex);
    hide Reachable, Kept, Taken, Count, OneRun, After, Expiring, NackEach, NackMarks, BuryAll, FirstMarks, IdHits;
  }

  /** Whatever a walk from Head reaches is one of the nodes. */
  lemma ReachableIn<T>(xs: seq<T>, ex: seq<bool>, k: nat)
    requires |xs| == |ex| && k < |Reachable(xs, ex)|
    ensures exists j :: 0 <= j < |xs| && Reachable(xs, ex)[k] == xs[j]
  {
    hide Leading, NextMark, PastMarks;
    var r := Reachable(xs, ex);
    if !ex[0] {
      var e := PastMarks(ex);
      assert r[k] == xs[if e == 0 || k == 0 then k else e + k - 1];
    } else {
      assert r[k] == xs[Leading(ex) + k];
    }
  }

  /** A successful batch nack, whoever sends it, ends the lease of every message it lists: those that
      remain are free. */
  lemma BatchNackFreesAll(s: State, limit: uint32, ids: seq<Bytes>)
    requires UniqueIds(s.q.live) && NackMany(s, limit, ids).1 == Done
    ensures forall m :: m in NackMany(s, limit, ids).0.q.live && m.id in ids ==> m.owner == NO_CONSUMER
  {
    var live, marks := s.q.live, NackMarks(s.q.live, ids);
    var ex := Expiring(live, marks, limit);
    var after := After(live, marks, ex);
    AfterFree(live, limit, ids);
    hide Reachable, NackMarks, After, Expiring;
    forall m | m in Reachable(after, ex) && m.id in ids ensures m.owner == NO_CONSUMER {
      var k :| 0 <= k < |Reachable(after, ex)| && Reachable(after, ex)[k] == m;
      ReachableIn(after, ex, k);
      var j :| 0 <= j < |after| && m == after[j];
    }
  }

  lemma AfterFree(live: seq<Msg>, limit: uint32, ids: seq<Bytes>)
    requires UniqueIds(live)
    ensures var marks := NackMarks(live, ids);
      var after := After(live, marks, Expiring(live, marks, limit));
      forall j | 0 <= j < |after| && after[j].id in ids :: after[j].owner == NO_CONSUMER
  {
    NackMarksAreHits(live, ids);
    hide NackMarks;
  }

  /** The marks of a batch nack of the third of three messages. */
  lemma ThirdMarked(a: Msg, b: Msg, m: Msg, limit: uint32)
    requires a.id != m.id && b.id != m.id && Expires(m, limit)
    ensures var live, ex := [a, b, m], [false, false, true];
      && NackMarks(live, [m.id]) == ex && Expiring(live, ex, limit) == ex
      && Count(ex) == 1 && Taken(live, ex) == [m] && PastMarks(ex) == 3
  {
    var live, ex := [a, b, m], [false, false, true];
    assert IdHits(live, [m.id]) == ex;
    assert ex[1..] == [false, true] && [false, true][1..] == [true] && [true][1..] == [];
    assert FirstMarks(ex, 1) == ex;
    assert live[1..] == [b, m] && [b, m][1..] == [m];
    assert Taken([m], [true]) == [m];
    assert Expiring(live, ex, limit) == ex;
  }

  /** A batch nack whose only message, the third, reaches the limit loses the second one: it is
      neither in the queue nor dead-lettered. */
  lemma BatchNackLosesMessage(a: Msg, b: Msg, m: Msg, limit: uint32, cap: uint32)
    requires a.id != m.id && b.id != m.id && Expires(m, limit) && cap > 0
    ensures NackMany(State(Queue([a, b, m], 3), Dlq(cap, Queue([], 0))), limit, [m.id])
            == (State(Queue([a], 2), Dlq(cap, Queue([Fresh(m.id, m.val)], 1))), Done)
  {
    ThirdMarked(a, b, m, limit);
    hide Count, Taken, PastMarks, NackMarks, Expiring, Expires;
    var ex := [false, false, true];
    var after := After([a, b, m], ex, ex);
    assert after[0] == a && [after[0]] + after[3..] == [a];
    assert Reachable(after, ex) == [a];
    var none := Dlq(cap, Queue([], 0));
    assert [m][..0] == [] && BuryAll(none, []) == none;
    assert [] + [Fresh(m.id, m.val)] == [Fresh(m.id, m.val)];
    assert BuryAll(none, [m]) == Bury(none, m);
  }

  /** A walk from Head finds exactly the unmarked messages when the marks form one run at the front. */
  lemma ReachableIsKeptIff(after: seq<Msg>, ex: seq<bool>)
    requires |after| == |ex| > 0
    requires forall i | 0 <= i < |after| :: ex[i] <==> after[i].id == []
    ensures Reachable(after, ex) == Kept(after, ex) <==> OneRun(ex)
  {
    TakenCount(after, ex);
    if !ex[0] {
      KeptBehindFirst(after, ex);
    } else {
      KeptBehindRun(after, ex);
    }
  }

  lemma KeptBehindFirst(after: seq<Msg>, ex: seq<bool>)
    requires |after| == |ex| > 0 && !ex[0]
    ensures Reachable(after, ex) == Kept(after, ex) <==> OneRun(ex)
  {
    hide Kept, Taken, Count, Leading, NextMark, PastMarks, OneRun;
    var n, e := |after|, PastMarks(ex);
    if e == 0 {
      UnmarkedRun(after, ex);
    } else {
      RunOfAll(ex);
      KeptAcross(after, ex);
      var mid := ex[1..e];
      CountAllIff(mid);
      TakenCount(after[1..e], mid);
    }
  }

  lemma UnmarkedRun(after: seq<Msg>, ex: seq<bool>)
    requires |after| == |ex| > 0 && !ex[0] && PastMarks(ex) == 0
    ensures Reachable(after, ex) == Kept(after, ex) && OneRun(ex)
  {
    AllClear(after, ex);
    assert Leading(ex[1..]) == 0;
  }

  /** Marks that leave out the first position form one run when nothing is skipped up to the last one. */
  lemma RunOfAll(ex: seq<bool>)
    requires ex != [] && !ex[0] && PastMarks(ex) > 0
    ensures OneRun(ex) <==> forall i | 0 <= i < PastMarks(ex) - 1 :: ex[1..PastMarks(ex)][i]
  {
    var e, g := PastMarks(ex), Leading(ex[1..]);
    assert forall i | 0 <= i < |ex| - 1 :: ex[1..][i] == ex[i + 1];
    assert forall i | 0 <= i < e - 1 :: ex[1..e][i] == ex[1..][i];
    if forall i | 0 <= i < e - 1 :: ex[1..e][i] {
      assert g >= e - 1;
    } else if g < e - 1 {
      assert ex[e - 1] && 1 + g <= e - 1;
    }
  }

  lemma KeptFirst<T>(xs: seq<T>, marks: seq<bool>)
    requires |xs| == |marks| > 0 && !marks[0]
    ensures Kept(xs, marks) == [xs[0]] + Kept(xs[1..], marks[1..])
  {
  }

  lemma KeptBefore<T>(xs: seq<T>, marks: seq<bool>, k: nat)
    requires |xs| == |marks| && k <= |xs| && ClearFrom(marks, k)
    ensures Kept(xs, marks) == Kept(xs[..k], marks[..k]) + xs[k..]
  {
    AllClear(xs[k..], marks[k..]);
    hide Kept, Taken, Count;
    SplitKept(xs, marks, k);
  }

  lemma KeptAcross<T>(after: seq<T>, ex: seq<bool>)
    requires |after| == |ex| > 0 && !ex[0] && PastMarks(ex) > 0
    ensures var e := PastMarks(ex);
      Kept(after, ex) == [after[0]] + (Kept(after[1..e], ex[1..e]) + after[e..])
  {
    hide Kept, PastMarks;
    var e := PastMarks(ex);
    var ys, ey := after[1..], ex[1..];
    KeptFirst(after, ex);
    KeptBefore(ys, ey, e - 1);
    assert ys[..e - 1] == after[1..e] && ey[..e - 1] == ex[1..e] && ys[e - 1..] == after[e..];
  }

  lemma {:induction false} CountAllIff(marks: seq<bool>)
    ensures Count(marks) == |marks| <==> forall i | 0 <= i < |marks| :: marks[i]
  {
    if marks != [] {
      CountAllIff(marks[1..]);
      if forall i | 0 <= i < |marks| - 1 :: marks[1..][i] {
        assert forall i | 1 <= i < |marks| :: marks[i] == marks[1..][i - 1];
      }
      if forall i | 0 <= i < |marks| :: marks[i] {
        assert forall i | 0 <= i < |marks| - 1 :: marks[1..][i] == marks[i + 1];
      }
    }
  }

  lemma KeptBehindRun(after: seq<Msg>, ex: seq<bool>)
    requires |after| == |ex| > 0 && ex[0]
    requires forall i | 0 <= i < |after| :: ex[i] <==> after[i].id == []
    ensures Reachable(after, ex) == Kept(after, ex) <==> OneRun(ex)
  {
    hide Kept, Leading, NextMark, PastMarks;
    var n, g := |after|, Leading(ex);
    var p := NextMark(ex, g);
    assert ex[0..] == ex;
    if p == n {
      KeptBehindLeading(after, ex);
    } else {
      var chain := after[g..p + 1];
      assert chain[p - g] == after[p] && after[p].id == [];
      if chain == Kept(after, ex) {
        assert after[p] in Kept(after, ex);
        KeptFrom(after, ex, after[p]);
      }
    }
  }

  /** Expired messages at the front are cut out and all others stay. */
  lemma OneRunReaches(after: seq<Msg>, ex: seq<bool>)
    requires |after| == |ex| && OneRun(ex)
    ensures Reachable(after, ex) == Kept(after, ex)
  {
    if after == [] {
    } else if !ex[0] {
      KeptBehindFirst(after, ex);
    } else {
      assert ex[0..] == ex;
      KeptBehindLeading(after, ex);
    }
  }

  lemma NotSevered(ex: seq<bool>)
    requires OneRun(ex)
    ensures !Severed(ex)
  {
    assert ex[0..] == ex;
  }

  lemma KeptBehindLeading<T>(after: seq<T>, ex: seq<bool>)
    requires |after| == |ex| && NextMark(ex, Leading(ex)) == |ex|
    ensures Kept(after, ex) == after[Leading(ex)..]
  {
    var g := Leading(ex);
    SplitKept(after, ex, g);
    AllClear(after[g..], ex[g..]);
    CountAllIff(ex[..g]);
    TakenCount(after[..g], ex[..g]);
    hide Kept, Count, Taken, Leading, NextMark;
    assert Kept(after[..g], ex[..g]) == [];
  }
}
