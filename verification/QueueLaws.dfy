/** What one operation of the leased queue means, stated without its definition. */
module QueueLaws {
  import opened Types
  import opened Marks
  import opened QueueModel

  /** No two messages of the queue share an id. */
  ghost predicate UniqueIds(live: seq<Msg>) {
    forall i, j | 0 <= i < j < |live| :: live[i].id != live[j].id
  }

  ghost predicate DistinctIds(ids: seq<Bytes>) {
    forall i, j | 0 <= i < j < |ids| :: ids[i] != ids[j]
  }

  // ----- time

  /** Elapsed time is exact unless the two times are 2^63 or more apart; always it is so modulo 2^64. */
  lemma ElapsedExactIff(now: int64, before: int64)
    ensures Sub64(now, before) == now - before <==> -0x8000_0000_0000_0000 <= now - before < 0x8000_0000_0000_0000
    ensures (Sub64(now, before) - (now - before)) % 0x1_0000_0000_0000_0000 == 0
  {
  }

  // ----- admission

  function EnqueueAll(q: Queue, cap: uint32, batch: seq<MessageBatch>): Queue
    decreases |batch|
  {
    if batch == [] then q
    else EnqueueAll(Enqueue(q, cap, batch[0].id, batch[0].data), cap, batch[1..])
  }

  lemma {:induction false} EnqueueAllFits(q: Queue, cap: uint32, batch: seq<MessageBatch>)
    ensures
      var n := if q.amount >= cap then 0 else if q.amount + |batch| <= cap then |batch| else cap - q.amount;
      EnqueueAll(q, cap, batch) == Queue(q.live + FreshAll(batch[..n]), q.amount + n)
    decreases |batch|
  {
    var n := if q.amount >= cap then 0 else if q.amount + |batch| <= cap then |batch| else cap - q.amount;
    if batch == [] {
      assert q.live + FreshAll(batch[..n]) == q.live;
    } else {
      var m := Fresh(batch[0].id, batch[0].data);
      EnqueueAllFits(Enqueue(q, cap, batch[0].id, batch[0].data), cap, batch[1..]);
      if n == 0 {
        assert FreshAll(batch[1..][..0]) == [] && q.live + [] == q.live;
        assert FreshAll(batch[..0]) == [];
      } else {
        assert FreshAll(batch[..n]) == [m] + FreshAll(batch[1..][..n - 1]);
        assert (q.live + [m]) + FreshAll(batch[1..][..n - 1]) == q.live + FreshAll(batch[..n]);
      }
    }
  }

  /** A batch insert tests the capacity once: it equals inserting one by one exactly
      when the batch fits or nothing does. */
  lemma BatchEnqueueIsFoldIff(q: Queue, cap: uint32, batch: seq<MessageBatch>)
    ensures BatchEnqueue(q, cap, batch) == EnqueueAll(q, cap, batch)
            <==> q.amount >= cap || q.amount + |batch| <= cap
  {
    EnqueueAllFits(q, cap, batch);
    assert batch[..|batch|] == batch;
    if q.amount >= cap {
      assert q.live + FreshAll(batch[..0]) == q.live;
    }
    if batch == [] {
      assert q.live + FreshAll(batch) == q.live;
    }
  }

  /** A batch is admitted whole as soon as one message fits, also beyond the capacity. */
  lemma BatchEnqueueWhole(q: Queue, cap: uint32, batch: seq<MessageBatch>)
    ensures var q' := BatchEnqueue(q, cap, batch);
      if q.amount < cap then
        && q'.amount == q.amount + |batch|
        && |q'.live| == |q.live| + |batch| && q'.live[..|q.live|] == q.live
        && forall i | 0 <= i < |batch| :: q'.live[|q.live| + i] == Msg(batch[i].id, batch[i].data, [], 0, 0)
      else q' == q
  {
  }

  // ----- fetching

  /** The messages that c may be given: those that it holds, those that nobody holds, and those whose
      lease is older than ttl. */
  function EligibleHits(live: seq<Msg>, c: Bytes, now: int64, ttl: int64): (r: seq<bool>)
    ensures |r| == |live|
    ensures forall i | 0 <= i < |live| ::
              r[i] == (live[i].owner == c || live[i].owner == [] || Sub64(now, live[i].time) > ttl)
  {
    seq(|live|, i requires 0 <= i < |live| =>
      live[i].owner == c || live[i].owner == [] || Sub64(now, live[i].time) > ttl)
  }

  lemma {:induction false} FetchStepMarks(live: seq<Msg>, amount: nat, c: Bytes, now: int64, ttl: int64)
    requires live != [] && amount > 0
    ensures var hits := EligibleHits(live, c, now, ttl);
            var rest := if hits[0] then amount - 1 else amount;
            FirstMarks(hits, amount) == [hits[0]] + FirstMarks(EligibleHits(live[1..], c, now, ttl), rest)
  {
    var hits := EligibleHits(live, c, now, ttl);
    assert hits[1..] == EligibleHits(live[1..], c, now, ttl);
  }

  lemma {:induction false} FetchReleases(live: seq<Msg>, amount: nat, c: Bytes, now: int64, ttl: int64)
    ensures
      var r := Fetch(live, amount, c, now, ttl);
      var marks := FirstMarks(EligibleHits(live, c, now, ttl), amount);
      && |r.live| == |live|
      && forall i | 0 <= i < |live| ::
           r.live[i] == if marks[i] then live[i].(owner := c, time := now) else live[i]
  {
    var hits := EligibleHits(live, c, now, ttl);
    FirstMarksCount(hits, amount);
    if live == [] {
    } else if amount == 0 {
      ClearIfNone(FirstMarks(hits, amount));
      AllClear(live, FirstMarks(hits, amount));
    } else {
      FetchStepMarks(live, amount, c, now, ttl);
      FetchReleases(live[1..], if hits[0] then amount - 1 else amount, c, now, ttl);
    }
  }

  /** A fetch returns the first min(amount, k) of the k eligible messages in order,
      and re-leases those and no others. */
  lemma {:induction false} FetchTakesFirstEligible(live: seq<Msg>, amount: nat, c: Bytes, now: int64, ttl: int64)
    ensures
      var r := Fetch(live, amount, c, now, ttl);
      var hits := EligibleHits(live, c, now, ttl);
      var marks := FirstMarks(hits, amount);
      && r.got == Taken(live, marks)
      && |r.got| == (if Count(hits) < amount then Count(hits) else amount)
      && |r.live| == |live|
      && forall i | 0 <= i < |live| ::
           r.live[i] == if marks[i] then live[i].(owner := c, time := now) else live[i]
  {
    FetchGets(live, amount, c, now, ttl);
    FetchReleases(live, amount, c, now, ttl);
    TakenCount(live, FirstMarks(EligibleHits(live, c, now, ttl), amount));
    FirstMarksCount(EligibleHits(live, c, now, ttl), amount);
  }

  lemma {:induction false} FetchGets(live: seq<Msg>, amount: nat, c: Bytes, now: int64, ttl: int64)
    ensures Fetch(live, amount, c, now, ttl).got == Taken(live, FirstMarks(EligibleHits(live, c, now, ttl), amount))
  {
    var hits := EligibleHits(live, c, now, ttl);
    FirstMarksCount(hits, amount);
    if live == [] {
    } else if amount == 0 {
      ClearIfNone(FirstMarks(hits, amount));
      AllClear(live, FirstMarks(hits, amount));
    } else {
      FetchStepMarks(live, amount, c, now, ttl);
      FetchGets(live[1..], if hits[0] then amount - 1 else amount, c, now, ttl);
    }
  }

  /** A fetch that asks for more than it gets has got exactly the messages that are held by the fetcher
      or by nobody, or whose lease is older than ttl. */
  lemma FetchReturnsIff(live: seq<Msg>, amount: nat, c: Bytes, now: int64, ttl: int64, m: Msg)
    requires |Fetch(live, amount, c, now, ttl).got| < amount
    ensures m in Fetch(live, amount, c, now, ttl).got
            <==> m in live && (m.owner == c || m.owner == [] || Sub64(now, m.time) > ttl)
  {
    var hits := EligibleHits(live, c, now, ttl);
    FetchTakesFirstEligible(live, amount, c, now, ttl);
    FirstMarksCount(hits, amount);
    FirstMarksAll(hits, amount);
    TakenIn(live, hits, m);
    hide Fetch, Taken, FirstMarks, Count;
  }

  /** A consumer that fetches again is given all that it holds, and holds it from now on. */
  lemma FetchingAgainRenews(live: seq<Msg>, amount: nat, c: Bytes, now: int64, ttl: int64, i: nat)
    requires |Fetch(live, amount, c, now, ttl).got| < amount
    requires i < |live| && live[i].owner == c
    ensures var r := Fetch(live, amount, c, now, ttl);
      live[i] in r.got && |r.live| == |live| && r.live[i] == live[i].(time := now)
  {
    var hits := EligibleHits(live, c, now, ttl);
    FetchReturnsIff(live, amount, c, now, ttl, live[i]);
    FetchTakesFirstEligible(live, amount, c, now, ttl);
    FirstMarksCount(hits, amount);
    FirstMarksAll(hits, amount);
    hide Fetch, Taken, FirstMarks, Count;
  }

  // ----- single ack and nack against the holder

  /** The count of a message after one more nack, in 32 bits. */
  function NextCount(m: Msg): uint32 {
    if m.fetched == 0xFFFF_FFFF then 0 else m.fetched + 1
  }

  /** Only the holder of a message can ack or nack it; anyone else changes nothing. */
  lemma OnlyHolderSettles(s: State, limit: uint32, c: Bytes, i: nat)
    requires UniqueIds(s.q.live) && i < |s.q.live|
    ensures var id := s.q.live[i].id;
      && (s.q.live[i].owner != c ==> Ack(s.q, c, id) == (s.q, Refused) && Nack(s, limit, c, id) == (s, Refused))
      && (s.q.live[i].owner == c ==>
            && Ack(s.q, c, id) == (Queue(RemoveAt(s.q.live, i), s.q.amount - 1), Done)
            && Nack(s, limit, c, id) == NackAt(s, limit, i))
  {
    var id := s.q.live[i].id;
    var j, k := FirstId(s.q.live, id), FirstHeld(s.q.live, c, id);
    assert j == i;
    assert k < |s.q.live| ==> k == i;
  }

  /** Whatever ids repeat: an ack takes out the first message that c holds under the id and lowers Amount
      by one; with none it is refused and changes nothing. */
  lemma AckMeaning(q: Queue, c: Bytes, id: Bytes)
    ensures (forall i | 0 <= i < |q.live| :: !(q.live[i].id == id && q.live[i].owner == c)) ==>
              Ack(q, c, id) == (q, Refused)
    ensures forall i | 0 <= i < |q.live| && q.live[i].id == id && q.live[i].owner == c ::
              (forall j | 0 <= j < i :: !(q.live[j].id == id && q.live[j].owner == c)) ==>
                Ack(q, c, id) == (Queue(q.live[..i] + q.live[i + 1..], q.amount - 1), Done)
  {
  }

  /** Unlocking a consumer frees every message that it holds, and does nothing else to those or to others. */
  lemma UnlockMeaning(live: seq<Msg>, c: Bytes)
    ensures |UnlockAll(live, c)| == |live|
    ensures forall i | 0 <= i < |live| ::
              && (live[i].owner != c ==> UnlockAll(live, c)[i] == live[i])
              && (live[i].owner == c ==>
                    UnlockAll(live, c)[i] == Msg(live[i].id, live[i].val, [], live[i].time, live[i].fetched))
  {
  }
}
