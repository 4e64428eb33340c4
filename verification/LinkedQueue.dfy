/** The heap form of the queue: list nodes, the pool that recycles them and the
    singly linked list. Every method is specified by the functions of QueueModel. */
module LinkedQueue {
  import opened Types
  import opened Marks
  import opened QueueModel
  import opened BatchNack

  class ListNode {
    var ID: Bytes
    var Val: Bytes
    var Next: ListNode?
    var ConsumerID: Bytes
    var time: int64
    var fetched: uint32
    ghost var spare: bool  // handed to the pool and not taken out of it since

    constructor ()
      ensures Holds(BLANK) && Next == null && !spare
    {
      ID, Val, Next, ConsumerID, time, fetched := [], [], null, NO_CONSUMER, 0, 0;
      spare := false;
    }

    ghost predicate Holds(m: Msg)
      reads this
    {
      m == Msg(ID, Val, ConsumerID, time, fetched)
    }

    /** Only the link may have changed. */
    twostate predicate Untouched()
      reads this
    {
      unchanged(`ID, `Val, `ConsumerID, `time, `fetched, `spare)
    }

    method Fill(id: Bytes, val: Bytes)
      requires Holds(BLANK)
      modifies this
      ensures Holds(Fresh(id, val)) && Next == old(Next) && spare == old(spare)
    {
      ID, Val, ConsumerID, time := id, val, NO_CONSUMER, 0;
    }

    /** Gives the node up and counts the nack. */
    method Return(ghost m: Msg)
      requires Holds(m)
      modifies `ConsumerID, `fetched
      ensures Holds(Returned(m))
    {
      ConsumerID := NO_CONSUMER;
      fetched := Inc32(fetched);
    }

    method Lease(consumer: Bytes, now: int64, ghost m: Msg)
      requires Holds(m)
      modifies `ConsumerID, `time
      ensures Holds(m.(owner := consumer, time := now))
    {
      ConsumerID := consumer;
      time := now;
    }

    method Reset()
      modifies this
      ensures Holds(BLANK) && Next == null && spare == old(spare)
    {
      ID, Val, Next, ConsumerID, time, fetched := [], [], null, NO_CONSUMER, 0, 0;
    }
  }

  /** The bounded channel of spare nodes, as a queue of nodes. */
  class NodeObjectPool {
    var pool: seq<ListNode>
    const maxSize: nat

    constructor (maxSize: nat)
      ensures pool == [] && this.maxSize == maxSize
    {
      this.maxSize := maxSize;
      pool := [];
    }

    /** Spare nodes are distinct, reset and no more than maxSize. */
    ghost predicate Valid()
      reads this, pool
    {
      && |pool| <= maxSize
      && (forall i, j | 0 <= i < j < |pool| :: pool[i] != pool[j])
      && forall i {:trigger pool[i]} | 0 <= i < |pool| ::
           pool[i].spare && pool[i].Holds(BLANK) && pool[i].Next == null
    }

    method GetObject() returns (obj: ListNode)
      requires Valid()
      modifies this, if pool == [] then {} else {pool[0]}
      ensures Valid() && obj.Holds(BLANK) && obj.Next == null && !obj.spare
      ensures old(pool) == [] ==> fresh(obj) && pool == []
      ensures old(pool) != [] ==> obj == old(pool)[0] && pool == old(pool)[1..]
    {
      if pool != [] {
        obj := pool[0];
        pool := pool[1..];
        obj.spare := false;
      } else {
        obj := new ListNode();
      }
    }

    method ReleaseObject(obj: ListNode)
      modifies this, obj
      ensures obj.Holds(BLANK) && obj.Next == null && obj.spare
      ensures pool == old(pool) + if |old(pool)| < maxSize then [obj] else []
    {
      obj.Reset();
      obj.spare := true;
      if |pool| < maxSize {
        pool := pool + [obj];
      }
    }
  }

  /** Distinct nodes, none of them spare, hold the given messages; each links
      to the next one and the last one to nothing. */
  ghost predicate Chain(ns: seq<ListNode>, ms: seq<Msg>)
    reads ns
  {
    && |ns| == |ms|
    && (forall i {:trigger ns[i]} | 0 <= i < |ns| :: !ns[i].spare && ns[i].Holds(ms[i]))
    && (forall i, j | 0 <= i < j < |ns| :: ns[i] != ns[j])
    && (forall i {:trigger ns[i].Next} | 0 <= i < |ns| - 1 :: ns[i].Next == ns[i + 1])
    && (ns != [] ==> ns[|ns| - 1].Next == null)
  }

  /** The nodes ns are owned and none of them is in the chain. */
  ghost predicate Apart(ns: seq<ListNode>, chain: seq<ListNode>, repr: set<object>) {
    && (forall i | 0 <= i < |ns| :: ns[i] in repr)
    && (forall i, j | 0 <= i < |chain| && 0 <= j < |ns| :: chain[i] != ns[j])
  }

  /** Linking past the node at position i leaves the chain without it. */
  lemma ChainWithout(ns: seq<ListNode>, ms: seq<Msg>, i: nat)
    requires i < |ns| == |ms|
    requires forall k {:trigger ns[k]} | 0 <= k < |ns| :: ns[k].Holds(ms[k]) && !ns[k].spare
    requires forall j, k | 0 <= j < k < |ns| :: ns[j] != ns[k]
    requires forall k {:trigger ns[k].Next} | 0 <= k < |ns| && k != i ::
               var next := if k + 1 == i then i + 1 else k + 1;
               ns[k].Next == if next < |ns| then ns[next] else null
    ensures Chain(RemoveAt(ns, i), RemoveAt(ms, i))
  {
  }

  lemma ChainOne(node: ListNode, m: Msg)
    requires node.Holds(m) && node.Next == null && !node.spare
    ensures Chain([node], [m])
  {
  }

  /** Linking a chain behind another joins the two. */
  lemma ChainJoin(ns: seq<ListNode>, ms: seq<Msg>, added: seq<ListNode>, msgs: seq<Msg>)
    requires |ns| == |ms| && Chain(added, msgs) && added != []
    requires forall k {:trigger ns[k]} | 0 <= k < |ns| :: ns[k].Holds(ms[k]) && !ns[k].spare
    requires forall j, k | 0 <= j < k < |ns| :: ns[j] != ns[k]
    requires forall j, k | 0 <= j < |ns| && 0 <= k < |added| :: ns[j] != added[k]
    requires forall k {:trigger ns[k].Next} | 0 <= k < |ns| ::
               ns[k].Next == if k + 1 < |ns| then ns[k + 1] else added[0]
    ensures Chain(ns + added, ms + msgs)
  {
  }

  /** Linking nodes behind the first one of a chain leaves the chain with them. */
  lemma ChainPutBack(ns: seq<ListNode>, ms: seq<Msg>, added: seq<ListNode>, msgs: seq<Msg>)
    requires |ns| == |ms| > 0 && Loose(added, msgs, ns, set n | n in added) && 1 <= |added| <= 2
    requires forall k {:trigger ns[k]} | 0 <= k < |ns| :: ns[k].Holds(ms[k]) && !ns[k].spare
    requires forall j, k | 0 <= j < k < |ns| :: ns[j] != ns[k]
    requires ns[0].Next == added[0] && (|added| == 2 ==> added[0].Next == added[1])
    requires added[|added| - 1].Next == if |ns| > 1 then ns[1] else null
    requires forall k {:trigger ns[k].Next} | 1 <= k < |ns| :: ns[k].Next == if k + 1 < |ns| then ns[k + 1] else null
    ensures Chain([ns[0]] + added + ns[1..], [ms[0]] + msgs + ms[1..])
  {
    var chain, held := [ns[0]] + added + ns[1..], [ms[0]] + msgs + ms[1..];
    var a := |added|;
    assert forall k | 0 <= k < |chain| ::
        chain[k] == if k == 0 then ns[0] else if k <= a then added[k - 1] else ns[k - a];
    assert forall k | 0 <= k < |held| :: held[k] == if k == 0 then ms[0] else if k <= a then msgs[k - 1] else ms[k - a];
  }

  /** Distinct nodes outside the chain hold the given messages. */
  ghost predicate Loose(ns: seq<ListNode>, ms: seq<Msg>, chain: seq<ListNode>, repr: set<object>)
    reads ns
  {
    && |ns| == |ms|
    && (forall i {:trigger ns[i]} | 0 <= i < |ns| :: ns[i] in repr && !ns[i].spare && ns[i].Holds(ms[i]))
    && (forall i, j | 0 <= i < j < |ns| :: ns[i] != ns[j])
    && (forall i, j | 0 <= i < |chain| && 0 <= j < |ns| :: chain[i] != ns[j])
  }

  /** A node and the node that the batch nack takes for its predecessor. */
  datatype PairNode = PairNode(prev: ListNode?, current: ListNode)

  datatype DeadLetter = NoPointer | NilInterface | To(queue: LinkedList)

  class LinkedList {
    var Head: ListNode?
    var Tail: ListNode?
    var Amount: int
    const cap: uint32
    const nodeTTL: int64
    const objPool: NodeObjectPool
    const deadLetter: DeadLetter
    const fetchLimit: uint32

    ghost var nodes: seq<ListNode>  // the chain from Head
    ghost var live: seq<Msg>        // what its nodes hold
    ghost var nacked: seq<bool>     // during a batch nack, the positions dealt with
    ghost var Repr: set<object>

    /** The chain is finite and acyclic, runs from Head to Tail, shares no node
        with the pool, and Amount does not under-report it. */
    ghost predicate Valid()
      reads this, Repr
    {
      ChainedTo(|nodes| - 1)
    }

    /** As Valid, but with the Tail pointer at a given position of the chain. */
    ghost predicate ChainedTo(tail: int)
      reads this, Repr
    {
      Stocked() && Chained(tail)
    }

    /** The pool belongs to the list and is in good order. */
    ghost predicate Stocked()
      reads this, Repr
    {
      && this in Repr
      && objPool in Repr
      && (forall i | 0 <= i < |objPool.pool| :: objPool.pool[i] in Repr)
      && objPool.Valid()
    }

    /** The chain runs from Head, with Tail at a given position of it. */
    ghost predicate Chained(tail: int)
      reads this, Repr
    {
      && this in Repr
      && (forall i | 0 <= i < |nodes| :: nodes[i] in Repr)
      && Chain(nodes, live)
      && Head == (if nodes == [] then null else nodes[0])
      && Tail == (if 0 <= tail < |nodes| then nodes[tail] else null)
      && Amount >= |nodes|
    }

    /** The list and the dead-letter queue it may point to, which share nothing. */
    ghost predicate ValidPair()
      reads this, Repr, DeadRepr()
    {
      && Valid()
      && (deadLetter.To? ==> deadLetter.queue.Valid() && Repr !! deadLetter.queue.Repr)
    }

    ghost function DeadRepr(): set<object>
      reads if deadLetter.To? then {deadLetter.queue} else {}
    {
      if deadLetter.To? then {deadLetter.queue} + deadLetter.queue.Repr else {}
    }

    ghost function DeadValue(): Dead
      reads if deadLetter.To? then {deadLetter.queue} else {}
    {
      match deadLetter
      case NoPointer => QueueModel.NoPointer
      case NilInterface => QueueModel.NilInterface
      case To(q) => Dlq(q.cap, q.Value())
    }

    ghost function PairValue(): State
      reads this, if deadLetter.To? then {deadLetter.queue} else {}
    {
      State(Value(), DeadValue())
    }

    ghost function Value(): Queue
      reads this
    {
      Queue(live, Amount)
    }

    constructor (size: uint32, fetchLimit: uint32, nodeTTL: int64, deadLetter: DeadLetter)
      ensures Valid() && fresh(Repr)
      ensures Value() == Queue([], 0) && objPool.pool == []
      ensures cap == size && this.fetchLimit == fetchLimit && this.nodeTTL == nodeTTL
      ensures this.deadLetter == deadLetter
    {
      cap, this.fetchLimit, this.nodeTTL, this.deadLetter := size, fetchLimit, nodeTTL, deadLetter;
      Head, Tail, Amount := null, null, 0;
      objPool := new NodeObjectPool(size);
      nodes, live, nacked := [], [], [];
      new;
      Repr := {this, objPool};
    }

    /** Takes a node from the pool and fills it in. */
    method NewNode(id: Bytes, val: Bytes) returns (node: ListNode)
      requires Valid()
      modifies `Repr, objPool, if objPool.pool == [] then {} else {objPool.pool[0]}
      ensures Valid() && Repr == old(Repr) + {node}
      ensures fresh(node) || (node in old(Repr) && old(node.spare))
      ensures Chain([node], [Fresh(id, val)]) && Apart([node], nodes, Repr)
      ensures objPool.pool == if old(objPool.pool) == [] then [] else old(objPool.pool)[1..]
    {
      hide Chain;
      ChainOf();
      node := objPool.GetObject();
      Repr := Repr + {node};
      node.Fill(id, val);
      ChainOne(node, Fresh(id, val));
    }

    method Enqueue(id: Bytes, val: Bytes)
      requires Valid()
      modifies Repr
      ensures Valid() && fresh(Repr - old(Repr))
      ensures Value() == QueueModel.Enqueue(old(Value()), cap, id, val)
      ensures objPool.pool == if old(objPool.pool) == [] then [] else old(objPool.pool)[1..]
    {
      var newNode := NewNode(id, val);
      if Amount >= cap {
        return;
      }
      Append(newNode, newNode, 1, [newNode], [Fresh(id, val)]);
    }

    /** Links a chain of new nodes behind the tail. */
    method Append(first: ListNode, last: ListNode, amount: nat, ghost added: seq<ListNode>, ghost msgs: seq<Msg>)
      requires Valid()
      requires Chain(added, msgs) && |added| == amount > 0
      requires added[0] == first && added[amount - 1] == last
      requires Apart(added, nodes, Repr)
      modifies `Head, `Tail, `Amount, `nodes, `live, if nodes == [] then {} else {nodes[|nodes| - 1]}
      ensures Valid()
      ensures Value() == Queue(old(live) + msgs, old(Amount) + amount)
    {
      hide ChainedTo, Chain, NodeObjectPool.Valid;
      ChainOf();
      if Head == null {
        Head := first;
      } else {
        LinkTo(Tail, first);
      }
      Tail := last;
      Amount := Amount + amount;
      ChainJoin(nodes, live, added, msgs);
      Become(nodes + added, live + msgs, |nodes| + |added| - 1);
    }

    /** What Valid says of the chain, node by node. */
    lemma ChainOf()
      requires Valid()
      ensures Stocked() && |live| == |nodes| <= Amount && (Head == null <==> nodes == []) && Head == NodeAt(nodes, 0)
      ensures nodes != [] ==> Tail == nodes[|nodes| - 1] && Tail.Next == null
      ensures forall k {:trigger nodes[k]} | 0 <= k < |nodes| ::
                nodes[k] in Repr && nodes[k].Holds(live[k]) && !nodes[k].spare
      ensures forall j, k | 0 <= j < k < |nodes| :: nodes[j] != nodes[k]
      ensures forall k {:trigger nodes[k].Next} | 0 <= k < |nodes| - 1 :: nodes[k].Next == nodes[k + 1]
    {
    }

    /** Links a node that is not in the pool. */
    method LinkTo(node: ListNode, next: ListNode?)
      requires Stocked() && !node.spare
      modifies node`Next
      ensures Stocked() && node.Next == next
    {
      node.Next := next;
    }

    /** Makes a chain that the pointers already form the chain of the list. */
    ghost method Become(ns: seq<ListNode>, ms: seq<Msg>, tail: int)
      requires Stocked() && Chain(ns, ms) && |ns| <= Amount && Head == NodeAt(ns, 0)
      requires Tail == if 0 <= tail < |ns| then ns[tail] else null
      requires forall i | 0 <= i < |ns| :: ns[i] in Repr
      modifies `nodes, `live
      ensures ChainedTo(tail) && nodes == ns && live == ms
    {
      hide Chain, NodeObjectPool.Valid;
      nodes, live := ns, ms;
    }

    method BatchEnqueue(messages: seq<MessageBatch>)
      requires Valid()
      modifies Repr
      ensures Valid() && fresh(Repr - old(Repr))
      ensures Value() == QueueModel.BatchEnqueue(old(Value()), cap, messages)
    {
      if |messages| == 0 || Amount >= cap {
        return;
      }

      ghost var added;
      var headNode, currentEnd;
      headNode, currentEnd, added := NewNodes(messages);
      Append(headNode, currentEnd, |messages|, added, FreshAll(messages));
    }

    /** Builds a chain of new nodes that is not yet linked to the list. */
    method NewNodes(messages: seq<MessageBatch>)
      returns (headNode: ListNode, currentEnd: ListNode, ghost added: seq<ListNode>)
      requires Valid() && messages != []
      modifies Repr
      ensures Valid() && fresh(Repr - old(Repr)) && Value() == old(Value())
      ensures Chain(added, FreshAll(messages)) && Apart(added, nodes, Repr)
      ensures headNode == added[0] && currentEnd == added[|added| - 1]
    {
      hide Chain, ChainedTo, FreshAll;
      Pooled();
      headNode := NewNode(messages[0].id, messages[0].data);
      currentEnd := headNode;
      added := [headNode];
      FreshAllOne(messages);
      var i := 1;
      while i < |messages|
        invariant 1 <= i == |added| <= |messages|
        invariant Valid() && fresh(Repr - old(Repr)) && Value() == old(Value())
        invariant added[0] == headNode && added[i - 1] == currentEnd
        invariant Chain(added, FreshAll(messages[..i])) && Apart(added, nodes, Repr)
      {
        var m := messages[i];
        Pooled();
        currentEnd := LinkNew(currentEnd, m.id, m.data, added, FreshAll(messages[..i]));
        added := added + [currentEnd];
        FreshAllStep(messages, i);
        i := i + 1;
      }
      assert messages[..i] == messages;
    }

    /** What Valid says of the pool. */
    lemma Pooled()
      requires Valid()
      ensures this in Repr && objPool in Repr && (objPool.pool != [] ==> objPool.pool[0] in Repr)
    {
    }

    static lemma FreshAllOne(messages: seq<MessageBatch>)
      requires messages != []
      ensures FreshAll(messages[..1]) == [Fresh(messages[0].id, messages[0].data)]
    {
    }

    method LinkNew(last: ListNode, id: Bytes, val: Bytes, ghost ns: seq<ListNode>, ghost ms: seq<Msg>)
      returns (node: ListNode)
      requires Valid() && Chain(ns, ms) && ns != [] && last == ns[|ns| - 1]
      requires Apart(ns, nodes, Repr)
      modifies `Repr, objPool, if objPool.pool == [] then {} else {objPool.pool[0]}, last`Next
      ensures Valid() && Repr == old(Repr) + {node} && (fresh(node) || node in old(Repr))
      ensures Chain(ns + [node], ms + [Fresh(id, val)])
      ensures Apart(ns + [node], nodes, Repr)
      ensures objPool.pool == if old(objPool.pool) == [] then [] else old(objPool.pool)[1..]
    {
      node := NewNode(id, val);
      Link(last, node, ns, ms, Fresh(id, val));
    }

    method Link(last: ListNode, node: ListNode, ghost ns: seq<ListNode>, ghost ms: seq<Msg>, ghost m: Msg)
      requires Valid() && Chain(ns, ms) && ns != [] && last == ns[|ns| - 1]
      requires forall i | 0 <= i < |nodes| :: nodes[i] != last
      requires Chain([node], [m])
      requires forall i | 0 <= i < |ns| :: ns[i] != node
      modifies last`Next
      ensures Valid() && Chain(ns + [node], ms + [m])
    {
      last.Next := node;
    }

    /** Gives a node up; at the retry limit moves its message to the dead-letter
        queue, unlinks the node, given the node that the caller believes to come
        before it, and releases it. */
    method NackNode(prev: ListNode?, current: ListNode, ghost m: Msg) returns (panicked: bool)
      requires current.Holds(m) && current != prev && (current != Head ==> prev != null)
      requires deadLetter.To? ==>
                 && deadLetter.queue.Valid()
                 && {this, current, objPool, prev} !! deadLetter.queue.Repr
      modifies this`Head, this`Tail, this`Amount, objPool, current
      modifies (if prev == null then {} else {prev})`Next, DeadRepr()
      ensures deadLetter.To? ==>
                && deadLetter.queue.Valid()
                && fresh(deadLetter.queue.Repr - old(deadLetter.queue.Repr))
      ensures DeadValue() == if Expires(m, fetchLimit) then Bury(old(DeadValue()), m) else old(DeadValue())
      ensures panicked <==> Expires(m, fetchLimit) && deadLetter.NilInterface?
      ensures !panicked ==> NodeNacked(prev, current, m)
    {
      hide Valid, Bury;
      DeadOwned();
      BuryReturned(DeadValue(), m);
      current.Return(m);
      if current.fetched >= fetchLimit {
        panicked := HandleThresholdExpire(prev, current, Returned(m));
        DeadOwned();
        if panicked {
          return;
        }
        objPool.ReleaseObject(current);
        Amount := Amount - 1;
      }
      return false;
    }

    lemma DeadOwned()
      requires deadLetter.To? ==> deadLetter.queue.Valid()
      ensures deadLetter.To? ==> deadLetter.queue in deadLetter.queue.Repr
    {
    }

    /** The dead-letter queue takes the text of a message alone. */
    static lemma BuryReturned(dead: Dead, m: Msg)
      ensures Bury(dead, Returned(m)) == Bury(dead, m)
    {
    }

    /** What a nack does to the node current, which holds m, and to the list around it. */
    twostate predicate NodeNacked(prev: ListNode?, current: ListNode, m: Msg)
      reads this, prev, current, objPool
    {
      if !Expires(m, fetchLimit) then
        && current.Holds(Returned(m))
        && unchanged(`Head, `Tail, `Amount, `nodes, `live, `Repr, current`Next, current`spare, objPool)
        && (prev != null ==> unchanged(prev))
      else
        && current.Holds(BLANK) && current.Next == null && current.spare
        && unchanged(`nodes, `live, `Repr) && Amount == old(Amount) - 1
        && objPool.pool == old(objPool.pool) + (if |old(objPool.pool)| < objPool.maxSize then [current] else [])
        && Unlinked(prev, current)
    }

    /** How the pointers change when current is unlinked and prev is taken for its predecessor. */
    twostate predicate Unlinked(prev: ListNode?, current: ListNode)
      reads this, prev
    {
      && Head == (if current != old(Head) then old(Head) else if current == old(Tail) then null else old(current.Next))
      && Tail == (if current != old(Tail) then old(Tail) else if current == old(Head) then null else prev)
      && (prev != null ==>
            prev.Next == if current == old(Head) then old(prev.Next)
                         else if current == old(Tail) then null else old(current.Next))
    }

    method SendToDeadLetter(current: ListNode, ghost m: Msg)
      requires current.Holds(m) && !deadLetter.NilInterface?
      requires deadLetter.To? ==> deadLetter.queue.Valid()
      modifies DeadRepr()
      ensures deadLetter.To? ==>
                && deadLetter.queue.Valid()
                && fresh(deadLetter.queue.Repr - old(deadLetter.queue.Repr))
      ensures DeadValue() == Bury(old(DeadValue()), m)
    {
      if deadLetter.To? {
        deadLetter.queue.Enqueue(current.ID, current.Val);
      }
    }

    method HandleThresholdExpire(prev: ListNode?, current: ListNode, ghost m: Msg) returns (panicked: bool)
      requires current.Holds(m) && (current != Head ==> prev != null)
      requires deadLetter.To? ==>
                 && deadLetter.queue.Valid()
                 && {this, current, objPool, prev} !! deadLetter.queue.Repr
      modifies this`Head, this`Tail, (if prev == null then {} else {prev})`Next, DeadRepr()
      ensures panicked <==> deadLetter.NilInterface?
      ensures deadLetter.To? ==>
                && deadLetter.queue.Valid()
                && fresh(deadLetter.queue.Repr - old(deadLetter.queue.Repr))
      ensures DeadValue() == Bury(old(DeadValue()), m)
      ensures panicked ==> unchanged(this) && (prev != null ==> unchanged(prev))
      ensures !panicked ==> Unlinked(prev, current)
    {
      if deadLetter.NilInterface? {
        return true;
      }
      SendToDeadLetter(current, m);
      Unlink(prev, current);
      return false;
    }

    method Unlink(prev: ListNode?, current: ListNode)
      requires current != Head ==> prev != null
      modifies this`Head, this`Tail, (if prev == null then {} else {prev})`Next
      ensures Unlinked(prev, current)
    {
      if current == Tail && current == Head {
        Head := null;
        Tail := null;
      } else if current == Tail {
        Tail := prev;
        Tail.Next := null;
      } else if current == Head {
        Head := current.Next;
      } else {
        prev.Next := current.Next;
      }
    }

    method Unlock(consumerID: Bytes, id: Bytes) returns (reply: Reply)
      requires ValidPair()
      modifies Repr, DeadRepr()
      ensures reply != Panicked ==> ValidPair()
      ensures Repr == old(Repr) && fresh(DeadRepr() - old(DeadRepr()))
      ensures (PairValue(), reply) == Nack(old(PairValue()), fetchLimit, consumerID, id)
    {
      var prev: ListNode? := null;
      var current := Head;
      ghost var i := 0;
      while current != null
        invariant 0 <= i <= |nodes|
        invariant current == (if i < |nodes| then nodes[i] else null)
        invariant prev == if i == 0 then null else nodes[i - 1]
        invariant forall j | 0 <= j < i :: live[j].id != id
        decreases |nodes| - i
      {
        if current.ID == id {
          if current.ConsumerID == consumerID {
            reply := NackFound(prev, current, i);
            return;
          }
          return Refused;
        }
        prev := current;
        current := current.Next;
        i := i + 1;
      }
      return Refused;
    }

    /** The node reached from Head by following k links. */
    ghost function Follow(k: nat): ListNode?
      reads this, Repr
    {
      if k == 0 then Head
      else
        var p := Follow(k - 1);
        if p != null && p in Repr then p.Next else null
    }

    /** The links lead from Head through the messages in order, to Tail and no further. */
    lemma {:induction false} WalkFromHead(k: nat)
      requires Valid()
      ensures if k < |live| then Follow(k) != null && Follow(k).Holds(live[k]) else Follow(k) == null
      ensures k + 1 == |live| ==> Follow(k) == Tail
      ensures k < |nodes| ==> Follow(k) == nodes[k]
    {
      if k > 0 {
        WalkFromHead(k - 1);
      }
    }

    /** Spare nodes are distinct, reset, no more than maxSize and never reached from Head. */
    lemma PoolApart(k: nat)
      requires Valid()
      ensures |objPool.pool| <= objPool.maxSize
      ensures forall i, j | 0 <= i < j < |objPool.pool| :: objPool.pool[i] != objPool.pool[j]
      ensures forall i {:trigger objPool.pool[i]} | 0 <= i < |objPool.pool| ::
                objPool.pool[i].Holds(BLANK) && objPool.pool[i].Next == null && objPool.pool[i] != Follow(k)
    {
      WalkFromHead(k);
    }

    lemma Sized()
      requires Valid()
      ensures |live| == |nodes| <= Amount && this in Repr
      ensures Head == NodeAt(nodes, 0) && (nodes == [] ==> Tail == null)
    {
    }

    lemma Owned()
      requires Valid()
      ensures this in Repr && objPool in Repr
    {
    }

    lemma SizedTo(tail: int)
      requires ChainedTo(tail)
      ensures |live| == |nodes|
    {
    }

    /** What Valid says of the node at position i. */
    lemma Reached(i: nat)
      requires Valid() && i < |nodes|
      ensures |live| == |nodes| && nodes[i] in Repr && nodes[i].Holds(live[i])
      ensures nodes[i].Next == if i + 1 < |nodes| then nodes[i + 1] else null
      ensures nodes[i] == Tail <==> i + 1 == |nodes|
    {
    }

    method NackFound(prev: ListNode?, current: ListNode, ghost i: nat) returns (reply: Reply)
      requires ValidPair() && i < |nodes| && current == nodes[i]
      requires prev == if i == 0 then null else nodes[i - 1]
      modifies Repr, DeadRepr()
      ensures reply != Panicked ==> ValidPair()
      ensures Repr == old(Repr) && fresh(DeadRepr() - old(DeadRepr()))
      ensures (PairValue(), reply) == NackAt(old(PairValue()), fetchLimit, i)
    {
      hide Chain, NodeObjectPool.Valid;
      Reached(i);
      GiveUp(current, i);
      Reached(i);
      if current.fetched >= fetchLimit {
        var panicked := ExpireFound(prev, current, i);
        return if panicked then Panicked else Done;
      }
      return Done;
    }

    /** Buries and unlinks a node whose retries are used up, and releases it. */
    method ExpireFound(prev: ListNode?, current: ListNode, ghost i: nat) returns (panicked: bool)
      requires ValidPair() && i < |nodes| && current == nodes[i]
      requires prev == if i == 0 then null else nodes[i - 1]
      modifies Repr, DeadRepr()
      ensures panicked <==> deadLetter.NilInterface?
      ensures Repr == old(Repr) && fresh(DeadRepr() - old(DeadRepr()))
      ensures if panicked then PairValue() == old(PairValue())
              else
                && ValidPair()
                && Value() == Queue(RemoveAt(old(live), i), old(Amount) - 1)
                && DeadValue() == Bury(old(DeadValue()), old(live)[i])
    {
      hide Stocked, Bypassed, LinkedList.Valid, Bury;
      ExpireAside(prev, current, i);
      panicked := BuryAndUnlink(prev, current, i);
      if panicked {
        return;
      }
      BypassedApart(i);
      RemoveBypassed(current, i);
    }

    method BuryAndUnlink(prev: ListNode?, current: ListNode, ghost i: nat) returns (panicked: bool)
      requires ValidPair() && i < |nodes| && current == nodes[i]
      requires prev == if i == 0 then null else nodes[i - 1]
      modifies this`Head, this`Tail, (if prev == null then {} else {prev})`Next, DeadRepr()
      ensures panicked <==> deadLetter.NilInterface?
      ensures fresh(DeadRepr() - old(DeadRepr()))
      ensures DeadValue() == Bury(old(DeadValue()), old(live)[i])
      ensures panicked ==> unchanged(this)
      ensures !panicked ==> Stocked() && Bypassed(i)
      ensures deadLetter.To? ==> deadLetter.queue.Valid() && Repr !! deadLetter.queue.Repr
    {
      hide Valid, Stocked, Chained, Bypassed, Bury;
      ExpireAside(prev, current, i);
      panicked := HandleThresholdExpire(prev, current, live[i]);
      if !panicked {
        Bypass(i);
      }
    }

    /** The dead-letter queue is left alone when a bypassed node is removed. */
    lemma BypassedApart(i: nat)
      requires Bypassed(i) && Stocked()
      requires deadLetter.To? ==> deadLetter.queue.Valid() && Repr !! deadLetter.queue.Repr
      ensures |live| == |nodes| && i < |nodes| && {this, objPool, nodes[i]} <= Repr
      ensures deadLetter.To? ==>
                deadLetter.queue in deadLetter.queue.Repr && {this, objPool, nodes[i]} !! deadLetter.queue.Repr
    {
    }

    /** What must hold for a node to be expired: neither it nor its predecessor belongs to the dead-letter queue. */
    lemma ExpireAside(prev: ListNode?, current: ListNode, i: nat)
      requires ValidPair() && i < |nodes| && current == nodes[i]
      requires prev == if i == 0 then null else nodes[i - 1]
      ensures |live| == |nodes| && current.Holds(live[i]) && (current != Head ==> prev != null)
      ensures {this, current, objPool} <= Repr && (prev != null ==> prev in Repr)
      ensures deadLetter.To? ==>
                deadLetter.queue in deadLetter.queue.Repr && {this, current, objPool, prev} !! deadLetter.queue.Repr
      ensures forall k {:trigger nodes[k]} | 0 <= k < |nodes| ::
                nodes[k] !in DeadRepr() && (k + 1 != i ==> nodes[k] != prev)
      ensures forall k {:trigger objPool.pool[k]} | 0 <= k < |objPool.pool| ::
                objPool.pool[k] !in DeadRepr() && objPool.pool[k] != prev
    {
    }

    /** The chain as it was, with the links around the node at position i leading past it. */
    ghost predicate Bypassed(i: nat)
      reads this, Repr
    {
      && this in Repr && Amount >= |nodes|
      && (forall k | 0 <= k < |nodes| :: nodes[k] in Repr)
      && i < |nodes| == |live|
      && (forall k {:trigger nodes[k]} | 0 <= k < |nodes| :: nodes[k].Holds(live[k]) && !nodes[k].spare)
      && (forall j, k | 0 <= j < k < |nodes| :: nodes[j] != nodes[k])
      && (forall k {:trigger nodes[k].Next} | 0 <= k < |nodes| && k != i ::
            nodes[k].Next == NodeAt(nodes, if k + 1 == i then i + 1 else k + 1))
      && Head == NodeAt(nodes, if i == 0 then 1 else 0)
      && Tail == if i + 1 < |nodes| then nodes[|nodes| - 1] else if i == 0 then null else nodes[i - 1]
    }

    /** The node at position i of the chain has been unlinked, and nothing else has changed. */
    twostate predicate OneUnlinked(i: nat)
      reads this, Repr, objPool
    {
      && old(Valid()) && i < |nodes|
      && unchanged(`nodes, `live, `Repr, `Amount) && unchanged(objPool)
      && Unlinked(if i == 0 then null else nodes[i - 1], nodes[i])
      && (forall k {:trigger nodes[k]} | 0 <= k < |nodes| ::
            nodes[k].Untouched() && (k + 1 != i ==> nodes[k].Next == old(nodes[k].Next)))
      && (forall k {:trigger objPool.pool[k]} | 0 <= k < |objPool.pool| :: unchanged(objPool.pool[k]))
    }

    twostate lemma Bypass(i: nat)
      requires OneUnlinked(i)
      ensures Stocked() && Bypassed(i)
    {
      hide Stocked, Bypassed, OneUnlinked;
      StockBeside(i);
      ChainBypassed(i);
    }

    twostate lemma StockBeside(i: nat)
      requires OneUnlinked(i)
      ensures Stocked()
    {
      hide Chained, Unlinked;
    }

    twostate lemma ChainBypassed(i: nat)
      requires OneUnlinked(i)
      ensures Bypassed(i)
    {
      hide OneUnlinked, Chain;
      NodesBypassed(i);
      LinksBypassed(i);
      EndsBypassed(i);
    }

    twostate lemma NodesBypassed(i: nat)
      requires OneUnlinked(i)
      ensures this in Repr && Amount >= |nodes| && i < |nodes| == |live|
      ensures forall k | 0 <= k < |nodes| :: nodes[k] in Repr
      ensures forall k {:trigger nodes[k]} | 0 <= k < |nodes| :: nodes[k].Holds(live[k]) && !nodes[k].spare
      ensures forall j, k | 0 <= j < k < |nodes| :: nodes[j] != nodes[k]
    {
      hide Unlinked, NodeObjectPool.Valid;
    }

    twostate lemma LinksBypassed(i: nat)
      requires OneUnlinked(i)
      ensures i < |nodes|
      ensures forall k {:trigger nodes[k].Next} | 0 <= k < |nodes| && k != i ::
                nodes[k].Next == NodeAt(nodes, if k + 1 == i then i + 1 else k + 1)
    {
      hide OneUnlinked, Unlinked, Chain;
      PointersMoved(i);
    }

    twostate lemma PointersMoved(i: nat)
      requires OneUnlinked(i)
      ensures i < |nodes|
      ensures forall k {:trigger nodes[k].Next} | 0 <= k < |nodes| && k != i ::
                nodes[k].Next == if k + 1 == i then NodeAt(nodes, i + 1) else old(nodes[k].Next)
      ensures forall k {:trigger nodes[k].Next} | 0 <= k < |nodes| :: old(nodes[k].Next) == NodeAt(nodes, k + 1)
    {
      hide NodeObjectPool.Valid;
      assert old(Chain(nodes, live));
    }

    twostate lemma EndsBypassed(i: nat)
      requires OneUnlinked(i)
      ensures i < |nodes|
      ensures Head == NodeAt(nodes, if i == 0 then 1 else 0)
      ensures Tail == if i + 1 < |nodes| then nodes[|nodes| - 1] else if i == 0 then null else nodes[i - 1]
    {
      hide NodeObjectPool.Valid;
      assert old(Chain(nodes, live));
    }

    /** Takes a bypassed node out of the chain and releases it. */
    method RemoveBypassed(current: ListNode, ghost i: nat)
      requires Stocked() && Bypassed(i) && current == nodes[i]
      modifies this`Amount, this`nodes, this`live, objPool, current
      ensures Valid()
      ensures Value() == Queue(RemoveAt(old(live), i), old(Amount) - 1)
      ensures objPool.pool == old(objPool.pool) + if |old(objPool.pool)| < objPool.maxSize then [current] else []
    {
      hide Stocked, Bypassed;
      ForgetBypassed(i);
      Release(current);
    }

    /** Releases a node that is in neither chain nor pool. */
    method Release(current: ListNode)
      requires Stocked() && Chained(|nodes| - 1) && Amount > |nodes|
      requires current in Repr && !current.spare && forall j | 0 <= j < |nodes| :: nodes[j] != current
      modifies this`Amount, objPool, current
      ensures Valid() && Amount == old(Amount) - 1
      ensures objPool.pool == old(objPool.pool) + if |old(objPool.pool)| < objPool.maxSize then [current] else []
    {
      objPool.ReleaseObject(current);
      Amount := Amount - 1;
    }

    ghost method ForgetBypassed(i: nat)
      requires Stocked() && Bypassed(i)
      modifies this`nodes, this`live
      ensures Stocked() && Chained(|nodes| - 1) && forall j | 0 <= j < |nodes| :: nodes[j] != old(nodes[i])
      ensures live == RemoveAt(old(live), i) && nodes == RemoveAt(old(nodes), i)
      ensures Amount > |nodes| && old(nodes[i]) in Repr && !old(nodes[i]).spare
    {
      hide NodeObjectPool.Valid;
      ChainWithout(nodes, live, i);
      nodes, live := RemoveAt(nodes, i), RemoveAt(live, i);
    }

    method GiveUp(current: ListNode, ghost i: nat)
      requires ValidPair() && i < |nodes| && current == nodes[i]
      modifies current`ConsumerID, current`fetched, `live
      ensures ValidPair() && live == old(live)[i := Returned(old(live)[i])] && DeadValue() == old(DeadValue())
    {
      ReturnNode(current, i);
      ghost var kept := deadLetter.To? ==> deadLetter.queue.Valid();
      assert kept;
    }

    method ReturnNode(current: ListNode, ghost i: nat)
      requires Valid() && i < |nodes| && current == nodes[i]
      modifies current`ConsumerID, current`fetched, `live
      ensures Valid() && live == old(live)[i := Returned(old(live)[i])]
    {
      current.Return(live[i]);
      live := live[i := Returned(live[i])];
    }

    /** Unlinks and releases the node at position i, whose predecessor is prev. */
    method RemoveNode(prev: ListNode?, current: ListNode, ghost i: nat)
      requires Valid() && i < |nodes| && current == nodes[i]
      requires prev == if i == 0 then null else nodes[i - 1]
      modifies this`Head, this`Tail, this`Amount, this`nodes, this`live, objPool, current
      modifies (if prev == null then {} else {prev})`Next
      ensures Valid()
      ensures Value() == Queue(RemoveAt(old(live), i), old(Amount) - 1)
      ensures objPool.pool == old(objPool.pool) + if |old(objPool.pool)| < objPool.maxSize then [current] else []
    {
      hide Stocked, Chained;
      UnlinkNode(prev, current, i);
      Release(current);
    }

    method UnlinkNode(prev: ListNode?, current: ListNode, ghost i: nat)
      requires Valid() && i < |nodes| && current == nodes[i]
      requires prev == if i == 0 then null else nodes[i - 1]
      modifies this`Head, this`Tail, this`nodes, this`live, (if prev == null then {} else {prev})`Next
      ensures Valid() && Amount > |nodes|
      ensures current in Repr && !current.spare && forall j | 0 <= j < |nodes| :: nodes[j] != current
      ensures live == RemoveAt(old(live), i) && nodes == RemoveAt(old(nodes), i)
    {
      Unlink(prev, current);
      Bypass(i);
      ForgetBypassed(i);
    }

    method UnlockAndEmpty(consumerID: Bytes, id: Bytes) returns (reply: Reply)
      requires Valid()
      modifies Repr
      ensures Valid() && Repr == old(Repr)
      ensures (Value(), reply) == Ack(old(Value()), consumerID, id)
    {
      if Head == null {
        return Refused;
      }
      reply := TakeOut(consumerID, id);
    }

    method TakeOut(consumerID: Bytes, id: Bytes) returns (reply: Reply)
      requires Valid() && Head != null
      modifies Repr
      ensures Valid() && Repr == old(Repr)
      ensures (Value(), reply) == Ack(old(Value()), consumerID, id)
    {
      hide Valid;
      Sized();
      Reached(0);
      Owned();
      if Head.ID == id && Head.ConsumerID == consumerID {
        RemoveNode(null, Head, 0);
        return Done;
      }

      var prev := Head;
      var current := Head.Next;
      ghost var i := 1;
      while current != null
        invariant Valid() && Repr == old(Repr) && Value() == old(Value())
        invariant 1 <= i <= |nodes| == |live| && prev == nodes[i - 1] && prev in Repr
        invariant current == if i < |nodes| then nodes[i] else null
        invariant forall j | 0 <= j < i :: !(live[j].id == id && live[j].owner == consumerID)
        decreases |nodes| - i
      {
        Reached(i);
        if current.ID == id && current.ConsumerID == consumerID {
          RemoveNode(prev, current, i);
          return Done;
        }
        prev := current;
        current := current.Next;
        i := i + 1;
      }
      return Refused;
    }

    method Dequeue(amount: uint32, consumer: Bytes, time: int64) returns (data: seq<Bytes>, ids: seq<Bytes>)
      requires Valid()
      modifies Repr
      ensures Valid() && Repr == old(Repr)
      ensures
        var r := Fetch(old(live), amount, consumer, time, nodeTTL);
        Value() == Queue(r.live, old(Amount)) && data == Vals(r.got) && ids == Ids(r.got)
    {
      hide Chain, NodeObjectPool.Valid, FetchedTo;
      data, ids := [], [];
      Sized();
      FetchStart(live, amount, consumer, time, nodeTTL);
      if Head == null {
        return;
      }

      var current := Head;
      ghost var i := 0;
      ghost var got: seq<Msg> := [];
      while current != null && |data| < amount
        invariant 0 <= i <= |nodes| && current == (if i < |nodes| then nodes[i] else null)
        invariant Valid() && Repr == old(Repr) && Amount == old(Amount)
        invariant data == Vals(got) && ids == Ids(got) && |got| <= amount
        invariant |live| == |nodes| == |old(live)|
        invariant FetchedTo(old(live), live, i, got, amount, consumer, time, nodeTTL)
        decreases |nodes| - i
      {
        Reached(i);
        FetchStep(old(live), live, i, got, amount, consumer, time, nodeTTL);
        if current.ConsumerID == consumer || current.ConsumerID == NO_CONSUMER || Sub64(time, current.time) > nodeTTL {
          data := data + [current.Val];
          ids := ids + [current.ID];
          got := got + [live[i]];
          LeaseNode(current, i, consumer, time);
        }
        current := current.Next;
        i := i + 1;
      }
      FetchEnd(old(live), live, i, got, amount, consumer, time, nodeTTL);
    }

    method LeaseNode(current: ListNode, ghost i: nat, consumer: Bytes, now: int64)
      requires Valid() && i < |nodes| && current == nodes[i]
      modifies current`ConsumerID, current`time, `live
      ensures Valid() && live == old(live)[i := old(live)[i].(owner := consumer, time := now)]
    {
      current.Lease(consumer, now, live[i]);
      live := live[i := live[i].(owner := consumer, time := now)];
    }

    method UnlockAllFromConsumer(consumerID: Bytes)
      requires Valid()
      modifies Repr
      ensures Valid() && Repr == old(Repr)
      ensures Value() == Queue(UnlockAll(old(live), consumerID), old(Amount))
    {
      hide Chain, NodeObjectPool.Valid;
      Sized();
      var current := Head;
      ghost var i := 0;
      while current != null
        invariant 0 <= i <= |nodes| && current == (if i < |nodes| then nodes[i] else null)
        invariant Valid() && Repr == old(Repr) && Amount == old(Amount)
        invariant |live| == |nodes| == |old(live)|
        invariant forall j {:trigger live[j]} | 0 <= j < |live| ::
                    live[j] == if j < i then UnlockAll(old(live), consumerID)[j] else old(live)[j]
        decreases |nodes| - i
      {
        Reached(i);
        if current.ConsumerID == consumerID {
          LeaseNode(current, i, NO_CONSUMER, current.time);
        }
        current := current.Next;
        i := i + 1;
      }
    }

    /** Unlinks the head as the batch ack does, which leaves Tail behind when the head is the last node. */
    method DropHead()
      requires Valid() && Head != null
      modifies `Head, `nodes, `live
      ensures nodes == old(nodes)[1..] && live == old(live)[1..]
      ensures Head == if nodes == [] then null else nodes[0]
      ensures nodes != [] ==> Valid()
      ensures Loose([old(Head)], [old(live)[0]], nodes, Repr)
    {
      Head := Head.Next;
      nodes, live := nodes[1..], live[1..];
    }

    method TakeNode(prev: ListNode?, current: ListNode, ghost i: nat, ghost removed: seq<ListNode>,
                    ghost msgs: seq<Msg>)
      requires Valid() && i < |nodes| && current == nodes[i]
      requires prev == if i == 0 then null else nodes[i - 1]
      requires Loose(removed, msgs, nodes, Repr)
      modifies this`Head, this`Tail, this`nodes, this`live, (if prev == null then {} else {prev})`Next
      ensures Valid()
      ensures live == RemoveAt(old(live), i) && nodes == RemoveAt(old(nodes), i)
      ensures Loose(removed + [current], msgs + [old(live)[i]], nodes, Repr)
    {
      UnlinkNode(prev, current, i);
    }

    /** A batch ack over was has dealt with i messages: it has unlinked the nodes
        in removed, which hold msgs, and stands at current, behind prev. */
    ghost predicate Collecting(was: seq<Msg>, c: Bytes, ids: seq<Bytes>, i: nat,
                               removed: seq<ListNode>, msgs: seq<Msg>, prev: ListNode?, current: ListNode?)
      reads this, Repr, removed
    {
      && |live| == |nodes| == |was| - |msgs| && |removed| == |msgs| <= i
      && PassedTo(was, AckMarks(was, c, ids), i, live, msgs)
      && Loose(removed, msgs, nodes, Repr)
      && i - |removed| <= |nodes|
      && current == (if i - |removed| < |nodes| then nodes[i - |removed|] else null)
      && prev == (if i == |removed| then null else nodes[i - |removed| - 1])
      && (|was| > 1 || msgs == [] ==> Valid())
      && (nodes == [] ==> Head == null)
    }

    method CollectHead(consumerID: Bytes, ids: seq<Bytes>)
      returns (removed: seq<ListNode>, ghost msgs: seq<Msg>)
      requires Valid() && Head != null
      modifies `Head, `nodes, `live
      ensures Collecting(old(live), consumerID, ids, |removed|, removed, msgs, null, Head)
      ensures |removed| <= 1 && |removed| <= |ids|
    {
      hide Chain, Loose, PassedTo, AckMarks, NodeObjectPool.Valid;
      Reached(0);
      AckStart(live, consumerID, ids);
      LooseNone();
      removed, msgs := [], [];
      if Head.ConsumerID == consumerID && Head.ID in ids {
        removed, msgs := [Head], [live[0]];
        DropHead();
      }
    }

    lemma LooseNone()
      ensures Loose([], [], nodes, Repr)
    {
    }

    lemma CollectAt(prev: ListNode?, current: ListNode, removed: seq<ListNode>,
                    was: seq<Msg>, c: Bytes, ids: seq<Bytes>, i: nat, msgs: seq<Msg>)
      requires Collecting(was, c, ids, i, removed, msgs, prev, current)
      ensures i - |removed| < |nodes| && i < |was|
      ensures current.ID == live[i - |removed|].id && current.ConsumerID == live[i - |removed|].owner
      ensures current == Tail <==> i == |was| - 1
      ensures current.Next == if i == |was| - 1 then null else nodes[i - |removed| + 1]
      ensures prev != current
    {
    }

    method CollectNext(prev: ListNode?, current: ListNode, removed: seq<ListNode>,
                       ghost was: seq<Msg>, ghost c: Bytes, ghost ids: seq<Bytes>, ghost i: nat, ghost msgs: seq<Msg>)
      requires Collecting(was, c, ids, i, removed, msgs, prev, current) && i - |removed| < |nodes|
      requires |removed| < |ids| && Held(live[i - |removed|], c, ids)
      modifies Repr
      ensures Collecting(was, c, ids, i + 1, removed + [current], msgs + [old(live)[i - |removed|]],
                         prev, old(current.Next))
      ensures Repr == old(Repr) && Amount == old(Amount) && current.Next == old(current.Next)
      ensures i < |was| && AckMarks(was, c, ids)[i]
    {
      hide Chain, Loose, PassedTo, NodeObjectPool.Valid;
      CollectAt(prev, current, removed, was, c, ids, i, msgs);
      AckStep(was, c, ids, i, live, msgs);
      TakeNode(prev, current, i - |removed|, removed, msgs);
    }

    lemma CollectPast(prev: ListNode?, current: ListNode, removed: seq<ListNode>,
                      was: seq<Msg>, c: Bytes, ids: seq<Bytes>, i: nat, msgs: seq<Msg>)
      requires Collecting(was, c, ids, i, removed, msgs, prev, current) && i - |removed| < |nodes|
      requires |removed| < |ids| && !Held(live[i - |removed|], c, ids)
      ensures Collecting(was, c, ids, i + 1, removed, msgs, current, current.Next)
      ensures i < |was| && !AckMarks(was, c, ids)[i]
    {
      AckStep(was, c, ids, i, live, msgs);
    }

    /** Unlinks the first |ids| messages that match. */
    method Collect(consumerID: Bytes, ids: seq<Bytes>)
      returns (removed: seq<ListNode>, current: ListNode?, ghost msgs: seq<Msg>)
      requires Valid() && Head != null
      modifies Repr
      ensures Repr == old(Repr) && Amount == old(Amount)
      ensures Collected(old(live), consumerID, ids, live, msgs)
      ensures |old(live)| > 1 || msgs == [] || nodes != [] ==> Valid()
      ensures nodes == [] ==> Head == null && live == []
      ensures Loose(removed, msgs, nodes, Repr)
      ensures |removed| < |ids| && |old(live)| > 1 ==>
                if AckMarks(old(live), consumerID, ids)[|old(live)| - 1]
                then removed != [] && current == removed[|removed| - 1] && current.Next == null
                else current == null
    {
      hide Stocked, Chained, Loose, PassedTo, AckMarks;
      Owned();
      removed, msgs := CollectHead(consumerID, ids);
      var prev: ListNode? := null;
      current := Head;
      ghost var i := |removed|;
      ghost var was, marks := old(live), AckMarks(old(live), consumerID, ids);
      while current != null && |removed| < |ids|
        invariant Collecting(was, consumerID, ids, i, removed, msgs, prev, current)
        invariant Repr == old(Repr) && Amount == old(Amount)
        invariant |removed| <= |ids|
        invariant i == |was| > 1 ==> !marks[|was| - 1]
        decreases |was| - i
      {
        CollectAt(prev, current, removed, was, consumerID, ids, i, msgs);
        if current.ConsumerID == consumerID && current.ID in ids {
          var last, next := current == Tail, current.Next;
          ghost var m := live[i - |removed|];
          CollectNext(prev, current, removed, was, consumerID, ids, i, msgs);
          removed, msgs, i := removed + [current], msgs + [m], i + 1;
          if last {
            break;
          }
          current := next;
        } else {
          CollectPast(prev, current, removed, was, consumerID, ids, i, msgs);
          prev := current;
          current := current.Next;
          i := i + 1;
        }
      }
      AckEnd(was, consumerID, ids, i, live, msgs);
    }

    method UnlockAndEmptyBatch(consumerID: Bytes, ids: seq<Bytes>) returns (reply: Reply)
      requires Valid()
      modifies Repr
      ensures Repr == old(Repr)
      ensures |ids| == 1 ==> Valid() && (Value(), reply) == Ack(old(Value()), consumerID, ids[0])
      ensures |ids| != 1 ==>
        var r := BatchAck(old(Value()), consumerID, ids);
        && reply == r.reply
        && (reply != Panicked ==> ChainedTo(r.tail) && Value() == Queue(r.live, old(Amount)))
    {
      Sized();
      hide Chain, NodeObjectPool.Valid, Kept, Taken, AckMarks, Ack;
      if Head == null {
        return Refused;
      }
      if |ids| == 1 {
        reply := TakeOut(consumerID, ids[0]);
        return;
      }
      if Amount < |ids| {
        return Refused;
      }
      reply := ReleaseMany(consumerID, ids);
    }

    /** A batch ack of a list that is long enough. */
    method ReleaseMany(consumerID: Bytes, ids: seq<Bytes>) returns (reply: Reply)
      requires Valid() && Head != null && |ids| != 1 && Amount >= |ids|
      modifies Repr
      ensures Repr == old(Repr)
      ensures var r := BatchAck(old(Value()), consumerID, ids);
        && reply == r.reply
        && (reply != Panicked ==> ChainedTo(r.tail) && Value() == Queue(r.live, old(Amount)))
    {
      hide Chain, Loose, NodeObjectPool.Valid, Kept, Taken, AckMarks;
      Sized();
      ghost var msgs;
      var removed, current;
      removed, current, msgs := Collect(consumerID, ids);
      CollectedSize(old(live), consumerID, ids, live, msgs);
      LooseSize(removed, msgs);
      if |removed| == 0 {
        Sized();
        return Refused;
      }
      if |removed| == |ids| {
        Sized();
        return Done;
      }
      reply := PutAllBack(removed, current, msgs);
    }

    lemma LooseSize(removed: seq<ListNode>, msgs: seq<Msg>)
      requires Loose(removed, msgs, nodes, Repr)
      ensures |removed| == |msgs|
    {
    }

    /** What happens to the unlinked nodes when fewer matched than were asked for. */
    method PutAllBack(removed: seq<ListNode>, current: ListNode?, ghost msgs: seq<Msg>) returns (reply: Reply)
      requires Loose(removed, msgs, nodes, Repr) && removed != []
      requires if nodes == [] then Head == null && live == [] else Valid()
      requires Amount >= |live| + |msgs|
      requires |removed| > 1 && current != null ==> current == removed[|removed| - 1] && current.Next == null
      modifies Repr
      ensures Repr == old(Repr) && Amount == old(Amount)
      ensures match QueueModel.RollBack(old(live), msgs, current != null)
              case None => reply == Panicked
              case Some(chain) =>
                reply == Refused && live == chain && ChainedTo(if |old(live)| == 1 then 0 else |live| - 1)
    {
      LooseSize(removed, msgs);
      if |removed| == 1 {
        if Head == null {
          return Panicked;
        }
        PutBack(removed[0], removed[0], removed, msgs);
        return Refused;
      }

      var start: ListNode? := removed[0];
      var i := 1;
      while i < |removed|
        invariant i == 1 || (i == 2 && start == null && current != null && removed[0].Next == removed[1])
        invariant i == 1 ==> start == removed[0]
        invariant Loose(removed, msgs, nodes, Repr)
        invariant if nodes == [] then Head == null && live == [] else Valid()
        invariant current != null ==> current == removed[|removed| - 1] && current.Next == null
        invariant Repr == old(Repr) && Amount == old(Amount) && live == old(live)
      {
        if start == null {
          return Panicked;
        }
        LinkLoose(start, removed[i], removed, msgs);
        if current == null {
          return Panicked;
        }
        start := current.Next;
        i := i + 1;
      }

      if Head == null {
        return Panicked;
      }
      PutBack(removed[0], removed[|removed| - 1], removed, msgs);
      return Refused;
    }

    method LinkLoose(node: ListNode, next: ListNode, ghost removed: seq<ListNode>, ghost msgs: seq<Msg>)
      requires Loose(removed, msgs, nodes, Repr) && |removed| > 0 && node == removed[0]
      requires nodes != [] ==> Valid()
      modifies node`Next
      ensures node.Next == next && Loose(removed, msgs, nodes, Repr)
      ensures nodes != [] ==> Valid()
    {
      node.Next := next;
    }

    /** Links a chain of unlinked nodes behind the head. */
    method PutBack(first: ListNode, last: ListNode, ghost removed: seq<ListNode>, ghost msgs: seq<Msg>)
      requires Valid() && Head != null
      requires Loose(removed, msgs, nodes, Repr) && removed != []
      requires first == removed[0] && last == removed[|removed| - 1]
      requires Amount >= |live| + |msgs|
      requires |removed| == 1 || (|removed| == 2 && first.Next == last)
      modifies Head`Next, last`Next, `nodes, `live
      ensures live == [old(live)[0]] + msgs + old(live)[1..]
      ensures ChainedTo(if |old(live)| == 1 then 0 else |live| - 1)
    {
      hide Valid, Chain, NodeObjectPool.Valid;
      ChainOf();
      var next := Head.Next;
      LinkTo(Head, first);
      LinkTo(last, next);
      ChainPutBack(nodes, live, removed, msgs);
      Become([nodes[0]] + removed + nodes[1..], [live[0]] + msgs + live[1..],
             if |live| == 1 then 0 else |live| + |msgs| - 1);
    }

    /** A batch nack that has dealt with the positions marked in nacked, in ascending
        order. The ghost chain is still the one it started from. */
    ghost predicate Nacking()
      reads this, Repr
    {
      && this in Repr && objPool in Repr
      && |nodes| == |live| == |nacked| > 0
      && (forall i | 0 <= i < |nodes| :: nodes[i] in Repr)
      && (forall i | 0 <= i < |objPool.pool| :: objPool.pool[i] in Repr)
      && NackedNodes(nodes, live, nacked, fetchLimit)
      && NackedEnds(Expiring(live, nacked, fetchLimit))
      && NackedPool()
    }

    ghost predicate NackedEnds(ex: seq<bool>)
      requires nodes != [] && |ex| == |nodes|
      reads this, nodes
    {
      Ends(nodes, ex, Head, Tail, nodes[0].Next)
    }

    ghost predicate NackedPool()
      reads this, objPool, objPool.pool
    {
      Spares(NodeAt(nodes, 0))
    }

    /** Spare nodes are distinct, blank and no more than maxSize, and linked to nothing except for one. */
    ghost predicate Spares(linked: ListNode?)
      reads this, objPool, objPool.pool
    {
      && |objPool.pool| <= objPool.maxSize
      && (forall i, j | 0 <= i < j < |objPool.pool| :: objPool.pool[i] != objPool.pool[j])
      && (forall i {:trigger objPool.pool[i]} | 0 <= i < |objPool.pool| ::
            && objPool.pool[i].spare && objPool.pool[i].Holds(BLANK)
            && (objPool.pool[i].Next == null || objPool.pool[i] == linked))
    }

    ghost method StartNacking()
      requires Valid() && nodes != []
      modifies `nacked
      ensures Nacking() && |nacked| == |nodes| && ClearFrom(nacked, 0)
    {
      nacked := seq(|nodes|, _ => false);
      assert Expiring(live, nacked, fetchLimit) == nacked;
      assert PastMarks(nacked) == 0;
    }

    method NackOne(pair: PairNode, ghost p: nat) returns (panicked: bool)
      requires Nacking() && p < |nodes| && ClearFrom(nacked, p)
      requires pair == PairNode(if p == 0 then null else nodes[0], nodes[p])
      requires deadLetter.To? ==> deadLetter.queue.Valid() && Repr !! deadLetter.queue.Repr
      modifies Repr, DeadRepr()
      ensures panicked <==> Expires(old(live)[p], fetchLimit) && deadLetter.NilInterface?
      ensures unchanged(`Repr, `nodes, `live)
      ensures !panicked ==> Nacking() && nacked == old(nacked)[p := true]
      ensures !panicked ==> Amount == old(Amount) - if Expires(old(live)[p], fetchLimit) then 1 else 0
      ensures DeadValue() ==
              if Expires(old(live)[p], fetchLimit) then Bury(old(DeadValue()), old(live)[p]) else old(DeadValue())
      ensures deadLetter.To? ==> deadLetter.queue.Valid() && Repr !! deadLetter.queue.Repr
      ensures fresh(DeadRepr() - old(DeadRepr()))
    {
      ghost var m := live[p];
      panicked := NackPair(pair, p);
      if !panicked {
        hide OneNacked, Ends, NackedNodes, After;
        NackedNodesStep(p);
        NackedEndsStep(p);
        NackedPoolStep(p);
      }
    }

    method NackPair(pair: PairNode, ghost p: nat) returns (panicked: bool)
      requires Nacking() && p < |nodes| && ClearFrom(nacked, p)
      requires pair == PairNode(if p == 0 then null else nodes[0], nodes[p])
      requires deadLetter.To? ==> deadLetter.queue.Valid() && Repr !! deadLetter.queue.Repr
      modifies Repr, DeadRepr()
      ensures panicked <==> Expires(old(live)[p], fetchLimit) && deadLetter.NilInterface?
      ensures unchanged(`Repr, `nodes, `live)
      ensures !panicked ==> OneNacked(p)
      ensures DeadValue() ==
              if Expires(old(live)[p], fetchLimit) then Bury(old(DeadValue()), old(live)[p]) else old(DeadValue())
      ensures deadLetter.To? ==> deadLetter.queue.Valid() && Repr !! deadLetter.queue.Repr
      ensures fresh(DeadRepr() - old(DeadRepr()))
    {
      hide Valid, Nacking, Bury, Expires, Returned, ClearFrom;
      NackingAt(p);
      DeadOwned();
      assert forall i {:trigger nodes[i]} | 0 <= i < |nodes| :: nodes[i] !in DeadRepr();
      assert forall i {:trigger objPool.pool[i]} | 0 <= i < |objPool.pool| :: objPool.pool[i] !in DeadRepr();
      panicked := NackBeside(pair.prev, pair.current, live[p]);
      nacked := nacked[p := true];
    }

    /** As NackNode, for a node of this list, which shares nothing with the dead-letter queue. */
    method NackBeside(prev: ListNode?, current: ListNode, ghost m: Msg) returns (panicked: bool)
      requires current.Holds(m) && current != prev && (current != Head ==> prev != null)
      requires {this, current, objPool} <= Repr && (prev != null ==> prev in Repr)
      requires deadLetter.To? ==> deadLetter.queue.Valid() && Repr !! deadLetter.queue.Repr
      modifies this`Head, this`Tail, this`Amount, objPool, current
      modifies (if prev == null then {} else {prev})`Next, DeadRepr()
      ensures deadLetter.To? ==> deadLetter.queue.Valid() && Repr !! deadLetter.queue.Repr
      ensures fresh(DeadRepr() - old(DeadRepr()))
      ensures DeadValue() == if Expires(m, fetchLimit) then Bury(old(DeadValue()), m) else old(DeadValue())
      ensures panicked <==> Expires(m, fetchLimit) && deadLetter.NilInterface?
      ensures !panicked ==> NodeNacked(prev, current, m)
    {
      hide Valid, Bury;
      panicked := NackNode(prev, current, m);
    }

    lemma NackingAt(p: nat)
      requires Nacking() && p < |nodes| && ClearFrom(nacked, p)
      ensures p == 0 ==> Head == nodes[0]
      ensures |live| == |nodes| == |nacked| && nodes[p].Holds(live[p]) && !nodes[p].spare
      ensures forall i | 0 <= i < |objPool.pool| :: objPool.pool[i] != nodes[p]
      ensures forall i {:trigger nodes[i]} | 0 <= i < |nodes| ::
                nodes[i] in Repr && (i != p ==> nodes[i] != nodes[p]) && (i > 0 ==> nodes[i] != nodes[0])
      ensures forall i | 0 <= i < |objPool.pool| :: objPool.pool[i] in Repr
      ensures this in Repr && objPool in Repr
    {
    }

    twostate predicate OneNacked(p: nat)
      reads this, Repr, objPool
    {
      && old(Nacking()) && p < |nodes| && ClearFrom(old(nacked), p)
      && unchanged(`nodes, `live, `Repr) && nacked == old(nacked)[p := true]
      && NodeNacked(if p == 0 then null else nodes[0], nodes[p], live[p])
      && (forall i {:trigger nodes[i]} | 0 <= i < |nodes| && i != p ::
            nodes[i].Untouched() && (i > 0 ==> nodes[i].Next == old(nodes[i].Next)))
      && (forall i {:trigger old(objPool.pool[i])} | 0 <= i < |old(objPool.pool)| ::
            var n := old(objPool.pool)[i]; n.Untouched() && (n == nodes[0] || n.Next == old(n.Next)))
    }

    twostate lemma NackedNodesStep(p: nat)
      requires OneNacked(p)
      ensures |nacked| == |live| && NackedNodes(nodes, live, nacked, fetchLimit)
    {
      MarkOneMore(live, old(nacked), fetchLimit, p);
    }

    twostate lemma NackedEndsStep(p: nat)
      requires OneNacked(p)
      ensures |nacked| == |live| && NackedEnds(Expiring(live, nacked, fetchLimit))
    {
      MarkOneMore(live, old(nacked), fetchLimit, p);
      if Expires(live[p], fetchLimit) {
        EndsStep(nodes, Expiring(live, old(nacked), fetchLimit), p, old(Head), old(Tail), old(nodes[0].Next),
                 Head, Tail, nodes[0].Next);
      }
    }

    twostate lemma NackedPoolStep(p: nat)
      requires OneNacked(p)
      ensures NackedPool() && forall i | 0 <= i < |objPool.pool| :: objPool.pool[i] in Repr
    {
    }

    method BatchUnlock(consumerID: Bytes, ids: seq<Bytes>) returns (reply: Reply)
      requires ValidPair()
      modifies Repr, DeadRepr()
      ensures Repr == old(Repr) && fresh(DeadRepr() - old(DeadRepr()))
      ensures reply == NackMany(old(PairValue()), fetchLimit, ids).1
      ensures reply != Panicked ==>
                && PairValue() == NackMany(old(PairValue()), fetchLimit, ids).0
                && Head == NodeAt(nodes, 0) && Walk(nodes, live)
      ensures reply == Refused ==> ValidPair()
      ensures reply == Done ==>
                && Tail == TailAfter(old(nodes), Expiring(old(live), NackMarks(old(live), ids), fetchLimit))
                && Spares(old(Head))
      ensures reply == Done && !Severed(Expiring(old(live), NackMarks(old(live), ids), fetchLimit)) ==> ValidPair()
    {
      hide Valid, Walk, Positions, Count, Expiring, Reachable, After, Taken, Severed, NackMarks, BuryAll;
      Sized();
      if Head == null {
        WalkOf();
        return Refused;
      }
      ghost var marks := NackMarks(live, ids);
      ghost var sel;
      var pairs;
      pairs, sel := SelectNodes(ids);
      if Amount < |ids| || |pairs| == 0 || |pairs| != |ids| {
        WalkOf();
        return Refused;
      }
      ExpiringSize(live, marks, fetchLimit);
      var panicked := NackSelected(pairs, marks, sel);
      return if panicked then Panicked else Done;
    }

    lemma WalkOf()
      requires Valid()
      ensures Walk(nodes, live)
    {
    }

    method NackSelected(pairs: seq<PairNode>, ghost marks: seq<bool>, ghost sel: seq<nat>) returns (panicked: bool)
      requires ValidPair() && nodes != [] && |marks| == |live|
      requires sel == Positions(marks, 0) && PairsAt(pairs, sel, nodes)
      modifies Repr, DeadRepr()
      ensures Repr == old(Repr) && fresh(DeadRepr() - old(DeadRepr()))
      ensures var ex := Expiring(old(live), marks, fetchLimit);
        && (panicked <==> deadLetter.NilInterface? && Count(ex) > 0)
        && (!panicked ==>
              && Value() == Queue(Reachable(After(old(live), marks, ex), ex), old(Amount) - Count(ex))
              && DeadValue() == BuryAll(old(DeadValue()), Taken(old(live), ex))
              && Head == NodeAt(nodes, 0) && Walk(nodes, live)
              && Tail == TailAfter(old(nodes), ex) && Spares(old(Head))
              && (!Severed(ex) ==> ValidPair()))
    {
      hide Valid, Nacking, Tally, Expiring, Reachable, Severed, Walk, After, Positions, Count, Taken, BuryAll, PairsAt;
      Sized();
      DeadApart();
      ghost var was := PairValue();
      panicked := NackAll(pairs, marks, sel);
      if !panicked {
        TallyEnd(was, fetchLimit, marks, Amount, DeadValue());
        FinishNacking();
      }
    }

    lemma DeadApart()
      requires ValidPair()
      ensures deadLetter.To? ==>
                deadLetter.queue in deadLetter.queue.Repr && deadLetter.queue != this && deadLetter.queue.Valid()
    {
    }

    method NackAll(pairs: seq<PairNode>, ghost marks: seq<bool>, ghost sel: seq<nat>) returns (panicked: bool)
      requires ValidPair() && nodes != [] && |marks| == |live|
      requires sel == Positions(marks, 0) && PairsAt(pairs, sel, nodes)
      modifies Repr, DeadRepr()
      ensures unchanged(`Repr, `nodes, `live) && fresh(DeadRepr() - old(DeadRepr()))
      ensures panicked ==> deadLetter.NilInterface? && Count(Expiring(live, marks, fetchLimit)) > 0
      ensures !panicked ==>
                Nacking() && nacked == marks && Tally(old(PairValue()), fetchLimit, marks, Amount, DeadValue())
      ensures deadLetter.To? ==> deadLetter.queue.Valid() && Repr !! deadLetter.queue.Repr
    {
      Sized();
      hide Nacking, Tally, Expiring, Chain, ChainedTo, PairsAt, Positions, Count, Below;
      StartNacking();
      TallyStart(PairValue(), fetchLimit, nacked);
      BelowStart(marks, nacked);
      panicked := NackPairs(pairs, marks, sel, PairValue());
    }

    method NackPairs(pairs: seq<PairNode>, ghost marks: seq<bool>, ghost sel: seq<nat>, ghost was: State)
      returns (panicked: bool)
      requires Nacking() && |marks| == |live| && nacked == Below(marks, 0)
      requires sel == Positions(marks, 0) && PairsAt(pairs, sel, nodes)
      requires was.q.live == live && Tally(was, fetchLimit, nacked, Amount, DeadValue())
      requires was.dead.NilInterface? <==> deadLetter.NilInterface?
      requires deadLetter.To? ==> deadLetter.queue.Valid() && Repr !! deadLetter.queue.Repr
      modifies Repr, DeadRepr()
      ensures unchanged(`Repr, `nodes, `live) && fresh(DeadRepr() - old(DeadRepr()))
      ensures panicked ==> deadLetter.NilInterface? && Count(Expiring(live, marks, fetchLimit)) > 0
      ensures !panicked ==> Nacking() && nacked == marks && Tally(was, fetchLimit, marks, Amount, DeadValue())
      ensures deadLetter.To? ==> deadLetter.queue.Valid() && Repr !! deadLetter.queue.Repr
    {
      hide Nacking, Tally, Expiring, NodeObjectPool.Valid, Positions, Below, Count;
      ghost var b := 0;
      var t := 0;
      while t < |pairs|
        invariant 0 <= t <= |pairs| == |sel| && b <= |marks|
        invariant Repr == old(Repr) && nodes == old(nodes) && live == old(live)
        invariant Nacking() && nacked == Below(marks, b) && sel[t..] == Positions(marks, b)
        invariant Tally(was, fetchLimit, nacked, Amount, DeadValue())
        invariant deadLetter.To? ==> deadLetter.queue.Valid() && Repr !! deadLetter.queue.Repr
        invariant fresh(DeadRepr() - old(DeadRepr()))
      {
        ghost var p := sel[t];
        BelowNext(marks, b);
        assert sel[t + 1..] == sel[t..][1..];
        TallyStep(was, fetchLimit, nacked, p, Amount, DeadValue());
        ExpiringGrows(live, nacked[p := true], marks, fetchLimit);
        panicked := NackOne(pairs[t], p);
        if panicked {
          return;
        }
        b := p + 1;
        t := t + 1;
      }
      BelowAll(marks, b);
      return false;
    }

    method SelectNodes(ids: seq<Bytes>) returns (pairs: seq<PairNode>, ghost sel: seq<nat>)
      requires Valid() && Head != null
      ensures sel == Positions(NackMarks(live, ids), 0) && |sel| == Count(NackMarks(live, ids))
      ensures PairsAt(pairs, sel, nodes)
    {
      hide ChainedTo, Stocked, Chained, SelectedTo, Positions, NackMarks, Count, PairsAt;
      Sized();
      Reached(0);
      PairsNone(nodes);
      SelectStart(live, ids);
      pairs, sel := [], [];
      if Head.ID in ids {
        PairsMore(pairs, sel, nodes, PairNode(null, Head), 0);
        assert sel + [0] == [0];
        pairs, sel := pairs + [PairNode(null, Head)], sel + [0];
      }

      var current := Head.Next;
      var prev := Head;
      ghost var i := 1;
      while current != null && |pairs| < |ids|
        invariant 1 <= i <= |nodes| == |live| && current == NodeAt(nodes, i)
        invariant Valid() && PairsAt(pairs, sel, nodes) && |pairs| == |sel| && prev == nodes[0]
        invariant if ids == [] then sel == [] else SelectedTo(live, ids, i, sel) && |sel| <= |ids|
        decreases |nodes| - i
      {
        Reached(i);
        SelectStep(live, ids, i, sel);
        if current.ID in ids {
          PairsMore(pairs, sel, nodes, PairNode(prev, current), i);
          pairs, sel := pairs + [PairNode(prev, current)], sel + [i];
        }
        current := current.Next;
        i := i + 1;
      }
      if ids != [] {
        SelectEnd(live, ids, i, sel);
      }
    }

    /** Moves the ghost chain on to what is reachable from Head. */
    ghost method FinishNacking()
      requires Nacking()
      modifies `nodes, `live
      ensures var ex := Expiring(old(live), nacked, fetchLimit);
        && live == Reachable(After(old(live), nacked, ex), ex)
        && Head == NodeAt(nodes, 0) && Walk(nodes, live)
        && Tail == TailAfter(old(nodes), ex) && Spares(NodeAt(old(nodes), 0))
        && (!Severed(ex) && Amount >= |old(live)| - Count(ex) ==> Valid())
    {
      hide NackedNodes, NackedEnds, NackedPool, TailAfter, After, Expiring, Reachable, Severed, Walk, Chain;
      hide NodeObjectPool.Valid;
      var ex := Expiring(live, nacked, fetchLimit);
      var ns, ms := Reachable(nodes, ex), Reachable(After(live, nacked, ex), ex);
      ExpiringSize(live, nacked, fetchLimit);
      NackingDone();
      NackedSpares();
      nodes, live := ns, ms;
      if !Severed(ex) && Amount >= |old(live)| - Count(ex) {
        WalkChain(ns, ms);
      }
    }

    lemma NackingDone()
      requires Nacking()
      ensures
        var ex := Expiring(live, nacked, fetchLimit);
        var ns, ms := Reachable(nodes, ex), Reachable(After(live, nacked, ex), ex);
        && Walk(ns, ms) && Head == NodeAt(ns, 0) && Tail == TailAfter(nodes, ex)
        && (!Severed(ex) ==> |ns| <= |nodes| - Count(ex) && Tail == if ns == [] then null else ns[|ns| - 1])
    {
      var ex := Expiring(live, nacked, fetchLimit);
      ReachableWalk(nodes, After(live, nacked, ex), ex);
      ReachableEnds(nodes, ex, Head, Tail, nodes[0].Next);
      if !Severed(ex) {
        ReachableSize(nodes, ex);
      }
    }

    lemma NackedSpares()
      requires Nacking()
      ensures var ex := Expiring(live, nacked, fetchLimit);
        forall i {:trigger Reachable(nodes, ex)[i]} | 0 <= i < |Reachable(nodes, ex)| ::
          Reachable(nodes, ex)[i] in Repr && (!Severed(ex) ==> !Reachable(nodes, ex)[i].spare)
      ensures Spares(NodeAt(nodes, 0)) && (!Severed(Expiring(live, nacked, fetchLimit)) ==> objPool.Valid())
    {
    }
  }

  lemma SliceWalk(ns: seq<ListNode>, ms: seq<Msg>, lo: nat, hi: nat)
    requires |ns| == |ms| && lo <= hi <= |ns|
    requires forall i {:trigger ns[i]} | lo <= i < hi :: ns[i].Holds(ms[i])
    requires forall i, j | lo <= i < j < hi :: ns[i] != ns[j]
    requires forall i {:trigger ns[i].Next} | lo <= i < hi :: ns[i].Next == if i + 1 == hi then null else ns[i + 1]
    ensures Walk(ns[lo..hi], ms[lo..hi])
  {
  }

  lemma Slices<T>(xs: seq<T>, lo: nat)
    requires lo <= |xs|
    ensures xs[lo..|xs|] == xs[lo..] && (lo == 1 ==> [xs[0]] + xs[lo..] == xs)
  {
  }

  lemma ConsWalk(n: ListNode, m: Msg, ns: seq<ListNode>, ms: seq<Msg>)
    requires Walk(ns, ms) && n.Holds(m) && n.Next == NodeAt(ns, 0)
    requires forall i | 0 <= i < |ns| :: ns[i] != n
    ensures Walk([n] + ns, [m] + ms)
  {
  }

  lemma ReachableWalk(ns: seq<ListNode>, ms: seq<Msg>, ex: seq<bool>)
    requires |ns| == |ms| == |ex| > 0
    requires forall i {:trigger ns[i]} | 0 <= i < |ns| :: ns[i].Holds(ms[i])
    requires forall i, j | 0 <= i < j < |ns| :: ns[i] != ns[j]
    requires forall i {:trigger ns[i].Next} | 1 <= i < |ns| ::
               ns[i].Next == if ex[i] || i + 1 == |ns| then null else ns[i + 1]
    requires !ex[0] ==> ns[0].Next == NodeAt(ns, if PastMarks(ex) == 0 then 1 else PastMarks(ex))
    ensures Walk(Reachable(ns, ex), Reachable(ms, ex))
  {
    hide Walk;
    if !ex[0] {
      ReachableWalkKept(ns, ms, ex);
    } else {
      ReachableWalkCut(ns, ms, ex);
    }
  }

  lemma ReachableWalkKept(ns: seq<ListNode>, ms: seq<Msg>, ex: seq<bool>)
    requires |ns| == |ms| == |ex| > 0 && !ex[0]
    requires forall i {:trigger ns[i]} | 0 <= i < |ns| :: ns[i].Holds(ms[i])
    requires forall i, j | 0 <= i < j < |ns| :: ns[i] != ns[j]
    requires forall i {:trigger ns[i].Next} | 1 <= i < |ns| ::
               ns[i].Next == if ex[i] || i + 1 == |ns| then null else ns[i + 1]
    requires ns[0].Next == NodeAt(ns, if PastMarks(ex) == 0 then 1 else PastMarks(ex))
    ensures Walk(Reachable(ns, ex), Reachable(ms, ex))
  {
    hide Walk, PastMarks;
    var n, e := |ns|, if PastMarks(ex) == 0 then 1 else PastMarks(ex);
    SliceWalk(ns, ms, e, n);
    Slices(ns, e);
    Slices(ms, e);
    ConsWalk(ns[0], ms[0], ns[e..], ms[e..]);
  }

  lemma ReachableWalkCut(ns: seq<ListNode>, ms: seq<Msg>, ex: seq<bool>)
    requires |ns| == |ms| == |ex| > 0 && ex[0]
    requires forall i {:trigger ns[i]} | 0 <= i < |ns| :: ns[i].Holds(ms[i])
    requires forall i, j | 0 <= i < j < |ns| :: ns[i] != ns[j]
    requires forall i {:trigger ns[i].Next} | 1 <= i < |ns| ::
               ns[i].Next == if ex[i] || i + 1 == |ns| then null else ns[i + 1]
    ensures Walk(Reachable(ns, ex), Reachable(ms, ex))
  {
    hide Walk, Leading, NextMark;
    var n, g := |ns|, Leading(ex);
    var p := NextMark(ex, g);
    SliceWalk(ns, ms, g, if p == n then n else p + 1);
    assert ns[g..n] == ns[g..] && ms[g..n] == ms[g..];
  }

  lemma WalkChain(ns: seq<ListNode>, ms: seq<Msg>)
    requires Walk(ns, ms) && forall i {:trigger ns[i]} | 0 <= i < |ns| :: !ns[i].spare
    ensures Chain(ns, ms)
  {
  }

  lemma ReachableEnds(ns: seq<ListNode>, ex: seq<bool>, head: ListNode?, tail: ListNode?, next: ListNode?)
    requires |ns| == |ex| > 0 && Ends(ns, ex, head, tail, next)
    ensures var r := Reachable(ns, ex);
      && head == NodeAt(r, 0)
      && (!Severed(ex) ==> tail == if r == [] then null else r[|r| - 1])
  {
    hide Leading, NextMark, PastMarks;
  }

  /** Distinct nodes hold the given messages; each links to the next one and the last one to nothing. */
  ghost predicate Walk(ns: seq<ListNode>, ms: seq<Msg>)
    reads ns
  {
    && |ns| == |ms|
    && (forall i {:trigger ns[i]} | 0 <= i < |ns| :: ns[i].Holds(ms[i]))
    && (forall i, j | 0 <= i < j < |ns| :: ns[i] != ns[j])
    && (forall i {:trigger ns[i].Next} | 0 <= i < |ns| - 1 :: ns[i].Next == ns[i + 1])
    && (ns != [] ==> ns[|ns| - 1].Next == null)
  }

  /** The nodes of a chain after the marked ones have been nacked: what they hold
      and where all but the first one point. */
  ghost predicate NackedNodes(ns: seq<ListNode>, ms: seq<Msg>, marks: seq<bool>, limit: uint32)
    requires |ns| == |ms| == |marks|
    reads ns
  {
    var ex := Expiring(ms, marks, limit);
    && (forall i, j | 0 <= i < j < |ns| :: ns[i] != ns[j])
    && (forall i {:trigger ns[i]} | 0 <= i < |ns| :: ns[i].Holds(After(ms, marks, ex)[i]) && ns[i].spare == ex[i])
    && (forall i {:trigger ns[i].Next} | 1 <= i < |ns| ::
          ns[i].Next == if ex[i] || i + 1 == |ns| then null else ns[i + 1])
  }

  ghost function NodeAt(ns: seq<ListNode>, i: nat): ListNode? {
    if i < |ns| then ns[i] else null
  }

  /** Where Tail points then: once the last node has expired, to the first one, spare or not, unless all have. */
  ghost function TailAfter(ns: seq<ListNode>, ex: seq<bool>): ListNode? {
    if |ns| != |ex| || ns == [] then null
    else if !ex[|ns| - 1] then ns[|ns| - 1]
    else if Leading(ex) == |ns| then null else ns[0]
  }

  /** Where Head, Tail and the first node point after the marked nodes have expired. */
  ghost predicate Ends(ns: seq<ListNode>, ex: seq<bool>, head: ListNode?, tail: ListNode?, next: ListNode?)
    requires |ns| == |ex| > 0
  {
    var n, g := |ns|, Leading(ex);
    && tail == TailAfter(ns, ex)
    && (if !ex[0] then head == ns[0] && next == NodeAt(ns, if PastMarks(ex) == 0 then 1 else PastMarks(ex))
        else head == NodeAt(ns, g) && (NextMark(ex, g) == n ==> next == null))
  }

  lemma EndsStep(ns: seq<ListNode>, ex: seq<bool>, p: nat,
                 head: ListNode?, tail: ListNode?, next: ListNode?,
                 head': ListNode?, tail': ListNode?, next': ListNode?)
    requires |ns| == |ex| > p && ClearFrom(ex, p)
    requires forall i, j | 0 <= i < j < |ns| :: ns[i] != ns[j]
    requires Ends(ns, ex, head, tail, next)
    requires p == 0 ==> next' == null
    requires head' == if ns[p] != head then head
                      else if ns[p] == tail then null
                      else if p == 0 then next else NodeAt(ns, p + 1)
    requires tail' == if ns[p] != tail then tail else if ns[p] == head then null else if p == 0 then null else ns[0]
    requires p > 0 ==> next' == if ns[p] == head then next else if ns[p] == tail then null else NodeAt(ns, p + 1)
    ensures Ends(ns, ex[p := true], head', tail', next')
  {
    ShapeOneMore(ex, p);
    assert ns[p] == tail <==> p == |ns| - 1;
    if p == 0 {
      assert Leading(ex) == 0 && PastMarks(ex) == 0;
    } else if ex[0] {
      assert ns[p] == head <==> Leading(ex) == p;
    }
  }

  /** Each pair holds the node at its position, with the first node for predecessor. */
  ghost predicate PairsAt(pairs: seq<PairNode>, sel: seq<nat>, ns: seq<ListNode>) {
    && |pairs| == |sel|
    && forall t | 0 <= t < |sel| ::
         sel[t] < |ns| && pairs[t] == PairNode(if sel[t] == 0 then null else ns[0], ns[sel[t]])
  }

  lemma PairsNone(ns: seq<ListNode>)
    ensures PairsAt([], [], ns)
  {
  }

  lemma PairsMore(pairs: seq<PairNode>, sel: seq<nat>, ns: seq<ListNode>, pair: PairNode, i: nat)
    requires PairsAt(pairs, sel, ns) && i < |ns|
    requires pair == PairNode(if i == 0 then null else ns[0], ns[i])
    ensures PairsAt(pairs + [pair], sel + [i], ns)
  {
  }
}
