/** The broker as an object: the routing map is appended to, sorted and spliced in place, map
    walks visit keys in any order and deliveries run as goroutines that interleave freely. */
module BrokerObject {
  import opened Types
  import opened BrokerModel
  import opened Strings
  import opened FanOut

  /** The first index of x, or -1. */
  method IndexFunc(xs: seq<string>, x: string) returns (idx: int)
    ensures if x in xs then idx == IndexOf(xs, x) else idx == -1
  {
    for i := 0 to |xs|
      invariant forall j | 0 <= j < i :: xs[j] != x
    {
      if xs[i] == x {
        return i;
      }
    }
    return -1;
  }

  class RoutingBroker {
    var routing: map<string, seq<string>>
    var qm: Manager

    constructor (nodeTTL: int64)
      ensures Value() == Broker(map[], Manager(map[], map[], 0, nodeTTL))
    {
      routing, qm := map[], Manager(map[], map[], 0, nodeTTL);
    }

    ghost function Value(): Broker
      reads this
    {
      Broker(routing, qm)
    }

    method CreateQueue(name: string, key: string, size: uint32, retryLimit: uint32, hasDLQ: bool)
      returns (status: Status)
      modifies this
      ensures (Value(), status) == BrokerModel.CreateQueue(old(Value()), name, key, size, retryLimit, hasDLQ)
    {
      if |key| == 0 {
        return Err(MissingRoutingKey);
      }
      var (manager, created) := ManagerCreate(qm, name, size, retryLimit, hasDLQ);
      if created != Ok {
        return Err(FailedQueueCreation);
      }
      qm := manager;
      AppendSorted(key, name);
      return Ok;
    }

    method AppendSorted(key: string, name: string)
      modifies `routing
      ensures routing == Bind(old(routing), key, name)
    {
      if key in routing {
        routing := routing[key := routing[key] + [name]];
        routing := routing[key := Sort(routing[key])];
      } else {
        routing := routing[key := [name]];
      }
    }

    method AddRouteKey(key: string, name: string) returns (status: Status)
      modifies this
      ensures (Value(), status) == BrokerModel.AddRouteKey(old(Value()), key, name)
    {
      if |key| == 0 {
        return Err(MissingRoutingKey);
      }
      if |name| == 0 {
        return Err(InvalidQueueName);
      }
      if name !in qm.queues {
        return Err(QueueDoesNotExist);
      }
      AppendSorted(key, name);
      return Ok;
    }

    /** Walks the routing map in any order and stops at the first list that holds the name. */
    method DeleteQueue(name: string) returns (status: Status)
      modifies this
      ensures DeleteQueueMay(old(Value()), name, (Value(), status))
    {
      var left := routing.Keys;
      while left != {}
        invariant left <= routing.Keys && Value() == old(Value())
        invariant forall k | k in routing && k !in left :: name !in routing[k]
        decreases left
      {
        var key :| key in left;
        var idx := IndexFunc(routing[key], name);
        if idx >= 0 {
          assert key in KeysOf(routing, name);
          var (manager, deleted) := ManagerDelete(qm, name);
          if deleted != Ok {
            return deleted;
          }
          qm := manager;
          routing := routing[key := routing[key][..idx] + routing[key][idx + 1..]];
          return Ok;
        }
        left := left - {key};
      }
      assert KeysOf(routing, name) == {};
      return Ok;
    }

    /** Counts the keys that hold the name, in any order and no further than two. */
    method CountKeys(name: string) returns (found: nat)
      ensures found == 1 <==> |KeysOf(routing, name)| == 1
    {
      found := 0;
      var left := routing.Keys;
      ghost var seen: set<string> := {};
      while left != {}
        invariant left <= routing.Keys && found <= 1
        invariant seen <= KeysOf(routing, name) && |seen| == found && seen !! left
        invariant forall k | k in KeysOf(routing, name) :: k in left || k in seen
        decreases left
      {
        var key :| key in left;
        left := left - {key};
        if name in routing[key] {
          found := found + 1;
          seen := seen + {key};
          if found == 2 {
            assert KeysOf(routing, name) == seen + (KeysOf(routing, name) - seen);
            return;
          }
        }
      }
      assert seen == KeysOf(routing, name);
    }

    method DeleteRoutingKey(key: string, name: string) returns (status: Status)
      modifies this
      ensures (Value(), status) == BrokerModel.DeleteRoutingKey(old(Value()), key, name)
    {
      if |key| == 0 {
        return Err(MissingRoutingKey);
      }
      if |name| == 0 {
        return Err(InvalidQueueName);
      }
      if name !in qm.queues {
        return Err(QueueDoesNotExist);
      }
      if key !in routing {
        return Err(MissingRoutingKey);
      }
      var found := CountKeys(name);
      if found == 1 {
        return Err(QueueMustHaveOneRoutingKey);
      }
      var idx := IndexFunc(routing[key], name);
      if idx < 0 {
        return Panic;
      }
      routing := routing[key := routing[key][..idx] + routing[key][idx + 1..]];
      return Ok;
    }

    /** The goroutines of one delivery, scheduled in any order until all have finished; spare
        says how many nodes each queue has pooled. */
    method FanOutTo(names: seq<string>, d: Delivery, spare: map<Handle, nat>) returns (left: map<Handle, nat>)
      requires spare.Keys == qm.objects.Keys
      modifies `qm
      ensures qm == DeliverAll(old(qm), names, d)
      ensures left.Keys == old(qm).objects.Keys
      ensures forall h | h in old(qm).objects ::
                left[h] == SpareTimes(old(qm).objects[h], spare[h], d, |Bound(old(qm), names, |names|, h)|)
    {
      hide Delivered, DeliverAll, ObjectTimes, SpareTimes, Bound;
      var f := Launch(qm, names, spare);
      LaunchDelivered(qm, names, d, spare);
      while !AllFinished(f)
        invariant qm == old(qm) && |f.pcs| == |names| && Delivered(qm, names, d, spare, f)
        decreases Remaining(f.pcs)
      {
        var i: nat :| i < |names| && f.pcs[i] != Finished;
        DeliveredStep(qm, names, d, spare, f, i);
        StepProgresses(qm, names, d, spare, f, i);
        f := Advance(qm, names, d, f, i);
        SizeOf(qm, names, d, spare, f);
      }
      FinishedFits(qm, names, d, spare, f);
      DeliverAllCounts(qm, names, d, |names|);
      assert names[..|names|] == names;
      assert f.objects == DeliverAll(qm, names, d).objects;
      qm := qm.(objects := f.objects);
      left := f.spare;
    }

    lemma SizeOf(qm: Manager, names: seq<string>, d: Delivery, spare: map<Handle, nat>, f: Fan)
      requires Delivered(qm, names, d, spare, f)
      ensures |f.pcs| == |names|
    {
    }

    method AddMessage(key: string, data: Bytes, id: Bytes, spare: map<Handle, nat>) returns (status: Status)
      requires spare.Keys == qm.objects.Keys
      modifies this
      ensures (Value(), status) == BrokerModel.AddMessage(old(Value()), key, data, id)
    {
      if |data| == 0 {
        return Err(EmptyData);
      }
      if key !in routing {
        return Err(RoutingKeyDoesNotExist);
      }
      hide DeliverAll;
      var left := FanOutTo(routing[key], One(id, data), spare);
      return Ok;
    }

    method BatchAddMessage(key: string, datas: seq<Bytes>, ids: seq<Bytes>, spare: map<Handle, nat>)
      returns (status: Status)
      requires spare.Keys == qm.objects.Keys
      modifies this
      ensures (Value(), status) == BrokerModel.BatchAddMessage(old(Value()), key, datas, ids)
    {
      for i := 0 to |datas|
        invariant [] !in datas[..i] && Value() == old(Value())
      {
        if |datas[i]| == 0 {
          return Err(EmptyData);
        }
      }
      assert datas[..|datas|] == datas;
      if key !in routing {
        return Err(RoutingKeyDoesNotExist);
      }
      if |ids| < |datas| {
        return if exists n | n in routing[key] :: n in qm.queues then Panic else Ok;
      }
      hide DeliverAll;
      var left := FanOutTo(routing[key], Many(Batch(datas, ids)), spare);
      return Ok;
    }
  }
}
