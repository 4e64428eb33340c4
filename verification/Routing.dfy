/** Routing over whole runs, and which operations of the broker have a single outcome. */
module Routing {
  import opened Types
  import opened QueueModel
  import opened BrokerModel
  import opened Strings
  import opened FanOut
  import opened ManagerLaws

  // ----- the four routing operations

  /** DeleteQueue carries the key at which the walk over the routing map first finds the name. */
  datatype RouteOp =
    | Create(name: string, key: string, size: uint32, retryLimit: uint32, hasDLQ: bool)
    | Add(key: string, name: string)
    | Remove(key: string, name: string)
    | Delete(name: string, at: string)

  predicate Possible(b: Broker, op: RouteOp) {
    op.Delete? && KeysOf(b.routing, op.name) != {} ==> op.at in KeysOf(b.routing, op.name)
  }

  function RouteStep(b: Broker, op: RouteOp): (Broker, Status)
    requires Possible(b, op)
  {
    match op
    case Create(name, key, size, retryLimit, hasDLQ) => CreateQueue(b, name, key, size, retryLimit, hasDLQ)
    case Add(key, name) => AddRouteKey(b, key, name)
    case Remove(key, name) => DeleteRoutingKey(b, key, name)
    case Delete(name, at) => if KeysOf(b.routing, name) == {} then (b, Ok) else DeleteQueueAt(b, name, at)
  }

  /** The queues created through the broker and not deleted since. */
  function Standing(b: Broker, created: set<string>, op: RouteOp): set<string>
    requires Possible(b, op)
  {
    if RouteStep(b, op).1 != Ok then created
    else if op.Create? then created + {op.name}
    else if op.Delete? && KeysOf(b.routing, op.name) != {} then created - {op.name}
    else created
  }

  ghost predicate Routed(b: Broker, created: set<string>) {
    && (forall key | key in b.routing :: Sorted(b.routing[key]))
    && (forall n | n in created :: n in b.qm.queues && KeysOf(b.routing, n) != {})
  }

  // ----- binding and unbinding

  /** Binding adds one entry to the list of its key and touches no other list. */
  lemma BindLaw(routing: map<string, seq<string>>, key: string, name: string)
    ensures var r := Bind(routing, key, name);
      && r.Keys == routing.Keys + {key}
      && multiset(r[key]) == multiset(if key in routing then routing[key] else []) + multiset{name}
      && forall k | k in routing && k != key :: r[k] == routing[k]
  {
    if key in routing {
      SortSorts(routing[key] + [name]);
    }
  }

  /** Unbinding takes one entry out of the list of its key and touches no other list. */
  lemma UnbindLaw(routing: map<string, seq<string>>, key: string, name: string)
    requires key in KeysOf(routing, name)
    ensures var r := Unbind(routing, key, name);
      && r.Keys == routing.Keys
      && multiset(r[key]) == multiset(routing[key]) - multiset{name}
      && forall k | k in routing && k != key :: r[k] == routing[k]
  {
    var xs, i := routing[key], IndexOf(routing[key], name);
    assert xs == xs[..i] + [xs[i]] + xs[i + 1..];
  }

  // ----- what each operation reports and does

  /** One entry of the name more, or fewer, under the key; every other list is as it was. */
  ghost predicate Rebound(before: map<string, seq<string>>, after: map<string, seq<string>>, key: string,
                          more: multiset<string>, less: multiset<string>) {
    && key in after && after.Keys == before.Keys + {key}
    && multiset(after[key]) + less == multiset(if key in before then before[key] else []) + more
    && forall k | k in before && k != key :: after[k] == before[k]
  }

  /** Creating a queue needs a key, and a new queue under the name. It then is there as asked for, listed
      under the key, and the queues that were there are as they were. */
  lemma CreateQueueLaw(b: Broker, name: string, key: string, size: uint32, retryLimit: uint32, hasDLQ: bool)
    requires WellFormed(b.qm)
    ensures var (b', status) := CreateQueue(b, name, key, size, retryLimit, hasDLQ);
      && status == (if key == [] then Err(MissingRoutingKey)
                    else if name == [] || size == 0 || name in b.qm.queues then Err(FailedQueueCreation) else Ok)
      && WellFormed(b'.qm) && b'.qm.nodeTTL == b.qm.nodeTTL
      && (status != Ok ==> b' == b)
      && (status == Ok ==>
            && Rebound(b.routing, b'.routing, key, multiset{name}, multiset{})
            && IsNew(b'.qm, name, size, retryLimit)
            && (if hasDLQ then Paired(b'.qm, name) && IsNew(b'.qm, name + "-dlq", size, retryLimit)
                else Pair(b'.qm, b'.qm.queues[name]).dead == QueueModel.NilInterface)
            && forall h | h in b.qm.objects :: h in b'.qm.objects && b'.qm.objects[h] == b.qm.objects[h])
  {
    CreateLaw(b.qm, name, size, retryLimit, hasDLQ);
    BindLaw(b.routing, key, name);
    hide ManagerCreate, Bind, WellFormed, IsNew, Paired, Pair;
  }

  /** Binding needs a key, a name and a queue under the name. */
  lemma AddRouteKeyLaw(b: Broker, key: string, name: string)
    ensures var (b', status) := AddRouteKey(b, key, name);
      && status == (if key == [] then Err(MissingRoutingKey)
                    else if name == [] then Err(InvalidQueueName)
                    else if name !in b.qm.queues then Err(QueueDoesNotExist) else Ok)
      && b'.qm == b.qm
      && if status == Ok then Rebound(b.routing, b'.routing, key, multiset{name}, multiset{}) else b' == b
  {
    BindLaw(b.routing, key, name);
    hide Bind;
  }

  /** Unbinding needs the same and that the key exists, and is refused at the only key. */
  lemma DeleteRoutingKeyLaw(b: Broker, key: string, name: string)
    ensures var (b', status) := DeleteRoutingKey(b, key, name);
      && (status.Err? ==>
            status == (if key == [] then Err(MissingRoutingKey)
                       else if name == [] then Err(InvalidQueueName)
                       else if name !in b.qm.queues then Err(QueueDoesNotExist)
                       else if key !in b.routing then Err(MissingRoutingKey)
                       else Err(QueueMustHaveOneRoutingKey)))
      && (status == Ok <==>
            && key in b.routing && key != [] && name != [] && name in b.qm.queues
            && name in b.routing[key] && exists other :: other != key && other in KeysOf(b.routing, name))
      && (status == Err(QueueMustHaveOneRoutingKey) <==>
            && key in b.routing && key != [] && name != [] && name in b.qm.queues && |KeysOf(b.routing, name)| == 1)
      && b'.qm == b.qm
      && if status == Ok then Rebound(b.routing, b'.routing, key, multiset{}, multiset{name}) else b' == b
  {
    var keys := KeysOf(b.routing, name);
    if key in keys {
      UnbindLaw(b.routing, key, name);
      if |keys| == 1 {
        forall other | other in keys ensures other == key {
          AtMostOne(keys, key, other);
        }
      } else {
        RestOfTwo(keys, key);
        var other :| other in keys - {key};
      }
      assert name in multiset(b.routing[key]);
    }
    hide Unbind;
  }

  /** Deleting a queue that is listed nowhere does nothing, whether it exists or not; a name that is listed
      but leads to no queue is reported; else the name is gone, all other names and every queue are kept,
      and one list has one entry fewer. */
  lemma DeleteQueueLaw(b: Broker, name: string, r: (Broker, Status))
    requires DeleteQueueMay(b, name, r)
    ensures if forall key | key in b.routing :: name !in b.routing[key] then r == (b, Ok)
            else if name !in b.qm.queues then r == (b, Err(QueueMissing))
            else
              && r.1 == Ok && r.0.qm == b.qm.(queues := b.qm.queues - {name})
              && exists key :: key in b.routing && name in b.routing[key]
                               && Rebound(b.routing, r.0.routing, key, multiset{}, multiset{name})
  {
    var keys := KeysOf(b.routing, name);
    if keys != {} {
      var key :| key in keys && r == DeleteQueueAt(b, name, key);
      UnbindLaw(b.routing, key, name);
      hide Unbind;
      assert name in b.routing[key] && name in multiset(b.routing[key]);
      if name in b.qm.queues {
        assert Rebound(b.routing, r.0.routing, key, multiset{}, multiset{name});
      }
    } else {
      assert forall key | key in b.routing :: key !in keys;
    }
  }

  lemma BindKeeps(routing: map<string, seq<string>>, key: string, name: string)
    requires forall k | k in routing :: Sorted(routing[k])
    ensures var r := Bind(routing, key, name);
      && (forall k | k in r :: Sorted(r[k]))
      && key in KeysOf(r, name)
      && forall n :: KeysOf(routing, n) <= KeysOf(r, n)
  {
    var r := Bind(routing, key, name);
    if key in routing {
      var xs := routing[key] + [name];
      SortSorts(xs);
      forall n ensures n in xs ==> n in Sort(xs) {
        assert n in xs <==> n in multiset(xs);
        assert n in Sort(xs) <==> n in multiset(Sort(xs));
      }
      assert xs[|xs| - 1] == name;
      assert forall n | n in routing[key] :: n in xs;
    }
  }

  lemma UnbindKeeps(routing: map<string, seq<string>>, key: string, name: string)
    requires key in KeysOf(routing, name)
    requires forall k | k in routing :: Sorted(routing[k])
    ensures var r := Unbind(routing, key, name);
      && (forall k | k in r :: Sorted(r[k]))
      && (forall n | n != name :: KeysOf(r, n) == KeysOf(routing, n))
      && KeysOf(routing, name) - {key} <= KeysOf(r, name) <= KeysOf(routing, name)
  {
    var r, xs := Unbind(routing, key, name), routing[key];
    var i := IndexOf(xs, name);
    var ys := RemoveAt(xs, i);
    assert Sorted(ys) by {
      forall j, k | 0 <= j < k < |ys| ensures Leq(ys[j], ys[k]) {
        assert ys[j] == xs[if j < i then j else j + 1] && ys[k] == xs[if k < i then k else k + 1];
      }
    }
    forall n | n != name ensures n in ys <==> n in xs {
      if n in xs {
        var j :| 0 <= j < |xs| && xs[j] == n;
        assert ys[if j < i then j else j - 1] == n;
      }
    }
    assert forall n | n in ys :: n in xs;
  }

  // ----- runs

  lemma RoutedStep(b: Broker, created: set<string>, op: RouteOp)
    requires Routed(b, created) && Possible(b, op)
    ensures Routed(RouteStep(b, op).0, Standing(b, created, op))
  {
    var (b', status) := RouteStep(b, op);
    if status == Ok {
      match op
      case Create(name, key, _, _, _) => BindKeeps(b.routing, key, name);
      case Add(key, name) => BindKeeps(b.routing, key, name);
      case Remove(key, name) =>
        UnbindKeeps(b.routing, key, name);
        RestOfTwo(KeysOf(b.routing, name), key);
      case Delete(name, at) =>
        if KeysOf(b.routing, name) != {} {
          UnbindKeeps(b.routing, at, name);
        }
    }
  }

  lemma RestOfTwo(s: set<string>, x: string)
    requires x in s && |s| != 1
    ensures s - {x} != {}
  {
    assert |s - {x}| == |s| - 1;
  }

  /** The states that a run of routing operations goes through. */
  ghost predicate RoutingRun(bs: seq<Broker>, created: seq<set<string>>, ops: seq<RouteOp>) {
    && |bs| == |created| == |ops| + 1
    && forall i | 0 <= i < |ops| ::
         && Possible(bs[i], ops[i])
         && bs[i + 1] == RouteStep(bs[i], ops[i]).0
         && created[i + 1] == Standing(bs[i], created[i], ops[i])
  }

  /** Over every run of the routing operations each key's list stays sorted, and every queue
      created through the broker and not deleted exists and is bound under some key. */
  lemma {:induction false} EveryRunRouted(bs: seq<Broker>, created: seq<set<string>>, ops: seq<RouteOp>, k: nat)
    requires RoutingRun(bs, created, ops) && k <= |ops|
    requires bs[0].routing == map[] && created[0] == {}
    ensures Routed(bs[k], created[k])
  {
    if k > 0 {
      EveryRunRouted(bs, created, ops, k - 1);
      RoutedStep(bs[k - 1], created[k - 1], ops[k - 1]);
    }
  }

  /** Unbinding panics exactly when an existing queue is not bound at an existing key, while bound under none or
      several. */
  lemma UnbindPanicsIff(b: Broker, key: string, name: string)
    ensures DeleteRoutingKey(b, key, name).1 == Panic <==>
      && key in b.routing && key != [] && name != [] && name in b.qm.queues
      && key !in KeysOf(b.routing, name) && |KeysOf(b.routing, name)| != 1
  {
  }

  /** A run to the crash: two queues under a key each, the second bound under a third key too, and then
      unbound from the key of the first. */
  lemma UnbindCrash(ttl: int64, size: uint32, retryLimit: uint32)
    requires size > 0
    ensures
      var b0 := Broker(map[], Manager(map[], map[], 0, ttl));
      var (b1, first) := CreateQueue(b0, "p", "a", size, retryLimit, false);
      var (b2, second) := CreateQueue(b1, "q", "b", size, retryLimit, false);
      var (b3, third) := AddRouteKey(b2, "c", "q");
      first == Ok && second == Ok && third == Ok && DeleteRoutingKey(b3, "a", "q").1 == Panic
  {
    var b1 := CreateQueue(Broker(map[], Manager(map[], map[], 0, ttl)), "p", "a", size, retryLimit, false).0;
    assert b1.routing == map["a" := ["p"]] && "p" in b1.qm.queues && "q" !in b1.qm.queues;
    var b2 := CreateQueue(b1, "q", "b", size, retryLimit, false).0;
    assert b2.routing == map["a" := ["p"], "b" := ["q"]] && "q" in b2.qm.queues;
    var b3 := AddRouteKey(b2, "c", "q").0;
    assert b3.routing == map["a" := ["p"], "b" := ["q"], "c" := ["q"]] && b3.qm == b2.qm;
    hide CreateQueue, AddRouteKey;
    assert KeysOf(b3.routing, "q") == {"b", "c"};
    UnbindPanicsIff(b3, "a", "q");
  }

  // ----- the order of the walk over the routing map

  /** Deleting a queue has one possible result exactly when it is bound under at most one key or does not exist. */
  lemma DeleteQueueDeterministicIff(b: Broker, name: string)
    ensures (forall r, r' :: DeleteQueueMay(b, name, r) && DeleteQueueMay(b, name, r') ==> r == r')
            <==> |KeysOf(b.routing, name)| <= 1 || name !in b.qm.queues
  {
    var keys := KeysOf(b.routing, name);
    if |keys| <= 1 {
      forall k, k' | k in keys && k' in keys ensures k == k' {
        AtMostOne(keys, k, k');
      }
    } else if name in b.qm.queues {
      var k :| k in keys;
      RestOfTwo(keys, k);
      var k' :| k' in keys - {k};
      var r, r' := DeleteQueueAt(b, name, k), DeleteQueueAt(b, name, k');
      assert |r.0.routing[k]| == |b.routing[k]| - 1 && r'.0.routing[k] == b.routing[k];
      assert DeleteQueueMay(b, name, r) && DeleteQueueMay(b, name, r') && r != r';
    }
  }

  /** Deleting an existing queue leaves no binding of it behind, whatever the map order, exactly when it
      is bound under no key, or under one key whose list holds it once. */
  lemma DeleteQueueUnbindsIff(b: Broker, name: string)
    requires name in b.qm.queues
    ensures (forall r :: DeleteQueueMay(b, name, r) ==> KeysOf(r.0.routing, name) == {})
            <==> |KeysOf(b.routing, name)| == 0
                 || (|KeysOf(b.routing, name)| == 1
                     && forall k :: k in KeysOf(b.routing, name) ==> multiset(b.routing[k])[name] == 1)
  {
    var keys := KeysOf(b.routing, name);
    if keys == {} {
      assert DeleteQueueMay(b, name, (b, Ok));
    } else {
      forall k | k in keys
        ensures KeysOf(Unbind(b.routing, k, name), name)
                == if multiset(b.routing[k])[name] == 1 then keys - {k} else keys
      {
        UnbindLeaves(b.routing, k, name);
      }
      var k :| k in keys;
      var r := DeleteQueueAt(b, name, k);
      assert DeleteQueueMay(b, name, r);
      if |keys| == 1 {
        forall k' | k' in keys ensures k' == k { AtMostOne(keys, k, k'); }
        assert keys - {k} == {};
      } else {
        RestOfTwo(keys, k);
      }
    }
  }

  /** After one binding at a key is taken away the queue is still bound there if it was bound twice. */
  lemma UnbindLeaves(routing: map<string, seq<string>>, key: string, name: string)
    requires key in KeysOf(routing, name)
    ensures KeysOf(Unbind(routing, key, name), name) ==
            if multiset(routing[key])[name] == 1 then KeysOf(routing, name) - {key} else KeysOf(routing, name)
  {
    UnbindLaw(routing, key, name);
    var r := Unbind(routing, key, name);
    assert name in r[key] <==> name in multiset(r[key]);
    assert name in routing[key] <==> name in multiset(routing[key]);
    hide Unbind;
  }

  /** A queue that is bound twice under its one key: deleting it has one outcome, reported as done, in
      which the queue is gone and its name still bound; a queue made later under that name is then
      bound there unasked. */
  lemma DoubleBindingSurvives(ttl: int64, name: string, key: string, size: uint32, retryLimit: uint32)
    requires name != [] && key != [] && size > 0
    ensures
      var b0 := Broker(map[], Manager(map[], map[], 0, ttl));
      var (b1, created) := CreateQueue(b0, name, key, size, retryLimit, false);
      var (b2, added) := AddRouteKey(b1, key, name);
      && created == Ok && added == Ok && KeysOf(b2.routing, name) == {key}
      && forall r :: DeleteQueueMay(b2, name, r) ==>
           && r.1 == Ok && name !in r.0.qm.queues && KeysOf(r.0.routing, name) == {key}
           && forall other | other != [] ::
                var (b3, again) := CreateQueue(r.0, name, other, size, retryLimit, false);
                again == Ok && key in KeysOf(b3.routing, name)
  {
    var b1 := CreateQueue(Broker(map[], Manager(map[], map[], 0, ttl)), name, key, size, retryLimit, false).0;
    assert b1.routing == map[key := [name]];
    var b2 := AddRouteKey(b1, key, name).0;
    BindLaw(b1.routing, key, name);
    assert multiset([name]) + multiset{name} == multiset{name, name};
    assert name in b2.routing[key] <==> name in multiset(b2.routing[key]);
    assert KeysOf(b2.routing, name) == {key};
    UnbindLeaves(b2.routing, key, name);
    hide CreateQueue, AddRouteKey;
    forall r, other | r == DeleteQueueAt(b2, name, key) && other != []
      ensures var (b3, again) := CreateQueue(r.0, name, other, size, retryLimit, false);
        again == Ok && key in KeysOf(b3.routing, name)
    {
      StaleBindingInherited(r.0, name, key, other, size, retryLimit);
    }
  }

  /** A queue made under a name that is still bound somewhere is bound there too. */
  lemma StaleBindingInherited(b: Broker, name: string, key: string, other: string, size: uint32, retryLimit: uint32)
    requires key in KeysOf(b.routing, name) && name !in b.qm.queues && name != [] && other != [] && size > 0
    ensures var (b', status) := CreateQueue(b, name, other, size, retryLimit, false);
      status == Ok && key in KeysOf(b'.routing, name)
  {
    BindLaw(b.routing, other, name);
    var r := Bind(b.routing, other, name);
    assert name in r[key] <==> name in multiset(r[key]);
    assert name in b.routing[key] <==> name in multiset(b.routing[key]);
    hide Bind;
  }

  lemma AtMostOne(s: set<string>, x: string, y: string)
    requires x in s && y in s && |s| <= 1
    ensures x == y
  {
    var rest := s - {x};
    assert |rest| == |s| - 1;
    assert rest == {};
    assert s == rest + {x};
  }

  // ----- submissions

  /** Some interleaving of the goroutines that deliver d ends with these queues. */
  ghost predicate DeliveryMay(qm: Manager, names: seq<string>, d: Delivery, qm': Manager) {
    exists spare: map<Handle, nat>, schedule: seq<nat> ::
      DeliveryBy(qm, names, d, qm', spare, schedule)
  }

  ghost predicate DeliveryBy(qm: Manager, names: seq<string>, d: Delivery, qm': Manager,
                             spare: map<Handle, nat>, schedule: seq<nat>) {
    && spare.Keys == qm.objects.Keys
    && (forall k | 0 <= k < |schedule| :: schedule[k] < |names|)
    && AllFinished(Interleave(qm, names, d, Launch(qm, names, spare), schedule))
    && qm' == qm.(objects := Interleave(qm, names, d, Launch(qm, names, spare), schedule).objects)
  }

  /** Concurrent delivery has one outcome, that of delivering to one queue after the other. */
  lemma DeliveryMayIff(qm: Manager, names: seq<string>, d: Delivery, qm': Manager)
    ensures DeliveryMay(qm, names, d, qm') <==> qm' == DeliverAll(qm, names, d)
  {
    hide DeliverAll, Interleave, AllFinished;
    if DeliveryMay(qm, names, d, qm') {
      var spare: map<Handle, nat>, schedule: seq<nat> :| DeliveryBy(qm, names, d, qm', spare, schedule);
      FanOutConfluent(qm, names, d, spare, schedule);
    }
    if qm' == DeliverAll(qm, names, d) {
      var spare: map<Handle, nat> := map h | h in qm.objects :: 0;
      var schedule := CompleteScheduleExists(qm, names, d, Launch(qm, names, spare), 0);
      FanOutConfluent(qm, names, d, spare, schedule);
      assert DeliveryBy(qm, names, d, qm', spare, schedule);
    }
  }

  /** A submission may end like this: what is refused is refused before any goroutine starts. */
  ghost predicate SubmitMay(b: Broker, key: string, data: Bytes, id: Bytes, r: (Broker, Status)) {
    if AddMessage(b, key, data, id).1 != Ok then r == AddMessage(b, key, data, id)
    else r.1 == Ok && r.0.routing == b.routing && DeliveryMay(b.qm, b.routing[key], One(id, data), r.0.qm)
  }

  ghost predicate BatchSubmitMay(b: Broker, key: string, datas: seq<Bytes>, ids: seq<Bytes>, r: (Broker, Status)) {
    if BatchAddMessage(b, key, datas, ids).1 != Ok || |ids| < |datas| then r == BatchAddMessage(b, key, datas, ids)
    else r.1 == Ok && r.0.routing == b.routing && DeliveryMay(b.qm, b.routing[key], Many(Batch(datas, ids)), r.0.qm)
  }

  /** A submission has one possible outcome, that of delivering to the queues one after the other. */
  lemma SubmissionDeterministic(b: Broker, key: string, data: Bytes, id: Bytes, r: (Broker, Status))
    ensures SubmitMay(b, key, data, id, r) <==> r == AddMessage(b, key, data, id)
  {
    hide DeliveryMay, DeliverAll;
    if AddMessage(b, key, data, id).1 == Ok {
      DeliveryMayIff(b.qm, b.routing[key], One(id, data), r.0.qm);
    }
  }

  lemma BatchSubmissionDeterministic(b: Broker, key: string, datas: seq<Bytes>, ids: seq<Bytes>, r: (Broker, Status))
    ensures BatchSubmitMay(b, key, datas, ids, r) <==> r == BatchAddMessage(b, key, datas, ids)
  {
    hide DeliveryMay, DeliverAll;
    if BatchAddMessage(b, key, datas, ids).1 == Ok && |ids| >= |datas| {
      DeliveryMayIff(b.qm, b.routing[key], Many(Batch(datas, ids)), r.0.qm);
    }
  }
}
