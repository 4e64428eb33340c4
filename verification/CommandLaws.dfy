/** What a permitted command does: to the queues as operations of the queue manager, to the roles as
    operations of the role manager, to the accounts; and what it answers. */
module CommandLaws {
  import opened Types
  import opened QueueModel
  import opened BatchLaws
  import opened BrokerModel
  import opened Routing
  import opened Submissions
  import opened QueueRuns
  import opened ManagerLaws
  import opened ManagerRuns
  import opened FsmModel
  import opened FsmLaws
  import opened ManagerReports
  import RbacLaws

  // ----- the queues

  /** One operation for each queue listed under the key. */
  function ToEach(names: seq<string>, op: Request): (r: seq<ManagerOp>)
    ensures |r| == |names| && forall i | 0 <= i < |names| :: r[i] == Ask(names[i], op)
  {
    seq(|names|, i requires 0 <= i < |names| => Ask(names[i], op))
  }

  /** What the submissions under several keys come to. */
  function BatchOps(routing: map<string, seq<string>>, messages: seq<Messages>): seq<ManagerOp>
    decreases |messages|
  {
    if messages == [] then []
    else
      var m := messages[0];
      (if [] in m.datas || m.key !in routing || |m.ids| < |m.datas| then []
       else ToEach(routing[m.key], DoBatchEnqueue(Batch(m.datas, m.ids))))
      + BatchOps(routing, messages[1..])
  }

  /** The operations of the queue manager that a command stands for. */
  function OpsOf(b: Broker, cmd: Command): seq<ManagerOp> {
    match cmd
    case CreateQueueCmd(key, name, size, retryLimit, hasDLQ) =>
      if key == [] then [] else [ManagerOp.Create(name, size, retryLimit, hasDLQ)]
    case DeleteQueueCmd(name) => if KeysOf(b.routing, name) == {} then [] else [ManagerOp.Remove(name)]
    case SubmitCmd(key, data, id) =>
      if data == [] || key !in b.routing then [] else ToEach(b.routing[key], DoEnqueue(id, data))
    case SubmitBatchCmd(messages) => BatchOps(b.routing, messages)
    case GetCmd(name, amount, c, now) => if name == [] then [] else [Ask(name, DoFetch(amount, c, now))]
    case AckCmd(name, id, c) => [Ask(name, DoAck(c, id))]
    case NackCmd(name, id, c) => [Ask(name, DoNack(c, id))]
    case BatchAckCmd(name, ids, c) => [Ask(name, DoBatchAck(c, ids))]
    case BatchNackCmd(name, ids, c) => [Ask(name, DoBatchNack(c, ids))]
    case _ => []
  }

  lemma RunOne(qm: Manager, op: ManagerOp)
    ensures ManagerRun(qm, [op]) == ManagerStep(qm, op).0
  {
    assert [op][1..] == [];
  }

  lemma {:induction false} RunJoin(qm: Manager, a: seq<ManagerOp>, b: seq<ManagerOp>)
    ensures ManagerRun(qm, a + b) == ManagerRun(ManagerRun(qm, a), b)
    decreases |a|
  {
    hide ManagerStep;
    if a == [] {
      assert a + b == b;
    } else {
      assert (a + b)[1..] == a[1..] + b;
      RunJoin(ManagerStep(qm, a[0]).0, a[1..], b);
    }
  }

  lemma {:induction false} EachIsDelivered(qm: Manager, names: seq<string>, op: Request, d: Delivery)
    requires (op.DoEnqueue? && d == One(op.id, op.val)) || (op.DoBatchEnqueue? && d == Many(op.batch))
    ensures ManagerRun(qm, ToEach(names, op)) == DeliverAll(qm, names, d)
    decreases |names|
  {
    if names != [] {
      assert ToEach(names, op)[1..] == ToEach(names[1..], op);
      EachIsDelivered(DeliverTo(qm, names[0], d), names[1..], op, d);
      hide DeliverTo;
    }
  }

  lemma {:induction false} BatchIsRun(b: Broker, messages: seq<Messages>)
    requires SubmitAll(b, messages).2
    ensures SubmitAll(b, messages).0.qm == ManagerRun(b.qm, BatchOps(b.routing, messages))
    ensures SubmitAll(b, messages).0.routing == b.routing
    decreases |messages|
  {
    if messages != [] {
      var m := messages[0];
      var (b1, status) := BatchAddMessage(b, m.key, m.datas, m.ids);
      assert status == Ok || status.Err?;
      var ops := BatchOps(b.routing, [m]);
      assert [m][1..] == [];
      BatchIsRun(b1, messages[1..]);
      if [] !in m.datas && m.key in b.routing && |m.ids| >= |m.datas| {
        var batch := Batch(m.datas, m.ids);
        EachIsDelivered(b.qm, b.routing[m.key], DoBatchEnqueue(batch), Many(batch));
        hide DeliverAll, ToEach, Batch;
        RunJoin(b.qm, ToEach(b.routing[m.key], DoBatchEnqueue(batch)), BatchOps(b.routing, messages[1..]));
      } else {
        assert [] + BatchOps(b.routing, messages[1..]) == BatchOps(b.routing, messages[1..]);
      }
    }
  }

  /** A permitted command does to the queues what its operations do one after the other. */
  lemma CommandIsRun(s: System, cmd: Command, out: (System, seq<Result>))
    requires ActMay(s, cmd, out) && !out.0.halted
    ensures out.0.broker.qm == ManagerRun(s.broker.qm, OpsOf(s.broker, cmd))
  {
    hide ActMay, OpsOf, ManagerRun;
    match cmd
    case SubmitCmd(key, data, id) => SubmissionIsRun(s, cmd, out);
    case SubmitBatchCmd(messages) => SubmissionIsRun(s, cmd, out);
    case CreateQueueCmd(_, _, _, _, _) => RoutedIsRun(s, cmd, out);
    case DeleteQueueCmd(_) => RoutedIsRun(s, cmd, out);
    case AddKeyCmd(_, _) => RoutedIsRun(s, cmd, out);
    case DeleteKeyCmd(_, _) => RoutedIsRun(s, cmd, out);
    case GetCmd(_, _, _, _) => ConsumedIsRun(s, cmd, out);
    case AckCmd(_, _, _) => ConsumedIsRun(s, cmd, out);
    case NackCmd(_, _, _) => ConsumedIsRun(s, cmd, out);
    case BatchAckCmd(_, _, _) => ConsumedIsRun(s, cmd, out);
    case BatchNackCmd(_, _, _) => ConsumedIsRun(s, cmd, out);
    case _ => OthersKeepBroker(s, cmd, out);
  }

  lemma SubmissionIsRun(s: System, cmd: Command, out: (System, seq<Result>))
    requires (cmd.SubmitCmd? || cmd.SubmitBatchCmd?) && ActMay(s, cmd, out) && !out.0.halted
    ensures out.0.broker.qm == ManagerRun(s.broker.qm, OpsOf(s.broker, cmd))
    ensures out.0.broker.routing == s.broker.routing
  {
    hide ActMay, DeliverAll, ManagerRun, ToEach, SubmitAll, BatchOps;
    ActMayIff(s, cmd, out);
    if cmd.SubmitBatchCmd? {
      BatchIsRun(s.broker, cmd.messages);
    } else if cmd.data != [] && cmd.key in s.broker.routing {
      EachIsDelivered(s.broker.qm, s.broker.routing[cmd.key], DoEnqueue(cmd.id, cmd.data), One(cmd.id, cmd.data));
    } else {
      RunNone(s.broker.qm);
    }
  }

  lemma RunNone(qm: Manager)
    ensures ManagerRun(qm, []) == qm
  {
  }

  lemma RoutedIsRun(s: System, cmd: Command, out: (System, seq<Result>))
    requires cmd.CreateQueueCmd? || cmd.DeleteQueueCmd? || cmd.AddKeyCmd? || cmd.DeleteKeyCmd?
    requires ActMay(s, cmd, out) && !out.0.halted
    ensures out.0.broker.qm == ManagerRun(s.broker.qm, OpsOf(s.broker, cmd))
  {
    hide ManagerRun, KeysOf, Unbind, Bind, ManagerCreate, ManagerDelete;
    RunNone(s.broker.qm);
    match cmd
    case CreateQueueCmd(key, name, size, retryLimit, hasDLQ) =>
      RunOne(s.broker.qm, ManagerOp.Create(name, size, retryLimit, hasDLQ));
      CreateReports(s.broker.qm, name, size, retryLimit, hasDLQ);
    case DeleteQueueCmd(name) =>
      RunOne(s.broker.qm, ManagerOp.Remove(name));
      DeletedQueues(s.broker, name);
    case _ =>
  }

  lemma DeletedQueues(b: Broker, name: string)
    ensures forall r | DeleteQueueMay(b, name, r) ::
              r.0.qm == if KeysOf(b.routing, name) == {} then b.qm else ManagerDelete(b.qm, name).0
  {
    hide KeysOf, Unbind;
  }

  lemma ConsumedIsRun(s: System, cmd: Command, out: (System, seq<Result>))
    requires cmd.GetCmd? || cmd.AckCmd? || cmd.NackCmd? || cmd.BatchAckCmd? || cmd.BatchNackCmd?
    requires ActMay(s, cmd, out) && !out.0.halted
    ensures out.0.broker.qm == ManagerRun(s.broker.qm, OpsOf(s.broker, cmd))
    ensures out.0.broker.routing == s.broker.routing
  {
    hide ManagerRun, ManagerGet, ManagerAck, ManagerNack, ManagerBatchAck, ManagerBatchNack, DropAccount;
    RunNone(s.broker.qm);
    match cmd
    case GetCmd(name, amount, c, now) => RunOne(s.broker.qm, Ask(name, DoFetch(amount, c, now)));
    case AckCmd(name, id, c) => RunOne(s.broker.qm, Ask(name, DoAck(c, id)));
    case NackCmd(name, id, c) => RunOne(s.broker.qm, Ask(name, DoNack(c, id)));
    case BatchAckCmd(name, ids, c) => RunOne(s.broker.qm, Ask(name, DoBatchAck(c, ids)));
    case BatchNackCmd(name, ids, c) => RunOne(s.broker.qm, Ask(name, DoBatchNack(c, ids)));
  }

  lemma OthersKeepBroker(s: System, cmd: Command, out: (System, seq<Result>))
    requires ActMay(s, cmd, out) && !cmd.SubmitCmd? && !cmd.SubmitBatchCmd?
    requires !cmd.CreateQueueCmd? && !cmd.DeleteQueueCmd? && !cmd.AddKeyCmd? && !cmd.DeleteKeyCmd?
    requires !cmd.GetCmd? && !cmd.AckCmd? && !cmd.NackCmd? && !cmd.BatchAckCmd? && !cmd.BatchNackCmd?
    ensures out.0.broker == s.broker && out.0.broker.qm == ManagerRun(s.broker.qm, OpsOf(s.broker, cmd))
  {
    hide DropAccount;
  }

  // ----- what is answered

  /** The answer to a command that the broker or the queue manager has carried out or refused. */
  function Answer(status: Status, got: seq<MessageBatch>): seq<Result> {
    match status
    case Ok => [Result(None, got, false)]
    case Err(e) => [Result(Some(OfBroker(e)), [], false)]
    case _ => []
  }

  /** Submitting, creating, binding and unbinding answer by what was asked and the state before. */
  lemma RoutedAnswers(s: System, cmd: Command, out: (System, seq<Result>))
    requires WellFormed(s.broker.qm) && ActMay(s, cmd, out) && !out.0.halted
    ensures match cmd
      case CreateQueueCmd(key, name, size, _, _) =>
        out.1 == Answer(if key == [] then Err(MissingRoutingKey)
                        else if name == [] || size == 0 || name in s.broker.qm.queues then Err(FailedQueueCreation)
                        else Ok, [])
      case DeleteQueueCmd(name) =>
        out.1 == Answer(if name in s.broker.qm.queues then Ok
                        else if exists key :: key in s.broker.routing && name in s.broker.routing[key]
                        then Err(QueueMissing) else Ok, [])
      case AddKeyCmd(key, name) =>
        out.1 == Answer(if key == [] then Err(MissingRoutingKey)
                        else if name == [] then Err(InvalidQueueName)
                        else if name !in s.broker.qm.queues then Err(QueueDoesNotExist) else Ok, [])
      case DeleteKeyCmd(key, name) =>
        out.1 == Answer(if key == [] then Err(MissingRoutingKey)
                        else if name == [] then Err(InvalidQueueName)
                        else if name !in s.broker.qm.queues then Err(QueueDoesNotExist)
                        else if key !in s.broker.routing then Err(MissingRoutingKey)
                        else if |KeysOf(s.broker.routing, name)| == 1 then Err(QueueMustHaveOneRoutingKey) else Ok, [])
      case SubmitCmd(key, data, _) =>
        out.1 == Answer(if data == [] then Err(EmptyData)
                        else if key !in s.broker.routing then Err(RoutingKeyDoesNotExist) else Ok, [])
      case _ => true
  {
    hide ActMay, DeliverAll, ManagerCreate, Bind, Unbind, KeysOf, WellFormed;
    if cmd.DeleteQueueCmd? {
      DeleteAnswers(s, cmd.name, out);
    } else {
      ActMayIff(s, cmd, out);
      if cmd.CreateQueueCmd? {
        CreateReports(s.broker.qm, cmd.name, cmd.size, cmd.retryLimit, cmd.hasDLQ);
      }
    }
  }

  lemma DeleteAnswers(s: System, name: string, out: (System, seq<Result>))
    requires ActMay(s, DeleteQueueCmd(name), out)
    ensures out.1 == Answer(if name in s.broker.qm.queues then Ok
                            else if exists key :: key in s.broker.routing && name in s.broker.routing[key]
                            then Err(QueueMissing) else Ok, [])
  {
    var r :| DeleteQueueMay(s.broker, name, r) && out == Reported(s, r.0, r.1, []);
    DeleteQueueLaw(s.broker, name, r);
    hide DeleteQueueMay, Rebound;
  }

  /** Consuming answers by who holds what. */
  lemma ConsumedAnswers(s: System, cmd: Command, out: (System, seq<Result>))
    requires WellFormed(s.broker.qm) && ActMay(s, cmd, out) && !out.0.halted
    ensures match cmd
      case GetCmd(name, amount, c, now) =>
        if name == [] then out.1 == Answer(Err(InvalidQueueName), [])
        else if name !in s.broker.qm.queues then out.1 == Answer(Err(QueueMissing), [])
        else out.1 == Answer(Ok, ManagerGet(s.broker.qm, name, amount, c, now).2)
      case AckCmd(name, id, c) =>
        out.1 == Answer(if name !in s.broker.qm.queues then Err(QueueMissing)
                        else if HeldIn(s.broker.qm, name, c, id) then Ok else Err(NotHeld), [])
      case NackCmd(name, id, c) =>
        out.1 == Answer(if name !in s.broker.qm.queues then Err(QueueMissing)
                        else if FirstHeldIn(s.broker.qm, name, c, id) then Ok else Err(FailedEmpty), [])
      case BatchAckCmd(name, ids, c) => out.1 == Answer(ManagerBatchAck(s.broker.qm, name, c, ids).1, [])
      case BatchNackCmd(name, ids, c) => out.1 == Answer(ManagerBatchNack(s.broker.qm, name, ids).1, [])
      case _ => true
  {
    hide Pair, WithPair, Fetch, Nack, Ack, ManagerBatchAck, ManagerBatchNack;
    match cmd
    case AckCmd(name, id, c) =>
      AckReport(s.broker.qm, name, c, id);
      hide ManagerAck;
    case NackCmd(name, id, c) =>
      NackReport(s.broker.qm, name, c, id);
      FirstOrNone(s.broker.qm, name, id);
      hide ManagerNack;
    case _ =>
  }

  /** c holds a message under the id. */
  ghost predicate HeldIn(qm: Manager, name: string, c: Bytes, id: Bytes)
    requires WellFormed(qm) && name in qm.queues
  {
    HeldBy(qm.objects[qm.queues[name]].q.live, c, id)
  }

  /** c holds the first message under the id. */
  ghost predicate FirstHeldIn(qm: Manager, name: string, c: Bytes, id: Bytes)
    requires WellFormed(qm) && name in qm.queues
  {
    var live := qm.objects[qm.queues[name]].q.live;
    exists i :: 0 <= i < |live| && live[i].id == id && live[i].owner == c && forall j | 0 <= j < i :: live[j].id != id
  }

  lemma FirstOrNone(qm: Manager, name: string, id: Bytes)
    requires WellFormed(qm)
    ensures name in qm.queues ==>
      var live := qm.objects[qm.queues[name]].q.live;
      || (forall i | 0 <= i < |live| :: live[i].id != id)
      || exists i :: 0 <= i < |live| && live[i].id == id && forall j | 0 <= j < i :: live[j].id != id
  {
    if name in qm.queues {
      var live := qm.objects[qm.queues[name]].q.live;
      var i := FirstId(live, id);
    }
  }

  /** The errors of the submissions under several keys, in order. */
  function ErrorsOf(routing: map<string, seq<string>>, messages: seq<Messages>): seq<Error>
    decreases |messages|
  {
    if messages == [] then []
    else
      (if [] in messages[0].datas then [EmptyData]
       else if messages[0].key !in routing then [RoutingKeyDoesNotExist]
       else [])
      + ErrorsOf(routing, messages[1..])
  }

  /** Some submission has too few ids for a key under which a queue is found. */
  ghost predicate SomeCrashes(b: Broker, messages: seq<Messages>) {
    exists m :: m in messages && [] !in m.datas && m.key in b.routing && |m.ids| < |m.datas|
                && exists n :: n in b.routing[m.key] && n in b.qm.queues
  }

  lemma {:induction false} ErrorsJoined(b: Broker, messages: seq<Messages>)
    ensures SubmitAll(b, messages).2 <==> !SomeCrashes(b, messages)
    ensures SubmitAll(b, messages).2 ==> SubmitAll(b, messages).1 == ErrorsOf(b.routing, messages)
    decreases |messages|
  {
    if messages != [] {
      var m := messages[0];
      var b1 := BatchAddMessage(b, m.key, m.datas, m.ids).0;
      BatchSubmissionLaw(b, m.key, m.datas, m.ids);
      assert b1.routing == b.routing && b1.qm.queues == b.qm.queues;
      hide BatchAddMessage;
      ErrorsJoined(b1, messages[1..]);
      SomeCrashesIn(b, b1, messages);
    }
  }

  lemma SomeCrashesIn(b: Broker, b1: Broker, messages: seq<Messages>)
    requires messages != [] && b1.routing == b.routing && b1.qm.queues == b.qm.queues
    ensures SomeCrashes(b, messages) <==> SomeCrashes(b, [messages[0]]) || SomeCrashes(b1, messages[1..])
  {
    assert messages == [messages[0]] + messages[1..];
  }

  /** A submission under several keys crashes if one of them does, and else answers with all errors joined. */
  lemma BatchAnswer(s: System, messages: seq<Messages>, out: (System, seq<Result>))
    requires ActMay(s, SubmitBatchCmd(messages), out) && !s.halted
    ensures out.0.halted <==> SomeCrashes(s.broker, messages)
    ensures !out.0.halted ==>
              var errors := ErrorsOf(s.broker.routing, messages);
              out.1 == [Result(if errors == [] then None else Some(Joined(errors)), [], false)]
  {
    ActMayIff(s, SubmitBatchCmd(messages), out);
    ErrorsJoined(s.broker, messages);
    hide ActMay, SubmitAll, SomeCrashes, ErrorsOf;
  }

  /** The machine halts, without an answer, at a crash of the queue manager or the broker and at a batch
      operation that leaves a damaged list, and at nothing else. */
  lemma HaltsIff(s: System, cmd: Command, out: (System, seq<Result>))
    requires ActMay(s, cmd, out) && !s.halted
    ensures out.0.halted ==> out.1 == []
    ensures out.0.halted <==>
            match cmd
            case SubmitBatchCmd(messages) => SomeCrashes(s.broker, messages)
            case DeleteKeyCmd(key, name) => DeleteRoutingKey(s.broker, key, name).1 in {Panic, Damaged}
            case NackCmd(name, id, c) => ManagerNack(s.broker.qm, name, c, id).1 in {Panic, Damaged}
            case BatchAckCmd(name, ids, c) => ManagerBatchAck(s.broker.qm, name, c, ids).1 in {Panic, Damaged}
            case BatchNackCmd(name, ids, c) => ManagerBatchNack(s.broker.qm, name, ids).1 in {Panic, Damaged}
            case _ => false
  {
    hide SomeCrashes, Bind, Pair, WithPair, Fetch, Ack, DropAccount;
    hide ManagerNack, ManagerBatchAck, ManagerBatchNack, DeleteRoutingKey;
    match cmd
    case SubmitBatchCmd(messages) =>
      BatchAnswer(s, messages, out);
      SilentHalt(s, messages, out);
    case SubmitCmd(key, data, id) =>
      ActMayIff(s, cmd, out);
      hide ActMay, DeliverAll;
    case DeleteQueueCmd(name) =>
      var r :| DeleteQueueMay(s.broker, name, r) && out == Reported(s, r.0, r.1, []);
      DeleteQueueLaw(s.broker, name, r);
      hide DeleteQueueMay, Rebound;
    case CreateQueueCmd(key, name, size, retryLimit, hasDLQ) =>
      CreateReports(s.broker.qm, name, size, retryLimit, hasDLQ);
      hide ManagerCreate;
    case _ =>
  }

  lemma SilentHalt(s: System, messages: seq<Messages>, out: (System, seq<Result>))
    requires ActMay(s, SubmitBatchCmd(messages), out) && !s.halted
    ensures out.0.halted ==> out.1 == []
  {
    hide SubmitAllMay;
  }

  // ----- roles and accounts

  /** The operation of the role manager that a command stands for. */
  function RoleOpsOf(s: System, cmd: Command): Option<RbacLaws.RoleOp> {
    match cmd
    case CreateRoleCmd(role) => Some(RbacLaws.Add(role))
    case AssignRoleCmd(roleName, user) => if user in s.accounts then Some(RbacLaws.Assign(user, roleName)) else None
    case UnassignRoleCmd(roleName, user) => if user in s.accounts then Some(RbacLaws.Unassign(user, roleName)) else None
    case _ => None
  }

  /** A permitted command changes the roles as that operation does, and not at all if it stands for none. */
  lemma CommandIsRoleOp(s: System, cmd: Command, out: (System, seq<Result>))
    requires ActMay(s, cmd, out)
    ensures match RoleOpsOf(s, cmd)
      case None => out.0.access == s.access
      case Some(op) => out.0.access == RbacLaws.Step(s.access, op).0
  {
    hide DeleteQueueMay, SubmitMay, SubmitAllMay, CreateQueue, AddRouteKey, DeleteRoutingKey, DropAccount;
    hide ManagerGet, ManagerAck, ManagerNack, ManagerBatchAck, ManagerBatchNack;
  }

  lemma RoleAnswers(s: System, cmd: Command, out: (System, seq<Result>))
    requires ActMay(s, cmd, out)
    ensures match cmd
      case CreateRoleCmd(role) =>
        out.1 == [if role.name in s.access.roles then Bad(OfRoles(Roles.RoleTaken)) else Result(None, [], false)]
      case AssignRoleCmd(roleName, user) =>
        out.1 == [if user !in s.accounts then Bad(NoSuchUser)
                  else if roleName !in s.access.roles then Bad(NoSuchRole) else Result(None, [], false)]
      case UnassignRoleCmd(roleName, user) =>
        out.1 == [if user !in s.accounts then Bad(NoSuchUser)
                  else if roleName !in s.access.roles then Bad(NoSuchRole)
                  else if user !in s.access.users then Bad(OfRoles(Roles.UserMissing))
                  else if forall r | r in s.access.users[user] :: r.name != roleName then Bad(OfRoles(Roles.NotHeld))
                  else Result(None, [], false)]
      case Undecodable => out == (s, [Bad(Decoding)])
      case Unknown => out == (s, [Bad(MissingAction)])
      case _ => true
  {
    if cmd.UnassignRoleCmd? && cmd.user in s.access.users {
      var rs := s.access.users[cmd.user];
      var i := Roles.FirstNamed(rs, cmd.roleName);
      if i < |rs| {
        assert rs[i] in rs;
      }
    }
    hide Roles.FirstNamed, Roles.SwapRemove;
  }

  /** What a permitted command does to the accounts, and answers. */
  lemma AccountLaw(s: System, cmd: Command, out: (System, seq<Result>))
    requires ActMay(s, cmd, out)
    ensures match cmd
      case CreateAccountCmd(user, hashed) =>
        if user in s.accounts then out == (s, [Bad(UserTaken)])
        else if !hashed then out == (s, [Bad(ForeignFailure)])
        else out.1 == [Result(None, [], false)] && multiset(out.0.accounts) == multiset(s.accounts) + multiset{user}
      case ChangePasswordCmd(user, compared, hashed) =>
        if user !in s.accounts then out == (s, [Bad(NoSuchUser)])
        else if compared == None then out == (s, [Bad(ForeignFailure)])
        else if compared == Some(false) then out == (s, [Result(None, [], false)])
        else if !hashed then out == (s, [Bad(ForeignFailure)])
        else out.1 == [Result(None, [], true)] && multiset(out.0.accounts) == multiset(s.accounts)
      case DeleteUserCmd(user, signedOut) =>
        if user !in s.accounts then out == (s, [Bad(NoSuchUser)])
        else if |s.accounts| == 1 then out == (s, [Bad(LastAccount)])
        else if !signedOut then out == (s, [Bad(ForeignFailure)])
        else out.1 == [Result(None, [], false)] && multiset(out.0.accounts) == multiset(s.accounts) - multiset{user}
      case _ => out.0.accounts == s.accounts
  {
    hide DropAccount, DeleteQueueMay, SubmitMay, SubmitAllMay, SubmitAll;
    if cmd.CreateAccountCmd? {
      assert multiset(s.accounts + [cmd.user]) == multiset(s.accounts) + multiset{cmd.user};
    } else if cmd.ChangePasswordCmd? || cmd.DeleteUserCmd? {
      DroppedOne(s.accounts, cmd.user);
    } else {
      hide ActMay;
      OthersKeepAccounts(s, cmd, out);
    }
  }

  lemma DroppedOne(accounts: seq<string>, user: string)
    ensures user in accounts ==> multiset(DropAccount(accounts, user)) == multiset(accounts) - multiset{user}
    ensures user in accounts ==> multiset(DropAccount(accounts, user) + [user]) == multiset(accounts)
  {
    if user in accounts {
      RbacLaws.SwapRemoveTakesOne(accounts, IndexOf(accounts, user));
      assert user in multiset(accounts);
    }
  }

  // ----- entries that lack something

  /** An entry without a user is one of the user without a name; one without a command, or that does not
      decode to its end, is answered with a decoding error and changes nothing. */
  lemma MissingFields(s: System, e: Entry, out: (System, seq<Result>))
    requires EntryMay(s, e, out) && !s.halted && e.Entry?
    ensures e.user == None ==> EntryMay(s, e.(user := Some("")), out)
    ensures !e.whole || e.cmd == None ==> out == (s, [Bad(Decoding)])
  {
    hide ActMay;
    if e.whole && e.cmd == None {
      assert ActMay(s, Undecodable, out);
      RoleAnswers(s, Undecodable, out);
    }
  }

  // ----- whole runs of the machine

  /** Whatever a machine that has not halted has applied, its queues are where some run of the queue manager
      leads, and its roles where some run of the role manager does. */
  lemma {:induction false} MachineRuns(s: System, es: seq<Entry>, out: (System, seq<Result>),
                                       before: seq<RbacLaws.RoleOp>)
    returns (ops: seq<ManagerOp>, roleOps: seq<RbacLaws.RoleOp>)
    requires ApplyMay(s, es, out) && !out.0.halted && s.access == RbacLaws.Run(before)
    ensures out.0.broker.qm == ManagerRun(s.broker.qm, ops)
    ensures out.0.access == RbacLaws.Run(before + roleOps)
    decreases |es|
  {
    hide ApplyMay, EntryMay, ManagerRun, RbacLaws.Run;
    if es == [] {
      NothingToApply(s, out);
      ops, roleOps := [], [];
      RunNone(s.broker.qm);
      assert before + [] == before;
    } else {
      var first, rest := ApplyParts(s, es, out);
      NotHaltedBefore(first.0, es[1..], rest);
      var firstOps, op := EntryRuns(s, es[0], first);
      var soFar := before + if op.Some? then [op.value] else [];
      RoleRunSnoc(before, op);
      var later, laterRoles := MachineRuns(first.0, es[1..], rest, soFar);
      ops, roleOps := firstOps + later, (if op.Some? then [op.value] else []) + laterRoles;
      RunJoin(s.broker.qm, firstOps, later);
      assert soFar + laterRoles == before + roleOps;
    }
  }

  lemma NotHaltedBefore(s: System, es: seq<Entry>, out: (System, seq<Result>))
    requires ApplyMay(s, es, out) && !out.0.halted
    ensures !s.halted
  {
    OneResultEach(s, es, out);
  }

  lemma RoleRunSnoc(before: seq<RbacLaws.RoleOp>, op: Option<RbacLaws.RoleOp>)
    ensures RbacLaws.Run(before + if op.Some? then [op.value] else []) ==
            if op.Some? then RbacLaws.Step(RbacLaws.Run(before), op.value).0 else RbacLaws.Run(before)
  {
    if op.Some? {
      assert (before + [op.value])[..|before|] == before;
    } else {
      assert before + [] == before;
    }
  }

  lemma EntryRuns(s: System, e: Entry, out: (System, seq<Result>))
    returns (ops: seq<ManagerOp>, op: Option<RbacLaws.RoleOp>)
    requires EntryMay(s, e, out) && !out.0.halted
    ensures out.0.broker.qm == ManagerRun(s.broker.qm, ops)
    ensures out.0.access == if op.Some? then RbacLaws.Step(s.access, op.value).0 else s.access
  {
    hide ActMay, Refusal, Needs, ManagerRun, RbacLaws.Step;
    var cmd := CommandOf(e);
    if !s.halted && e.Entry? && ActMay(s, cmd, out) {
      ops, op := OpsOf(s.broker, cmd), RoleOpsOf(s, cmd);
      CommandIsRun(s, cmd, out);
      CommandIsRoleOp(s, cmd, out);
    } else {
      ops, op := [], None;
      RunNone(s.broker.qm);
    }
  }

  /** So a machine that starts with no queues and no roles, and has not halted, keeps every queue's name
      and dead-letter queue in order, and assigns only roles that exist. */
  lemma EveryMachineSane(s: System, es: seq<Entry>, out: (System, seq<Result>))
    requires ApplyMay(s, es, out) && !out.0.halted
    requires s.broker.qm.queues == map[] && s.broker.qm.objects == map[] && s.access == Roles.Access(map[], map[])
    ensures Sane(out.0.broker.qm) && RbacLaws.Consistent(out.0.access)
  {
    assert RbacLaws.Run([]) == s.access && Sane(s.broker.qm);
    var ops, roleOps := MachineRuns(s, es, out, []);
    SaneFrom(s.broker.qm, ops);
    RbacLaws.EveryRunConsistent([] + roleOps);
  }
}
