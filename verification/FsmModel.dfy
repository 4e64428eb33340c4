/** The replicated state machine as values: decoded commands over the broker, the roles and the accounts. */
module FsmModel {
  import opened Types
  import opened QueueModel
  import opened BrokerModel
  import opened Routing
  import Roles = AccessModel

  /** The accounts are usernames only. The machine halts when a command crashes the process or
      leaves a damaged list behind. */
  datatype System = System(broker: Broker, access: Roles.Access, accounts: seq<string>, halted: bool)

  datatype Messages = Messages(key: string, datas: seq<Bytes>, ids: seq<Bytes>)

  /** Decoded commands. What the password, random and session functions answer is part of them. */
  datatype Command =
    | CreateQueueCmd(key: string, name: string, size: uint32, retryLimit: uint32, hasDLQ: bool)
    | DeleteQueueCmd(name: string)
    | SubmitCmd(key: string, data: Bytes, id: Bytes)
    | SubmitBatchCmd(messages: seq<Messages>)
    | AddKeyCmd(key: string, name: string)
    | DeleteKeyCmd(key: string, name: string)
    | GetCmd(name: string, amount: uint32, c: Bytes, now: int64)
    | AckCmd(name: string, id: Bytes, c: Bytes)
    | NackCmd(name: string, id: Bytes, c: Bytes)
    | BatchAckCmd(name: string, ids: seq<Bytes>, c: Bytes)
    | BatchNackCmd(name: string, ids: seq<Bytes>, c: Bytes)
    | CreateAccountCmd(user: string, hashed: bool)
    | ChangePasswordCmd(user: string, compared: Option<bool>, hashed: bool)
    | DeleteUserCmd(user: string, signedOut: bool)
    | CreateRoleCmd(role: Roles.Role)
    | AssignRoleCmd(roleName: string, user: string)
    | UnassignRoleCmd(roleName: string, user: string)
    | Undecodable
    | Unknown

  datatype Fault =
    | Decoding | NoEntry | Forbidden | MissingAction
    | OfBroker(error: Error) | Joined(errors: seq<Error>) | OfRoles(outcome: Roles.Outcome)
    | NoSuchUser | NoSuchRole | UserTaken | LastAccount | ForeignFailure

  datatype Result = Result(fault: Option<Fault>, messages: seq<MessageBatch>, changed: bool)

  function Good(): Result {
    Result(None, [], false)
  }

  function Bad(f: Fault): Result {
    Result(Some(f), [], false)
  }

  // ----- permissions

  /** What the sender of a command must be permitted, in the order of checking. */
  function Needs(cmd: Command): seq<Roles.Query> {
    match cmd
    case CreateQueueCmd(_, _, _, _, _) => [Roles.Admin(Roles.ALLOW_CREATE_QUEUE)]
    case DeleteQueueCmd(_) => [Roles.Admin(Roles.ALLOW_DELETE_QUEUE)]
    case SubmitCmd(key, _, _) => [Roles.On(Roles.SubmitMessage, key)]
    case SubmitBatchCmd(messages) => BatchNeeds(messages)
    case AddKeyCmd(_, _) => [Roles.Admin(Roles.ALLOW_ADD_ROUTING_KEY)]
    case DeleteKeyCmd(_, _) => [Roles.Admin(Roles.ALLOW_DELETE_ROUTING_KEY)]
    case GetCmd(name, _, _, _) => [Roles.On(Roles.GetMessages, name)]
    case AckCmd(name, _, _) => [Roles.On(Roles.AckMessage, name)]
    case NackCmd(name, _, _) => [Roles.On(Roles.AckMessage, name)]
    case BatchAckCmd(name, _, _) => [Roles.On(Roles.AckBatch, name)]
    case BatchNackCmd(name, _, _) => [Roles.On(Roles.AckBatch, name)]
    case CreateAccountCmd(_, _) => [Roles.Admin(Roles.ALLOW_CREATE_USER)]
    case ChangePasswordCmd(_, _, _) => [Roles.Admin(Roles.ALLOW_CHANGE_PASSWORD)]
    case DeleteUserCmd(_, _) => [Roles.Admin(Roles.ALLOW_DELETE_USER)]
    case CreateRoleCmd(_) => [Roles.Admin(Roles.ALLOW_CREATE_ROLE)]
    case AssignRoleCmd(_, _) => [Roles.Admin(Roles.ALLOW_ASSIGN_ROLE)]
    case UnassignRoleCmd(_, _) => [Roles.Admin(Roles.ALLOW_UNASSIGN_ROLE)]
    case Undecodable => []
    case Unknown => []
  }

  function BatchNeeds(messages: seq<Messages>): (r: seq<Roles.Query>)
    ensures |r| == |messages|
    ensures forall i | 0 <= i < |messages| :: r[i] == Roles.On(Roles.SubmitBatched, messages[i].key)
  {
    seq(|messages|, i requires 0 <= i < |messages| => Roles.On(Roles.SubmitBatched, messages[i].key))
  }

  /** The first need that is not granted, as the fault it is reported with. */
  function Refusal(access: Roles.Access, user: string, needs: seq<Roles.Query>): Option<Fault> {
    if needs == [] then None
    else
      match Roles.Checked(access, user, needs[0])
      case NoEntry => Some(NoEntry)
      case Answer(granted) => if granted then Refusal(access, user, needs[1..]) else Some(Forbidden)
  }

  // ----- accounts

  function DropAccount(accounts: seq<string>, user: string): seq<string> {
    var i := IndexOf(accounts, user);
    if i < |accounts| then Roles.SwapRemove(accounts, i) else accounts
  }

  // ----- effects

  function Reported(s: System, b: Broker, status: Status, got: seq<MessageBatch>): (System, seq<Result>) {
    match status
    case Ok => (s.(broker := b), [Result(None, got, false)])
    case Err(e) => (s.(broker := b), [Bad(OfBroker(e))])
    case _ => (s.(broker := b, halted := true), [])
  }

  function Managed(s: System, r: (Manager, Status)): (System, seq<Result>) {
    Reported(s, s.broker.(qm := r.0), r.1, [])
  }

  function Ruled(s: System, r: (Roles.Access, Roles.Outcome)): (System, seq<Result>) {
    (s.(access := r.0), [if r.1 == Roles.Done then Good() else Bad(OfRoles(r.1))])
  }

  /** One submission per routing key, in order; errors are collected, a crash ends it. */
  function SubmitAll(b: Broker, messages: seq<Messages>): (Broker, seq<Error>, bool)
    decreases |messages|
  {
    if messages == [] then (b, [], true)
    else
      var first := BatchAddMessage(b, messages[0].key, messages[0].datas, messages[0].ids);
      Then(first, SubmitAll(first.0, messages[1..]))
  }

  function Then(first: (Broker, Status), rest: (Broker, seq<Error>, bool)): (Broker, seq<Error>, bool) {
    match first.1
    case Ok => rest
    case Err(e) => (rest.0, [e] + rest.1, rest.2)
    case _ => (first.0, [], false)
  }

  function Submitted(s: System, r: (Broker, seq<Error>, bool)): (System, seq<Result>) {
    if !r.2 then (s.(broker := r.0, halted := true), [])
    else (s.(broker := r.0), [if r.1 == [] then Good() else Bad(Joined(r.1))])
  }

  /** What a permitted command does, other than deleting a queue, when goroutines run one after the other. */
  function Act(s: System, cmd: Command): (System, seq<Result>)
    requires !cmd.DeleteQueueCmd?
  {
    match cmd
    case CreateQueueCmd(key, name, size, retryLimit, hasDLQ) =>
      var (b, status) := CreateQueue(s.broker, name, key, size, retryLimit, hasDLQ);
      Reported(s, b, status, [])
    case SubmitCmd(key, data, id) =>
      var (b, status) := AddMessage(s.broker, key, data, id);
      Reported(s, b, status, [])
    case SubmitBatchCmd(messages) =>
      Submitted(s, SubmitAll(s.broker, messages))
    case AddKeyCmd(key, name) =>
      var (b, status) := AddRouteKey(s.broker, key, name);
      Reported(s, b, status, [])
    case DeleteKeyCmd(key, name) =>
      var (b, status) := DeleteRoutingKey(s.broker, key, name);
      Reported(s, b, status, [])
    case GetCmd(name, amount, c, now) =>
      if name == [] then (s, [Bad(OfBroker(InvalidQueueName))])
      else
        var (qm, status, got) := ManagerGet(s.broker.qm, name, amount, c, now);
        Reported(s, s.broker.(qm := qm), status, got)
    case AckCmd(name, id, c) => Managed(s, ManagerAck(s.broker.qm, name, c, id))
    case NackCmd(name, id, c) => Managed(s, ManagerNack(s.broker.qm, name, c, id))
    case BatchAckCmd(name, ids, c) => Managed(s, ManagerBatchAck(s.broker.qm, name, c, ids))
    case BatchNackCmd(name, ids, c) => Managed(s, ManagerBatchNack(s.broker.qm, name, ids))
    case CreateAccountCmd(user, hashed) =>
      if user in s.accounts then (s, [Bad(UserTaken)])
      else if !hashed then (s, [Bad(ForeignFailure)])
      else (s.(accounts := s.accounts + [user]), [Good()])
    case ChangePasswordCmd(user, compared, hashed) =>
      if user !in s.accounts then (s, [Bad(NoSuchUser)])
      else if compared == None then (s, [Bad(ForeignFailure)])
      else if !compared.value then (s, [Good()])
      else if !hashed then (s, [Bad(ForeignFailure)])
      else (s.(accounts := DropAccount(s.accounts, user) + [user]), [Result(None, [], true)])
    case DeleteUserCmd(user, signedOut) =>
      if user !in s.accounts then (s, [Bad(NoSuchUser)])
      else if |s.accounts| == 1 then (s, [Bad(LastAccount)])
      else if !signedOut then (s, [Bad(ForeignFailure)])
      else (s.(accounts := DropAccount(s.accounts, user)), [Good()])
    case CreateRoleCmd(role) => Ruled(s, Roles.AddRole(s.access, role))
    case AssignRoleCmd(roleName, user) =>
      if user !in s.accounts then (s, [Bad(NoSuchUser)])
      else if roleName !in s.access.roles then (s, [Bad(NoSuchRole)])
      else Ruled(s, Roles.AssignRole(s.access, user, roleName))
    case UnassignRoleCmd(roleName, user) =>
      if user !in s.accounts then (s, [Bad(NoSuchUser)])
      else if roleName !in s.access.roles then (s, [Bad(NoSuchRole)])
      else Ruled(s, Roles.UnassignRole(s.access, user, roleName))
    case Undecodable => (s, [Bad(Decoding)])
    case Unknown => (s, [Bad(MissingAction)])
  }

  /** Some interleavings of the delivering goroutines make a submission under several keys end like this. */
  ghost predicate SubmitAllMay(b: Broker, messages: seq<Messages>, r: (Broker, seq<Error>, bool))
    decreases |messages|
  {
    if messages == [] then r == (b, [], true)
    else
      exists first: (Broker, Status), rest: (Broker, seq<Error>, bool) ::
        && BatchSubmitMay(b, messages[0].key, messages[0].datas, messages[0].ids, first)
        && SubmitAllMay(first.0, messages[1..], rest)
        && r == Then(first, rest)
  }

  /** Some order of the walk over the routing map, or some interleaving of goroutines, makes a
      permitted command end like this. */
  ghost predicate ActMay(s: System, cmd: Command, out: (System, seq<Result>)) {
    match cmd
    case DeleteQueueCmd(name) =>
      exists r :: DeleteQueueMay(s.broker, name, r) && out == Reported(s, r.0, r.1, [])
    case SubmitCmd(key, data, id) =>
      exists r :: SubmitMay(s.broker, key, data, id, r) && out == Reported(s, r.0, r.1, [])
    case SubmitBatchCmd(messages) =>
      exists r :: SubmitAllMay(s.broker, messages, r) && out == Submitted(s, r)
    case _ => out == Act(s, cmd)
  }

  lemma {:induction false} SubmitAllMayIff(b: Broker, messages: seq<Messages>, r: (Broker, seq<Error>, bool))
    ensures SubmitAllMay(b, messages, r) <==> r == SubmitAll(b, messages)
    decreases |messages|
  {
    hide BatchSubmitMay, BatchAddMessage, Then;
    if messages != [] {
      var m, later := messages[0], messages[1..];
      var first := BatchAddMessage(b, m.key, m.datas, m.ids);
      BatchSubmissionDeterministic(b, m.key, m.datas, m.ids, first);
      SubmitAllMayIff(first.0, later, SubmitAll(first.0, later));
      if SubmitAllMay(b, messages, r) {
        var first': (Broker, Status), rest: (Broker, seq<Error>, bool) :|
          && BatchSubmitMay(b, m.key, m.datas, m.ids, first')
          && SubmitAllMay(first'.0, later, rest)
          && r == Then(first', rest);
        BatchSubmissionDeterministic(b, m.key, m.datas, m.ids, first');
        SubmitAllMayIff(first.0, later, rest);
      }
    }
  }

  /** Every command but the deletion of a queue has one outcome, however goroutines interleave. */
  lemma ActMayIff(s: System, cmd: Command, out: (System, seq<Result>))
    requires !cmd.DeleteQueueCmd?
    ensures ActMay(s, cmd, out) <==> out == Act(s, cmd)
  {
    hide SubmitMay, SubmitAllMay, SubmitAll, AddMessage;
    match cmd
    case SubmitCmd(key, data, id) =>
      forall r ensures SubmitMay(s.broker, key, data, id, r) <==> r == AddMessage(s.broker, key, data, id) {
        SubmissionDeterministic(s.broker, key, data, id, r);
      }
    case SubmitBatchCmd(messages) =>
      forall r ensures SubmitAllMay(s.broker, messages, r) <==> r == SubmitAll(s.broker, messages) {
        SubmitAllMayIff(s.broker, messages, r);
      }
    case _ =>
  }

  /** One command of a user. */
  ghost predicate StepMay(s: System, user: string, cmd: Command, out: (System, seq<Result>)) {
    match Refusal(s.access, user, Needs(cmd))
    case Some(f) => out == (s, [Bad(f)])
    case None => ActMay(s, cmd, out)
  }

  // ----- log entries

  /** One encoded command: the fields that it has, and whether it decodes to its end. Fields that
      it lacks are not written. */
  datatype Entry = Empty | Entry(user: Option<string>, cmd: Option<Command>, whole: bool)

  /** A log of the consensus layer itself or without data, one that holds no list, or a list of entries. */
  datatype Log = Internal | Unreadable | Data(entries: seq<Entry>)

  /** What decoding an entry into a blank payload leaves in it; the blank operation is to create
      a queue, from data that do not decode. */
  function UserOf(e: Entry): string {
    if e.Entry? && e.user.Some? then e.user.value else ""
  }

  function CommandOf(e: Entry): Command {
    if e.Entry? && e.cmd.Some? then e.cmd.value else Undecodable
  }

  ghost predicate EntryMay(s: System, e: Entry, out: (System, seq<Result>)) {
    if s.halted || e.Empty? then out == (s, [])
    else if !e.whole then out == (s, [Bad(Decoding)])
    else StepMay(s, UserOf(e), CommandOf(e), out)
  }

  /** The entries of a log, one after the other, with the results of all. */
  ghost predicate ApplyMay(s: System, es: seq<Entry>, out: (System, seq<Result>))
    decreases |es|
  {
    if es == [] then out == (s, [])
    else
      exists first: (System, seq<Result>), rest: (System, seq<Result>) ::
        EntryMay(s, es[0], first) && ApplyMay(first.0, es[1..], rest) && out == (rest.0, first.1 + rest.1)
  }

  function Entries(log: Log): seq<Entry> {
    if log.Data? then log.entries else []
  }

  /** The logs of a run, one after the other. */
  ghost predicate RunMay(s: System, logs: seq<Log>, out: (System, seq<Result>))
    decreases |logs|
  {
    if logs == [] then out == (s, [])
    else
      exists first: (System, seq<Result>), rest: (System, seq<Result>) ::
        ApplyMay(s, Entries(logs[0]), first) && RunMay(first.0, logs[1..], rest) && out == (rest.0, first.1 + rest.1)
  }
}
