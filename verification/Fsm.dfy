/** The state machine as an object: every command is decoded into one payload that is used again
    and again, checked by the role manager, and carried out by the broker and its companions. */
module Fsm {
  import opened Types
  import opened QueueModel
  import opened BrokerModel
  import opened BrokerObject
  import opened FsmModel
  import opened FsmLaws
  import Rbac

  class CommandPayload {
    var username: string
    var cmd: Command

    constructor ()
      ensures Blank()
    {
      username, cmd := "", Undecodable;
    }

    predicate Blank()
      reads this
    {
      username == "" && cmd == Undecodable
    }

    method Decode(e: Entry) returns (whole: bool)
      requires e.Entry?
      modifies this
      ensures username == (if e.user.Some? then e.user.value else old(username))
      ensures cmd == (if e.cmd.Some? then e.cmd.value else old(cmd))
      ensures whole == e.whole
    {
      if e.user.Some? {
        username := e.user.value;
      }
      if e.cmd.Some? {
        cmd := e.cmd.value;
      }
      return e.whole;
    }

    method Reset()
      modifies this
      ensures Blank()
    {
      username, cmd := "", Undecodable;
    }
  }

  class SyblineFsm {
    const broker: RoutingBroker
    const rbac: Rbac.RoleManager
    const payload: CommandPayload
    var accounts: seq<string>
    var halted: bool

    constructor (broker: RoutingBroker, rbac: Rbac.RoleManager, accounts: seq<string>)
      ensures this.broker == broker && this.rbac == rbac && fresh(payload) && payload.Blank()
      ensures Value() == System(broker.Value(), rbac.Value(), accounts, false)
    {
      this.broker, this.rbac, this.accounts, halted := broker, rbac, accounts, false;
      payload := new CommandPayload();
    }

    ghost function Value(): System
      reads this, broker, rbac
    {
      System(broker.Value(), rbac.Value(), accounts, halted)
    }

    /** One admin check, as each administrative command makes it. */
    method MayAdmin(code: uint32) returns (refused: Option<Fault>)
      ensures refused == Refusal(rbac.Value(), payload.username, [Roles.Admin(code)])
    {
      var r := rbac.HasAdminPermission(payload.username, code);
      assert [Roles.Admin(code)][1..] == [];
      return if r.NoEntry? then Some(NoEntry) else if !r.granted then Some(Forbidden) else None;
    }

    method May(action: Roles.Action, entity: string) returns (refused: Option<Fault>)
      ensures refused == Refusal(rbac.Value(), payload.username, [Roles.On(action, entity)])
    {
      var r := rbac.HasPermission(payload.username, entity, action);
      assert [Roles.On(action, entity)][1..] == [];
      return if r.NoEntry? then Some(NoEntry) else if !r.granted then Some(Forbidden) else None;
    }

    /** All keys are checked before anything is submitted. */
    method MayAll(messages: seq<Messages>) returns (refused: Option<Fault>)
      ensures refused == Refusal(rbac.Value(), payload.username, BatchNeeds(messages))
    {
      ghost var needs := BatchNeeds(messages);
      for i := 0 to |messages|
        invariant Refusal(rbac.Value(), payload.username, needs) == Refusal(rbac.Value(), payload.username, needs[i..])
      {
        assert needs[i..][1..] == needs[i + 1..];
        var r := rbac.HasPermission(payload.username, messages[i].key, Roles.SubmitBatched);
        if r.NoEntry? {
          return Some(NoEntry);
        }
        if !r.granted {
          return Some(Forbidden);
        }
      }
      return None;
    }

    /** What an operation of the broker or the queue manager reports, as the result of a command. */
    method Report(status: Status, got: seq<MessageBatch>) returns (rs: seq<Result>)
      modifies `halted
      ensures (Value(), rs) == Reported(old(Value()), broker.Value(), status, got)
    {
      match status {
        case Ok => rs := [Result(None, got, false)];
        case Err(e) => rs := [Bad(OfBroker(e))];
        case _ => halted, rs := true, [];
      }
    }

    /** How many nodes the queues have pooled is not followed here; deliveries do not depend on it. */
    static function NoSpares(qm: Manager): map<Handle, nat> {
      map h | h in qm.objects :: 0
    }

    /** Carries out a permitted command on the broker's routing. */
    method OnRouting(cmd: Command) returns (rs: seq<Result>)
      requires cmd.CreateQueueCmd? || cmd.DeleteQueueCmd? || cmd.AddKeyCmd? || cmd.DeleteKeyCmd? || cmd.SubmitCmd?
      modifies this, broker
      ensures ActMay(old(Value()), cmd, (Value(), rs))
    {
      var status;
      match cmd {
        case CreateQueueCmd(key, name, size, retryLimit, hasDLQ) =>
          status := broker.CreateQueue(name, key, size, retryLimit, hasDLQ);
        case DeleteQueueCmd(name) => status := broker.DeleteQueue(name);
        case AddKeyCmd(key, name) => status := broker.AddRouteKey(key, name);
        case DeleteKeyCmd(key, name) => status := broker.DeleteRoutingKey(key, name);
        case SubmitCmd(key, data, id) => status := broker.AddMessage(key, data, id, NoSpares(broker.qm));
      }
      hide CreateQueue, DeleteQueueMay, AddRouteKey, DeleteRoutingKey, AddMessage;
      rs := Report(status, []);
      if !cmd.DeleteQueueCmd? {
        hide ActMay;
        ActMayIff(old(Value()), cmd, (Value(), rs));
      }
    }

    /** Submitting the rest comes to the same as submitting everything from the start. */
    static ghost predicate Continues(b0: Broker, all: seq<Messages>, b: Broker, rest: seq<Messages>,
                                     errors: seq<Error>) {
      && SubmitAll(b0, all).0 == SubmitAll(b, rest).0
      && SubmitAll(b0, all).1 == errors + SubmitAll(b, rest).1
      && SubmitAll(b0, all).2 == SubmitAll(b, rest).2
    }

    /** Carries out a permitted multi-key submission. */
    method SubmitBatch(messages: seq<Messages>) returns (rs: seq<Result>)
      modifies this, broker
      ensures (Value(), rs) == Act(old(Value()), SubmitBatchCmd(messages))
    {
      hide BatchAddMessage;
      var errors: seq<Error> := [];
      assert messages[0..] == messages;
      for i := 0 to |messages|
        invariant accounts == old(accounts) && halted == old(halted)
        invariant Continues(old(broker.Value()), messages, broker.Value(), messages[i..], errors)
      {
        assert messages[i..][1..] == messages[i + 1..];
        var status := broker.BatchAddMessage(messages[i].key, messages[i].datas, messages[i].ids, NoSpares(broker.qm));
        if status == Panic || status == Damaged {
          halted := true;
          return [];
        }
        if status.Err? {
          errors := errors + [status.error];
        }
      }
      assert messages[|messages|..] == [] && errors + [] == errors;
      return [if errors == [] then Good() else Bad(Joined(errors))];
    }

    /** Carries out a permitted command on the queues. */
    method OnQueues(cmd: Command) returns (rs: seq<Result>)
      requires cmd.GetCmd? || cmd.AckCmd? || cmd.NackCmd? || cmd.BatchAckCmd? || cmd.BatchNackCmd?
      modifies this, broker
      ensures (Value(), rs) == Act(old(Value()), cmd)
    {
      hide ManagerGet, ManagerAck, ManagerNack, ManagerBatchAck, ManagerBatchNack;
      var qm, got := broker.qm, [];
      var r := (qm, Ok);
      match cmd {
        case GetCmd(name, amount, c, now) =>
          if |name| == 0 {
            return [Bad(OfBroker(InvalidQueueName))];
          }
          var fetched := ManagerGet(qm, name, amount, c, now);
          r, got := (fetched.0, fetched.1), fetched.2;
        case AckCmd(name, id, c) => r := ManagerAck(qm, name, c, id);
        case NackCmd(name, id, c) => r := ManagerNack(qm, name, c, id);
        case BatchAckCmd(name, ids, c) => r := ManagerBatchAck(qm, name, c, ids);
        case BatchNackCmd(name, ids, c) => r := ManagerBatchNack(qm, name, ids);
      }
      broker.qm := r.0;
      rs := Report(r.1, got);
    }

    /** Removes an account; the last one takes its place. */
    method DeleteUsername(user: string)
      modifies `accounts
      ensures accounts == DropAccount(old(accounts), user)
    {
      var i := IndexFunc(accounts, user);
      if i >= 0 {
        accounts := accounts[i := accounts[|accounts| - 1]];
        accounts := accounts[..|accounts| - 1];
      }
    }

    /** Carries out a permitted command on the accounts. */
    method OnAccounts(cmd: Command) returns (r: Result)
      requires cmd.CreateAccountCmd? || cmd.ChangePasswordCmd? || cmd.DeleteUserCmd?
      modifies `accounts
      ensures (Value(), [r]) == Act(old(Value()), cmd)
    {
      match cmd {
        case CreateAccountCmd(user, hashed) =>
          if user in accounts {
            return Bad(UserTaken);
          }
          if !hashed {
            return Bad(ForeignFailure);
          }
          accounts := accounts + [user];
          return Good();
        case ChangePasswordCmd(user, compared, hashed) =>
          if user !in accounts {
            return Bad(NoSuchUser);
          }
          if compared.None? {
            return Bad(ForeignFailure);
          }
          if !compared.value {
            return Good();
          }
          if !hashed {
            return Bad(ForeignFailure);
          }
          DeleteUsername(user);
          accounts := accounts + [user];
          return Result(None, [], true);
        case DeleteUserCmd(user, signedOut) =>
          if user !in accounts {
            return Bad(NoSuchUser);
          }
          if |accounts| == 1 {
            return Bad(LastAccount);
          }
          if !signedOut {
            return Bad(ForeignFailure);
          }
          DeleteUsername(user);
          return Good();
      }
    }

    /** Carries out a permitted command on the roles. */
    method OnRoles(cmd: Command) returns (r: Result)
      requires cmd.CreateRoleCmd? || cmd.AssignRoleCmd? || cmd.UnassignRoleCmd?
      modifies rbac
      ensures (Value(), [r]) == Act(old(Value()), cmd)
    {
      hide Roles.AddRole, Roles.AssignRole, Roles.UnassignRole;
      if !cmd.CreateRoleCmd? {
        if cmd.user !in accounts {
          return Bad(NoSuchUser);
        }
        var found := rbac.RoleExists(cmd.roleName);
        if !found {
          return Bad(NoSuchRole);
        }
      }
      var outcome;
      match cmd {
        case CreateRoleCmd(role) => outcome := rbac.AddRole(role);
        case AssignRoleCmd(roleName, user) => outcome := rbac.AssignRole(user, roleName);
        case UnassignRoleCmd(roleName, user) => outcome := rbac.UnassignRole(user, roleName);
      }
      return if outcome == Roles.Done then Good() else Bad(OfRoles(outcome));
    }

    /** The check that a command makes before it is carried out. */
    method Check(cmd: Command) returns (refused: Option<Fault>)
      ensures refused == Refusal(rbac.Value(), payload.username, Needs(cmd))
    {
      hide Refusal;
      match cmd {
        case CreateQueueCmd(_, _, _, _, _) => refused := MayAdmin(Roles.ALLOW_CREATE_QUEUE);
        case SubmitCmd(key, _, _) => refused := May(Roles.SubmitMessage, key);
        case SubmitBatchCmd(messages) => refused := MayAll(messages);
        case AddKeyCmd(_, _) => refused := MayAdmin(Roles.ALLOW_ADD_ROUTING_KEY);
        case DeleteKeyCmd(_, _) => refused := MayAdmin(Roles.ALLOW_DELETE_ROUTING_KEY);
        case GetCmd(name, _, _, _) => refused := May(Roles.GetMessages, name);
        case AckCmd(name, _, _) => refused := May(Roles.AckMessage, name);
        case NackCmd(name, _, _) => refused := May(Roles.AckMessage, name);
        case DeleteQueueCmd(_) => refused := MayAdmin(Roles.ALLOW_DELETE_QUEUE);
        case CreateAccountCmd(_, _) => refused := MayAdmin(Roles.ALLOW_CREATE_USER);
        case ChangePasswordCmd(_, _, _) => refused := MayAdmin(Roles.ALLOW_CHANGE_PASSWORD);
        case DeleteUserCmd(_, _) => refused := MayAdmin(Roles.ALLOW_DELETE_USER);
        case BatchAckCmd(name, _, _) => refused := May(Roles.AckBatch, name);
        case BatchNackCmd(name, _, _) => refused := May(Roles.AckBatch, name);
        case CreateRoleCmd(_) => refused := MayAdmin(Roles.ALLOW_CREATE_ROLE);
        case AssignRoleCmd(_, _) => refused := MayAdmin(Roles.ALLOW_ASSIGN_ROLE);
        case UnassignRoleCmd(_, _) => refused := MayAdmin(Roles.ALLOW_UNASSIGN_ROLE);
        case _ => NoNeeds(rbac.Value(), payload.username); refused := None;
      }
    }

    static lemma NoNeeds(access: Roles.Access, user: string)
      ensures Refusal(access, user, []) == None
    {
    }

    /** Checks the command and carries it out. */
    method Dispatch(cmd: Command) returns (rs: seq<Result>)
      modifies this, broker, rbac
      ensures StepMay(old(Value()), payload.username, cmd, (Value(), rs))
    {
      hide Refusal, Needs, DeleteQueueMay;
      var refused := Check(cmd);
      if refused.Some? {
        return [Bad(refused.value)];
      }
      if cmd.GetCmd? || cmd.AckCmd? || cmd.NackCmd? || cmd.BatchAckCmd? || cmd.BatchNackCmd? {
        rs := OnQueues(cmd);
      } else if cmd.SubmitBatchCmd? {
        rs := SubmitBatch(cmd.messages);
      } else if cmd.CreateAccountCmd? || cmd.ChangePasswordCmd? || cmd.DeleteUserCmd? {
        var r := OnAccounts(cmd);
        rs := [r];
      } else if cmd.CreateRoleCmd? || cmd.AssignRoleCmd? || cmd.UnassignRoleCmd? {
        var r := OnRoles(cmd);
        rs := [r];
      } else if cmd.Undecodable? {
        rs := [Bad(Decoding)];
      } else if cmd.Unknown? {
        rs := [Bad(MissingAction)];
      } else {
        rs := OnRouting(cmd);
        return;
      }
      hide ActMay;
      ActMayIff(old(Value()), cmd, (Value(), rs));
    }

    /** Applies one encoded command. The payload is blank before and afterwards, so that no field
        of an earlier command stands in for one that is missing here. */
    method ApplySingle(e: Entry) returns (rs: seq<Result>)
      requires e.Entry? && payload.Blank() && !halted
      modifies this, broker, rbac, payload
      ensures payload.Blank()
      ensures EntryMay(old(Value()), e, (Value(), rs))
    {
      hide StepMay;
      var whole := payload.Decode(e);
      if whole {
        rs := Dispatch(payload.cmd);
      } else {
        rs := [Bad(Decoding)];
      }
      payload.Reset();
    }

    /** Applies the entries of a log in order; none after one at which the machine halts. */
    method Apply(log: Log) returns (rs: seq<Result>)
      requires payload.Blank()
      modifies this, broker, rbac, payload
      ensures payload.Blank()
      ensures ApplyMay(old(Value()), Entries(log), (Value(), rs))
    {
      hide EntryMay;
      rs := [];
      var data := if log.Data? then log.entries else [];
      for i := 0 to |data|
        invariant payload.Blank()
        invariant ApplyMay(old(Value()), data[..i], (Value(), rs))
      {
        ghost var s := Value();
        var results := [];
        if !halted && data[i].Entry? {
          results := ApplySingle(data[i]);
        } else {
          Skipped(Value(), data[i]);
        }
        ApplyOneMore(old(Value()), data[..i], data[i], (s, rs), (Value(), results));
        Longer(data, i);
        rs := rs + results;
      }
      assert data[..|data|] == data;
    }

    static lemma Longer(es: seq<Entry>, i: nat)
      requires i < |es|
      ensures es[..i] + [es[i]] == es[..i + 1]
    {
    }

    static lemma Skipped(s: System, e: Entry)
      requires s.halted || e.Empty?
      ensures EntryMay(s, e, (s, []))
    {
    }
  }
}
