/** Which commands whom the machine refuses: stated by the fields of the policy documents and the entities
    that a command names, and by what the roles of its sender say of them. */
module Guards {
  import opened Types
  import opened BrokerModel
  import opened FsmModel
  import PermissionText
  import RbacLaws

  // ----- checking in order

  ghost predicate AllGranted(access: Roles.Access, user: string, needs: seq<Roles.Query>) {
    forall q :: q in needs ==> Roles.Checked(access, user, q) == Roles.Answer(true)
  }

  lemma {:induction false} RefusedIff(access: Roles.Access, user: string, needs: seq<Roles.Query>)
    ensures Refusal(access, user, needs).None? <==> AllGranted(access, user, needs)
    ensures Refusal(access, user, needs).Some? ==>
              Refusal(access, user, needs).value == if user in access.users then Forbidden else NoEntry
  {
    hide Roles.Decide;
    if needs != [] {
      RefusedIff(access, user, needs[1..]);
      assert needs == [needs[0]] + needs[1..];
      forall q ensures q in needs <==> q == needs[0] || q in needs[1..] {
      }
    }
  }

  // ----- what a command needs

  /** The field of a policy document that speaks of the command. */
  function FieldOf(cmd: Command): Option<string> {
    match cmd
    case CreateQueueCmd(_, _, _, _, _) => Some("CreateQueue")
    case DeleteQueueCmd(_) => Some("DeleteQueue")
    case SubmitCmd(_, _, _) => Some("SubmitMessage")
    case SubmitBatchCmd(_) => Some("SubmitBatchedMessages")
    case AddKeyCmd(_, _) => Some("AddRoutingKey")
    case DeleteKeyCmd(_, _) => Some("DeleteRoutingKey")
    case GetCmd(_, _, _, _) => Some("GetMessages")
    case AckCmd(_, _, _) => Some("Ack")
    case NackCmd(_, _, _) => Some("Ack")
    case BatchAckCmd(_, _, _) => Some("BatchAck")
    case BatchNackCmd(_, _, _) => Some("BatchAck")
    case CreateAccountCmd(_, _) => Some("CreateUser")
    case ChangePasswordCmd(_, _, _) => Some("ChangePassword")
    case DeleteUserCmd(_, _) => Some("DeleteUser")
    case CreateRoleCmd(_) => Some("CreateRole")
    case AssignRoleCmd(_, _) => Some("AssignRole")
    case UnassignRoleCmd(_, _) => Some("UnassignRole")
    case Undecodable => None
    case Unknown => None
  }

  /** The routing keys or the queue that the command names as what it acts on. */
  predicate Names(cmd: Command, entity: string) {
    match cmd
    case SubmitCmd(key, _, _) => entity == key
    case SubmitBatchCmd(messages) => exists m :: m in messages && m.key == entity
    case GetCmd(name, _, _, _) => entity == name
    case AckCmd(name, _, _) => entity == name
    case NackCmd(name, _, _) => entity == name
    case BatchAckCmd(name, _, _) => entity == name
    case BatchNackCmd(name, _, _) => entity == name
    case _ => false
  }

  /** The sender's roles allow the command: on each entity that it names, or as an administrative action. */
  ghost predicate Permitted(access: Roles.Access, user: string, cmd: Command) {
    match FieldOf(cmd)
    case None => true
    case Some(field) =>
      match Roles.EntityAction(field)
      case Some(action) =>
        forall entity | Names(cmd, entity) ::
          Roles.Checked(access, user, Roles.On(action, entity)) == Roles.Answer(true)
      case None =>
        && Roles.AdminCode(field).Some?
        && Roles.Checked(access, user, Roles.Admin(Roles.AdminCode(field).value)) == Roles.Answer(true)
  }

  /** The sequence of checks that a command makes comes to that. */
  lemma NeedsAre(access: Roles.Access, user: string, cmd: Command)
    ensures AllGranted(access, user, Needs(cmd)) <==> Permitted(access, user, cmd)
  {
    hide Roles.Checked;
    if cmd.SubmitBatchCmd? {
      BatchNeedsAre(access, user, cmd.messages);
    }
  }

  lemma BatchNeedsAre(access: Roles.Access, user: string, messages: seq<Messages>)
    ensures AllGranted(access, user, BatchNeeds(messages)) <==>
            forall m | m in messages ::
              Roles.Checked(access, user, Roles.On(Roles.SubmitBatched, m.key)) == Roles.Answer(true)
  {
    hide Roles.Checked;
    var needs := BatchNeeds(messages);
    assert forall i | 0 <= i < |messages| :: needs[i] == Roles.On(Roles.SubmitBatched, messages[i].key);
    forall m | m in messages && AllGranted(access, user, needs)
      ensures Roles.Checked(access, user, Roles.On(Roles.SubmitBatched, m.key)) == Roles.Answer(true)
    {
      var i :| 0 <= i < |messages| && messages[i] == m;
      assert needs[i] in needs;
    }
  }

  // ----- refusals

  /** A command that the sender's roles do not allow is answered with a refusal and changes nothing: a user
      without an entry is told so, any other that it is forbidden; a submission under several keys is
      dropped whole for a single one. A permitted command is carried out. */
  lemma RefusedUnlessPermitted(s: System, e: Entry, out: (System, seq<Result>))
    requires EntryMay(s, e, out) && !s.halted && e.Entry? && e.whole
    ensures if Permitted(s.access, UserOf(e), CommandOf(e)) then ActMay(s, CommandOf(e), out)
            else out == (s, [Bad(if UserOf(e) in s.access.users then Forbidden else NoEntry)])
  {
    hide AllGranted, Needs, Refusal, Permitted, ActMay;
    RefusedIff(s.access, UserOf(e), Needs(CommandOf(e)));
    NeedsAre(s.access, UserOf(e), CommandOf(e));
  }

  /** No permitted command reports a refusal, so that a refusal is reported for the others alone. */
  lemma RefusedChangesNothing(s: System, e: Entry, out: (System, seq<Result>))
    requires EntryMay(s, e, out) && !s.halted && e.Entry? && e.whole
    ensures !Permitted(s.access, UserOf(e), CommandOf(e)) <==> out.1 == [Bad(NoEntry)] || out.1 == [Bad(Forbidden)]
    ensures !Permitted(s.access, UserOf(e), CommandOf(e)) ==> out.0 == s
  {
    hide Permitted, EntryMay, ActMay;
    RefusedUnlessPermitted(s, e, out);
    if ActMay(s, CommandOf(e), out) {
      NoRefusal(s, CommandOf(e), out);
    }
  }

  lemma NoRefusal(s: System, cmd: Command, out: (System, seq<Result>))
    requires ActMay(s, cmd, out)
    ensures out.1 != [Bad(NoEntry)] && out.1 != [Bad(Forbidden)]
  {
    hide DeleteQueueMay, Routing.SubmitMay, SubmitAllMay, CreateQueue, AddRouteKey, DeleteRoutingKey, DropAccount;
    hide ManagerGet, ManagerAck, ManagerNack, ManagerBatchAck, ManagerBatchNack;
  }

  /** Commands each of which would be refused now leave everything as it is, however many they are. */
  lemma {:induction false} RefusedRunChangesNothing(s: System, es: seq<Entry>, out: (System, seq<Result>))
    requires ApplyMay(s, es, out)
    requires forall e :: e in es && e.Entry? ==> !Permitted(s.access, UserOf(e), CommandOf(e))
    ensures out.0 == s
    decreases |es|
  {
    hide Permitted;
    if es != [] {
      var first: (System, seq<Result>), rest: (System, seq<Result>) :|
        EntryMay(s, es[0], first) && ApplyMay(first.0, es[1..], rest) && out == (rest.0, first.1 + rest.1);
      if !s.halted && es[0].Entry? && es[0].whole {
        RefusedChangesNothing(s, es[0], first);
      }
      RefusedRunChangesNothing(first.0, es[1..], rest);
    }
  }

  // ----- policies

  /** The policy document, whose texts were printed from these entries, says this of the command: of an
      administrative action what its text says; of the others what the last wildcard entry says, or else
      the last entry for the entity. */
  ghost predicate Denies(fields: map<string, Roles.Json>, cmd: Command) {
    && FieldOf(cmd).Some? && FieldOf(cmd).value in fields
    && var field := FieldOf(cmd).value;
       if Roles.AdminCode(field).Some? then fields[field] == Roles.Text("deny")
       else
         exists es: seq<PermissionText.Entry>, entity :: DeniesOn(fields, field, es, entity) && Names(cmd, entity)
  }

  ghost predicate DeniesOn(fields: map<string, Roles.Json>, field: string, es: seq<PermissionText.Entry>,
                           entity: string)
    requires field in fields
  {
    && es != [] && (forall i | 0 <= i < |es| :: PermissionText.ValidEntry(es[i]))
    && fields[field] == Roles.Text(PermissionText.PrintAll(es))
    && (if RbacLaws.LastEntry(es, "*") != Roles.Silent then RbacLaws.LastEntry(es, "*")
        else RbacLaws.LastEntry(es, entity)) == Roles.Deny
  }

  lemma DeniedQuery(access: Roles.Access, user: string, role: Roles.Role, q: Roles.Query)
    requires user in access.users && role in access.users[user] && Roles.Says(role, q) == Roles.Deny
    ensures Roles.Checked(access, user, q) != Roles.Answer(true)
  {
  }

  lemma FieldIs(cmd: Command)
    requires FieldOf(cmd).Some?
    ensures Roles.AdminCode(FieldOf(cmd).value).Some? <==> Roles.EntityAction(FieldOf(cmd).value).None?
  {
  }

  /** A user who holds a role whose policy document denies a command cannot have it carried out, whatever
      other roles the user holds: it is refused and changes nothing. */
  lemma DenyingPolicyBinds(s: System, e: Entry, out: (System, seq<Result>), role: Roles.Role,
                           fields: map<string, Roles.Json>)
    requires EntryMay(s, e, out) && !s.halted && e.Entry? && e.whole
    requires UserOf(e) in s.access.users && role in s.access.users[UserOf(e)]
    requires Roles.CompiledFrom(role, fields, fields.Keys) && forall f :: f in fields ==> Roles.ValidField(f, fields[f])
    requires Denies(fields, CommandOf(e))
    ensures out == (s, [Bad(Forbidden)])
  {
    hide EntryMay, Roles.CompiledFrom, Roles.ValidField, Roles.Checked, Roles.AdminCode, Roles.EntityAction, FieldOf;
    var cmd, user := CommandOf(e), UserOf(e);
    var field := FieldOf(cmd).value;
    FieldIs(cmd);
    RefusedUnlessPermitted(s, e, out);
    if Roles.AdminCode(field).Some? {
      RbacLaws.AdminPolicyMeaning(role, fields, field);
      DeniedQuery(s.access, user, role, Roles.Admin(Roles.AdminCode(field).value));
    } else {
      var es: seq<PermissionText.Entry>, entity :| DeniesOn(fields, field, es, entity) && Names(cmd, entity);
      RbacLaws.EntityPolicyMeaning(role, fields, field, es, entity);
      DeniedQuery(s.access, user, role, Roles.On(Roles.EntityAction(field).value, entity));
    }
  }

  /** For a user with a single role an administrative command is carried out exactly if the policy document
      of that role says "allow" of it. */
  lemma SolePolicyDecides(s: System, e: Entry, out: (System, seq<Result>), role: Roles.Role,
                          fields: map<string, Roles.Json>)
    requires EntryMay(s, e, out) && !s.halted && e.Entry? && e.whole
    requires UserOf(e) in s.access.users && s.access.users[UserOf(e)] == [role]
    requires Roles.CompiledFrom(role, fields, fields.Keys) && forall f :: f in fields ==> Roles.ValidField(f, fields[f])
    requires FieldOf(CommandOf(e)).Some? && Roles.AdminCode(FieldOf(CommandOf(e)).value).Some?
    ensures var field := FieldOf(CommandOf(e)).value;
      if field in fields && fields[field] == Roles.Text("allow") then ActMay(s, CommandOf(e), out)
      else out == (s, [Bad(Forbidden)])
  {
    hide EntryMay, ActMay, Roles.CompiledFrom, Roles.AdminCode, Roles.EntityAction, FieldOf, Roles.Says;
    var field := FieldOf(CommandOf(e)).value;
    FieldIs(CommandOf(e));
    RefusedUnlessPermitted(s, e, out);
    RbacLaws.AdminPolicyMeaning(role, fields, field);
    RbacLaws.SoleRoleDecides(role, Roles.Admin(Roles.AdminCode(field).value));
  }
}
