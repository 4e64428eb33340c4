/** The role manager: policies are compiled field by field, and the checks are loops with early exits. */
module Rbac {
  import opened Types
  import opened PermissionText
  import opened AccessModel

  method ParsePermissions(text: string) returns (r: Option<map<string, bool>>)
    ensures r == Parse(text)
  {
    var perms := Split(text, ',');
    var known: map<string, bool> := map[];
    for i := 0 to |perms|
      invariant ParseFrom(perms, map[]) == ParseFrom(perms[i..], known)
    {
      var parts := Split(perms[i], ':');
      assert perms[i..][1..] == perms[i + 1..];
      if |parts| != 2 || |parts[1]| == 0 {
        return None;
      }
      if parts[0] == "allow" {
        known := known[parts[1] := true];
      } else if parts[0] != "deny" {
        return None;
      } else {
        known := known[parts[1] := false];
      }
    }
    return Some(known);
  }

  method ParseAdminPermissions(text: string) returns (r: Option<bool>)
    ensures r == if text == "allow" then Some(true) else if text == "deny" then Some(false) else None
  {
    if text == "allow" {
      return Some(true);
    }
    if text == "deny" {
      return Some(false);
    }
    return None;
  }

  function WithTable(role: Role, action: Action, t: map<string, bool>): Role {
    match action
    case GetMessages => role.(getMessages := t)
    case SubmitMessage => role.(submitMessage := t)
    case SubmitBatched => role.(submitBatched := t)
    case AckMessage => role.(ack := t)
    case AckBatch => role.(batchAck := t)
  }

  lemma CompiledEntity(role: Role, fields: map<string, Json>, seen: set<string>, field: string, t: map<string, bool>)
    requires seen <= fields.Keys && field in fields && field !in seen && CompiledFrom(role, fields, seen)
    requires EntityAction(field).Some? && fields[field].Text? && Parse(fields[field].text) == Some(t)
    ensures CompiledFrom(WithTable(role, EntityAction(field).value, t), fields, seen + {field})
  {
    hide Parse, EntityAction, AdminCode, Emits, TableFrom;
    EntityField(field);
    TableKept(role.getMessages, "GetMessages", fields, seen, field);
    TableKept(role.submitMessage, "SubmitMessage", fields, seen, field);
    TableKept(role.submitBatched, "SubmitBatchedMessages", fields, seen, field);
    TableKept(role.ack, "Ack", fields, seen, field);
    TableKept(role.batchAck, "BatchAck", fields, seen, field);
    TableFilled(t, fields, seen, field);
  }

  lemma EntityField(field: string)
    requires EntityAction(field).Some?
    ensures forall value, code :: !Emits(field, value, code)
    ensures field == match EntityAction(field).value
                     case GetMessages => "GetMessages"
                     case SubmitMessage => "SubmitMessage"
                     case SubmitBatched => "SubmitBatchedMessages"
                     case AckMessage => "Ack"
                     case AckBatch => "BatchAck"
  {
    assert AdminCode(field).None?;
  }

  lemma TableKept(t: map<string, bool>, name: string, fields: map<string, Json>, seen: set<string>, field: string)
    requires seen <= fields.Keys && field in fields && TableFrom(t, name, fields, seen)
    ensures name != field ==> TableFrom(t, name, fields, seen + {field})
  {
  }

  lemma TableFilled(t: map<string, bool>, fields: map<string, Json>, seen: set<string>, field: string)
    requires seen <= fields.Keys && field in fields && fields[field].Text? && Parse(fields[field].text) == Some(t)
    ensures TableFrom(t, field, fields, seen + {field})
  {
  }

  lemma CompiledAdmin(role: Role, fields: map<string, Json>, seen: set<string>, field: string, code: uint32)
    requires seen <= fields.Keys && field in fields && field !in seen && CompiledFrom(role, fields, seen)
    requires EntityAction(field).None? && Emits(field, fields[field], code)
    ensures CompiledFrom(role.(admin := role.admin + [code]), fields, seen + {field})
  {
    hide Parse, AdminCode;
  }

  lemma NextCode(field: string)
    requires AdminCode(field).Some?
    ensures AdminCode(field).value < 0xFFFF_FFFF
  {
  }

  /** One field of the actions: an entity table, or an administrative verdict. */
  method CompileField(role: Role, field: string, value: Json, ghost fields: map<string, Json>, ghost seen: set<string>)
    returns (r: Option<Role>)
    requires seen <= fields.Keys && field in fields && field !in seen && fields[field] == value
    requires CompiledFrom(role, fields, seen)
    ensures r.Some? <==> ValidField(field, value)
    ensures r.Some? ==> CompiledFrom(r.value, fields, seen + {field})
    ensures r.Some? ==> r.value.name == role.name && r.value.raw == role.raw
  {
    hide Parse, CompiledFrom, AdminCode, EntityAction;
    if value.Other? {
      return None;
    }
    if EntityAction(field).Some? {
      var mp := ParsePermissions(value.text);
      if mp.None? {
        return None;
      }
      CompiledEntity(role, fields, seen, field, mp.value);
      match EntityAction(field).value {
        case GetMessages => r := Some(role.(getMessages := mp.value));
        case SubmitMessage => r := Some(role.(submitMessage := mp.value));
        case SubmitBatched => r := Some(role.(submitBatched := mp.value));
        case AckMessage => r := Some(role.(ack := mp.value));
        case AckBatch => r := Some(role.(batchAck := mp.value));
      }
      return;
    }
    if AdminCode(field).None? {
      return None;
    }
    var result := ParseAdminPermissions(value.text);
    if result.None? {
      return None;
    }
    NextCode(field);
    var code := if result.value then AdminCode(field).value else AdminCode(field).value + 1;
    CompiledAdmin(role, fields, seen, field, code);
    r := Some(role.(admin := role.admin + [code]));
  }

  class RoleManager {
    var roles: map<string, Role>
    var users: map<string, seq<Role>>

    constructor ()
      ensures Value() == Access(map[], map[])
    {
      roles, users := map[], map[];
    }

    ghost function Value(): Access
      reads this
    {
      Access(roles, users)
    }

    /** Walks the actions in any order; whichever it is, the role is made for exactly the valid
        documents and says what they state. */
    method CreateRole(d: Document) returns (r: Option<Role>)
      ensures r.Some? <==> ValidDocument(roles, d)
      ensures r.Some? ==> r.value.name == d.role.value.text && r.value.raw == d.raw
      ensures r.Some? ==> CompiledFrom(r.value, d.actions.value.fields, d.actions.value.fields.Keys)
    {
      if d.role.None? || d.role.value.Other? || |d.role.value.text| == 0 || d.role.value.text in roles {
        return None;
      }
      if d.actions.None? || d.actions.value.NotAnObject? || |d.actions.value.fields| == 0 {
        return None;
      }
      var fields := d.actions.value.fields;
      var role := Role(d.role.value.text, map[], map[], map[], map[], map[], [], d.raw);
      var left := fields.Keys;
      while left != {}
        invariant left <= fields.Keys
        invariant role.name == d.role.value.text && role.raw == d.raw
        invariant CompiledFrom(role, fields, fields.Keys - left)
        invariant forall f | f in fields && f !in left :: ValidField(f, fields[f])
        decreases left
      {
        hide CompiledFrom, ValidField;
        var field :| field in left;
        var compiled := CompileField(role, field, fields[field], fields, fields.Keys - left);
        if compiled.None? {
          return None;
        }
        role := compiled.value;
        assert fields.Keys - left + {field} == fields.Keys - (left - {field});
        left := left - {field};
      }
      assert fields.Keys - left == fields.Keys;
      return Some(role);
    }

    method AddRole(role: Role) returns (outcome: Outcome)
      modifies this
      ensures (Value(), outcome) == AccessModel.AddRole(old(Value()), role)
    {
      if role.name in roles {
        return RoleTaken;
      }
      roles := roles[role.name := role];
      return Done;
    }

    method AssignRole(user: string, name: string) returns (outcome: Outcome)
      modifies this
      ensures (Value(), outcome) == AccessModel.AssignRole(old(Value()), user, name)
    {
      if name !in roles {
        return RoleMissing;
      }
      if user !in users {
        users := users[user := [roles[name]]];
        assert [] + [roles[name]] == [roles[name]];
        return Done;
      }
      users := users[user := users[user] + [roles[name]]];
      return Done;
    }

    method UnassignRole(user: string, name: string) returns (outcome: Outcome)
      modifies this
      ensures (Value(), outcome) == AccessModel.UnassignRole(old(Value()), user, name)
    {
      if name !in roles {
        return RoleMissing;
      }
      if user !in users {
        return UserMissing;
      }
      var held := users[user];
      for i := 0 to |held|
        invariant Value() == old(Value())
        invariant forall j | 0 <= j < i :: held[j].name != name
      {
        if held[i].name == name {
          users := users[user := SwapRemove(held, i)];
          return Done;
        }
      }
      return NotHeld;
    }

    /** Stops at the first deny. */
    method HasAdminPermission(user: string, code: uint32) returns (r: Check)
      ensures r == Checked(Value(), user, Admin(code))
    {
      if user !in users {
        return NoEntry;
      }
      var held, deny, foundAllow := users[user], Inc32(code), false;
      for i := 0 to |held|
        invariant foundAllow <==> exists j :: 0 <= j < i && code in held[j].admin
        invariant forall j | 0 <= j < i :: deny !in held[j].admin
      {
        var codes := held[i].admin;
        for k := 0 to |codes|
          invariant foundAllow <==> (exists j :: 0 <= j < i && code in held[j].admin) || code in codes[..k]
          invariant deny !in codes[..k]
        {
          if codes[k] == deny {
            assert Says(held[i], Admin(code)) == Deny;
            return Answer(false);
          }
          if codes[k] == code {
            foundAllow := true;
          }
        }
        assert codes[..|codes|] == codes;
      }
      assert forall j | 0 <= j < |held| ::
          Says(held[j], Admin(code)) == if code in held[j].admin then Allow else Silent;
      return Answer(foundAllow);
    }

    /** Stops at the first deny. */
    method HasPermission(user: string, entity: string, action: Action) returns (r: Check)
      ensures r == Checked(Value(), user, On(action, entity))
    {
      if user !in users {
        return NoEntry;
      }
      var held, allowed := users[user], false;
      ghost var q := On(action, entity);
      for i := 0 to |held|
        invariant allowed <==> exists j :: 0 <= j < i && Says(held[j], q) == Allow
        invariant forall j | 0 <= j < i :: Says(held[j], q) != Deny
      {
        var table := Table(held[i], action);
        if ALL in table {
          if !table[ALL] {
            assert Says(held[i], q) == Deny;
            return Answer(false);
          }
          allowed := true;
        } else if entity in table {
          if !table[entity] {
            assert Says(held[i], q) == Deny;
            return Answer(false);
          }
          allowed := true;
        }
      }
      return Answer(allowed);
    }

    method RoleExists(name: string) returns (found: bool)
      ensures found <==> name in roles
    {
      found := name in roles;
    }
  }
}
