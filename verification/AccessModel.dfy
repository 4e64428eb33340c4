/** Roles, what they state, and the checks over a user's list of roles. */
module AccessModel {
  import opened Types
  import opened PermissionText

  const ALL := "*"

  // the codes that allow administrative actions; each is denied by the code after it
  const ALLOW_CREATE_QUEUE: uint32 := 0
  const ALLOW_DELETE_QUEUE: uint32 := 2
  const ALLOW_CREATE_USER: uint32 := 4
  const ALLOW_DELETE_USER: uint32 := 6
  const ALLOW_CREATE_ROLE: uint32 := 8
  const ALLOW_DELETE_ROLE: uint32 := 10
  const ALLOW_ASSIGN_ROLE: uint32 := 12
  const ALLOW_UNASSIGN_ROLE: uint32 := 14
  const ALLOW_CHANGE_PASSWORD: uint32 := 16
  const ALLOW_ADD_ROUTING_KEY: uint32 := 18
  const ALLOW_DELETE_ROUTING_KEY: uint32 := 20

  datatype Action = GetMessages | SubmitMessage | SubmitBatched | AckMessage | AckBatch

  datatype Role = Role(name: string, getMessages: map<string, bool>, submitMessage: map<string, bool>,
                       submitBatched: map<string, bool>, ack: map<string, bool>, batchAck: map<string, bool>,
                       admin: seq<uint32>, raw: string)

  /** The roles by name, and the roles of each user in the order the list happens to have. */
  datatype Access = Access(roles: map<string, Role>, users: map<string, seq<Role>>)

  /** An entity to act on, or the code that allows an administrative action. */
  datatype Query = On(action: Action, entity: string) | Admin(code: uint32)

  datatype Verdict = Silent | Allow | Deny

  datatype Check = NoEntry | Answer(granted: bool)

  datatype Outcome = Done | RoleTaken | RoleMissing | UserMissing | NotHeld

  function Table(r: Role, a: Action): map<string, bool> {
    match a
    case GetMessages => r.getMessages
    case SubmitMessage => r.submitMessage
    case SubmitBatched => r.submitBatched
    case AckMessage => r.ack
    case AckBatch => r.batchAck
  }

  /** What one role says: its wildcard entry first, then the entity's own; for an administrative
      action, the code after the allowing one denies it. */
  function Says(r: Role, q: Query): Verdict {
    match q
    case On(a, entity) =>
      var t := Table(r, a);
      if ALL in t then (if t[ALL] then Allow else Deny)
      else if entity in t then (if t[entity] then Allow else Deny)
      else Silent
    case Admin(code) =>
      if Inc32(code) in r.admin then Deny else if code in r.admin then Allow else Silent
  }

  /** Some role allows and none denies. */
  predicate Decide(rs: seq<Role>, q: Query) {
    (exists r :: r in rs && Says(r, q) == Allow) && forall r :: r in rs ==> Says(r, q) != Deny
  }

  function Checked(s: Access, user: string, q: Query): Check {
    if user in s.users then Answer(Decide(s.users[user], q)) else NoEntry
  }

  function AddRole(s: Access, role: Role): (Access, Outcome) {
    if role.name in s.roles then (s, RoleTaken) else (s.(roles := s.roles[role.name := role]), Done)
  }

  function Roles(s: Access, user: string): seq<Role> {
    if user in s.users then s.users[user] else []
  }

  function AssignRole(s: Access, user: string, name: string): (Access, Outcome) {
    if name !in s.roles then (s, RoleMissing)
    else (s.(users := s.users[user := Roles(s, user) + [s.roles[name]]]), Done)
  }

  function FirstNamed(rs: seq<Role>, name: string): (i: nat)
    ensures i <= |rs| && (i < |rs| ==> rs[i].name == name)
    ensures forall j | 0 <= j < i :: rs[j].name != name
  {
    if rs == [] || rs[0].name == name then 0 else 1 + FirstNamed(rs[1..], name)
  }

  /** The last element takes the place of the removed one. */
  function SwapRemove<T>(rs: seq<T>, i: nat): seq<T>
    requires i < |rs|
  {
    rs[i := rs[|rs| - 1]][..|rs| - 1]
  }

  function UnassignRole(s: Access, user: string, name: string): (Access, Outcome) {
    if name !in s.roles then (s, RoleMissing)
    else if user !in s.users then (s, UserMissing)
    else
      var i := FirstNamed(s.users[user], name);
      if i == |s.users[user]| then (s, NotHeld)
      else (s.(users := s.users[user := SwapRemove(s.users[user], i)]), Done)
  }

  // ----- compiling a policy

  /** A decoded value: a text, or anything else. */
  datatype Json = Text(text: string) | Other

  datatype Actions = Fields(fields: map<string, Json>) | NotAnObject

  /** A decoded role document. */
  datatype Document = Document(role: Option<Json>, actions: Option<Actions>, raw: string)

  function EntityAction(field: string): Option<Action> {
    match field
    case "GetMessages" => Some(GetMessages)
    case "SubmitMessage" => Some(SubmitMessage)
    case "SubmitBatchedMessages" => Some(SubmitBatched)
    case "Ack" => Some(AckMessage)
    case "BatchAck" => Some(AckBatch)
    case _ => None
  }

  /** The code that allows an administrative action. */
  function AdminCode(field: string): Option<uint32> {
    match field
    case "CreateQueue" => Some(ALLOW_CREATE_QUEUE)
    case "DeleteQueue" => Some(ALLOW_DELETE_QUEUE)
    case "CreateUser" => Some(ALLOW_CREATE_USER)
    case "DeleteUser" => Some(ALLOW_DELETE_USER)
    case "CreateRole" => Some(ALLOW_CREATE_ROLE)
    case "DeleteRole" => Some(ALLOW_DELETE_ROLE)
    case "AssignRole" => Some(ALLOW_ASSIGN_ROLE)
    case "UnassignRole" => Some(ALLOW_UNASSIGN_ROLE)
    case "ChangePassword" => Some(ALLOW_CHANGE_PASSWORD)
    case "AddRoutingKey" => Some(ALLOW_ADD_ROUTING_KEY)
    case "DeleteRoutingKey" => Some(ALLOW_DELETE_ROUTING_KEY)
    case _ => None
  }

  predicate ValidField(field: string, value: Json) {
    && value.Text?
    && if EntityAction(field).Some? then Parse(value.text).Some?
       else AdminCode(field).Some? && (value.text == "allow" || value.text == "deny")
  }

  predicate ValidDocument(roles: map<string, Role>, d: Document) {
    && d.role.Some? && d.role.value.Text? && d.role.value.text != [] && d.role.value.text !in roles
    && d.actions.Some? && d.actions.value.Fields? && d.actions.value.fields != map[]
    && forall f :: f in d.actions.value.fields ==> ValidField(f, d.actions.value.fields[f])
  }

  /** The field puts the code into the role. */
  predicate Emits(field: string, value: Json, code: uint32) {
    && AdminCode(field).Some? && value.Text?
    && ((code == AdminCode(field).value && value.text == "allow")
        || (code == AdminCode(field).value + 1 && value.text == "deny"))
  }

  ghost predicate TableFrom(t: map<string, bool>, field: string, fields: map<string, Json>, seen: set<string>)
    requires seen <= fields.Keys
  {
    if field in seen then fields[field].Text? && Parse(fields[field].text) == Some(t) else t == map[]
  }

  /** The role holds what the fields seen so far state, and nothing else. */
  ghost predicate CompiledFrom(r: Role, fields: map<string, Json>, seen: set<string>)
    requires seen <= fields.Keys
  {
    && TableFrom(r.getMessages, "GetMessages", fields, seen)
    && TableFrom(r.submitMessage, "SubmitMessage", fields, seen)
    && TableFrom(r.submitBatched, "SubmitBatchedMessages", fields, seen)
    && TableFrom(r.ack, "Ack", fields, seen)
    && TableFrom(r.batchAck, "BatchAck", fields, seen)
    && forall code: uint32 :: code in r.admin <==> exists f :: f in seen && Emits(f, fields[f], code)
  }
}
