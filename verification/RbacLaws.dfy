/** What policies mean, why the order of a user's roles does not matter, and what runs of the
    role operations keep. */
module RbacLaws {
  import opened Types
  import opened PermissionText
  import opened AccessModel

  // ----- policies

  /** What a list of entries says of an entity by itself. */
  function LastEntry(es: seq<Entry>, x: string): Verdict {
    if es == [] then Silent
    else if es[|es| - 1].entity == x then (if es[|es| - 1].allow then Allow else Deny)
    else LastEntry(es[..|es| - 1], x)
  }

  function TextOf(fields: map<string, Json>, field: string): string {
    if field in fields && fields[field].Text? then fields[field].text else []
  }

  lemma {:induction false} LastEntryIs(m: map<string, bool>, es: seq<Entry>, all: seq<Entry>, x: string)
    requires es <= all && LastWins(m, all)
    requires forall i | |es| <= i < |all| :: all[i].entity != x
    ensures LastEntry(es, x) == if x in m then (if m[x] then Allow else Deny) else Silent
  {
    if es != [] && es[|es| - 1].entity != x {
      LastEntryIs(m, es[..|es| - 1], all, x);
    }
  }

  lemma CompiledTable(r: Role, fields: map<string, Json>, field: string)
    requires CompiledFrom(r, fields, fields.Keys) && EntityAction(field).Some? && field in fields
    ensures fields[field].Text? && Parse(fields[field].text) == Some(Table(r, EntityAction(field).value))
  {
    hide Parse, Emits;
  }

  /** A compiled role says of an entity what the printed entries of its text say: the last entry
      for the wildcard if there is one, otherwise the last entry for the entity. */
  lemma EntityPolicyMeaning(r: Role, fields: map<string, Json>, field: string, es: seq<Entry>, entity: string)
    requires CompiledFrom(r, fields, fields.Keys) && EntityAction(field).Some?
    requires es != [] && forall i | 0 <= i < |es| :: ValidEntry(es[i])
    requires field in fields && fields[field] == Text(PrintAll(es))
    ensures Says(r, On(EntityAction(field).value, entity)) ==
            if LastEntry(es, "*") != Silent then LastEntry(es, "*") else LastEntry(es, entity)
  {
    hide PrintAll, Parse, LastWins, LastEntry, CompiledFrom, EntityAction, ValidEntry, Table;
    RoundTrip(es);
    CompiledTable(r, fields, field);
    var m := Table(r, EntityAction(field).value);
    LastEntryIs(m, es, es, "*");
    LastEntryIs(m, es, es, entity);
  }

  /** Neither the allowing nor the denying code of one action is a code of another. */
  lemma CodesApart(field: string, other: string)
    requires AdminCode(field).Some? && AdminCode(other).Some?
    requires AdminCode(field).value <= AdminCode(other).value <= AdminCode(field).value + 1
    ensures field == other
  {
  }

  /** A compiled role gives every administrative action exactly the verdict that its text states. */
  lemma AdminPolicyMeaning(r: Role, fields: map<string, Json>, field: string)
    requires CompiledFrom(r, fields, fields.Keys) && AdminCode(field).Some?
    requires forall f :: f in fields ==> ValidField(f, fields[f])
    ensures Says(r, Admin(AdminCode(field).value)) ==
            if field !in fields then Silent else if TextOf(fields, field) == "allow" then Allow else Deny
  {
    var code := AdminCode(field).value;
    assert Inc32(code) == code + 1 by { assert code <= 20; }
    forall c: uint32 | code <= c <= code + 1
      ensures c in r.admin <==> field in fields && Emits(field, fields[field], c)
    {
      forall f | f in fields && Emits(f, fields[f], c) ensures f == field {
        if AdminCode(f).value <= code { CodesApart(f, field); } else { CodesApart(field, f); }
      }
    }
  }

  /** The text is a printed list of entries. */
  ghost predicate Listed(text: string) {
    exists es: seq<Entry> :: es != [] && (forall i | 0 <= i < |es| :: ValidEntry(es[i])) && text == PrintAll(es)
  }

  /** A role is made from a document exactly if it gives a name that is a text, not empty and not taken, and
      an object of actions, not empty, whose fields are all known: with a list of entries for what is
      allowed on entities, and one of two words for administrative actions. */
  lemma DocumentAcceptedIff(roles: map<string, Role>, d: Document)
    ensures ValidDocument(roles, d) <==>
      && d.role.Some? && d.role.value.Text? && d.role.value.text != [] && d.role.value.text !in roles
      && d.actions.Some? && d.actions.value.Fields? && |d.actions.value.fields| > 0
      && forall f | f in d.actions.value.fields :: AcceptedField(f, d.actions.value.fields[f])
  {
    if d.actions.Some? && d.actions.value.Fields? {
      var fields := d.actions.value.fields;
      assert |fields| > 0 <==> fields != map[];
      forall f | f in fields ensures ValidField(f, fields[f]) <==> AcceptedField(f, fields[f]) {
        FieldAcceptedIff(f, fields[f]);
      }
      hide ValidField, AcceptedField;
    }
  }

  ghost predicate AcceptedField(field: string, value: Json) {
    && value.Text?
    && if OfEntities(field) then Listed(value.text)
       else OfAdministration(field) && (value.text == "allow" || value.text == "deny")
  }

  predicate OfEntities(field: string) {
    || field == "GetMessages" || field == "SubmitMessage" || field == "SubmitBatchedMessages"
    || field == "Ack" || field == "BatchAck"
  }

  predicate OfAdministration(field: string) {
    || field == "CreateQueue" || field == "DeleteQueue" || field == "AddRoutingKey" || field == "DeleteRoutingKey"
    || field == "CreateUser" || field == "DeleteUser" || field == "ChangePassword"
    || field == "CreateRole" || field == "DeleteRole" || field == "AssignRole" || field == "UnassignRole"
  }

  lemma EntityFields(field: string)
    ensures EntityAction(field).Some? <==> OfEntities(field)
  {
  }

  lemma AdminFields(field: string)
    ensures AdminCode(field).Some? <==> OfAdministration(field)
  {
  }

  lemma FieldAcceptedIff(field: string, value: Json)
    ensures ValidField(field, value) <==> AcceptedField(field, value)
  {
    hide Parse, Listed, EntityAction, AdminCode, OfEntities, OfAdministration;
    if value.Text? {
      ListedIff(value.text);
    }
    EntityFields(field);
    AdminFields(field);
  }

  lemma ListedIff(text: string)
    ensures Parse(text).Some? <==> Listed(text)
  {
    ParseAcceptsIff(text);
  }

  /** The verdict of a compiled role is the decision for a user who holds that role only. */
  lemma SoleRoleDecides(r: Role, q: Query)
    ensures Decide([r], q) <==> Says(r, q) == Allow
  {
    assert r in [r];
  }

  // ----- decisions do not depend on the order of roles

  lemma DecideOrderFree(rs: seq<Role>, rs': seq<Role>, q: Query)
    requires multiset(rs) == multiset(rs')
    ensures Decide(rs, q) == Decide(rs', q)
  {
    forall r ensures r in rs <==> r in rs' {
      assert r in rs <==> r in multiset(rs);
    }
  }

  // ----- runs

  datatype RoleOp = Add(role: Role) | Assign(user: string, name: string) | Unassign(user: string, name: string)

  function Step(s: Access, op: RoleOp): (Access, Outcome) {
    match op
    case Add(role) => AddRole(s, role)
    case Assign(user, name) => AssignRole(s, user, name)
    case Unassign(user, name) => UnassignRole(s, user, name)
  }

  function Run(ops: seq<RoleOp>): Access {
    if ops == [] then Access(map[], map[]) else Step(Run(ops[..|ops| - 1]), ops[|ops| - 1]).0
  }

  /** Users hold roles that exist under their own names. */
  ghost predicate Consistent(s: Access) {
    && (forall n :: n in s.roles ==> s.roles[n].name == n)
    && forall u, r :: u in s.users && r in s.users[u] ==> Held(s.roles, r)
  }

  predicate Held(roles: map<string, Role>, r: Role) {
    r.name in roles && roles[r.name] == r
  }

  lemma SwapRemoveTakesOne<T>(rs: seq<T>, i: nat)
    requires i < |rs|
    ensures multiset(SwapRemove(rs, i)) == multiset(rs) - multiset{rs[i]}
  {
    var n := |rs| - 1;
    if i == n {
      assert rs == rs[..n] + [rs[n]] && SwapRemove(rs, i) == rs[..n];
    } else {
      assert rs == rs[..i] + [rs[i]] + rs[i + 1..n] + [rs[n]];
      assert SwapRemove(rs, i) == rs[..i] + [rs[n]] + rs[i + 1..n];
    }
  }

  lemma SwapRemoveWithin(rs: seq<Role>, i: nat, r: Role)
    requires i < |rs| && r in SwapRemove(rs, i)
    ensures r in rs
  {
  }

  lemma StepConsistent(s: Access, op: RoleOp)
    requires Consistent(s)
    ensures Consistent(Step(s, op).0)
  {
    var s' := Step(s, op).0;
    forall u, r | u in s'.users && r in s'.users[u] ensures Held(s'.roles, r) {
      if op.Assign? && u == op.user && s' != s {
        assert r in Roles(s, u) || r == s.roles[op.name];
      } else if op.Unassign? && u == op.user && s' != s {
        SwapRemoveWithin(s.users[u], FirstNamed(s.users[u], op.name), r);
      }
      if u in s.users && r in s.users[u] {
        assert Held(s.roles, r);
      }
    }
  }

  lemma {:induction false} EveryRunConsistent(ops: seq<RoleOp>)
    ensures Consistent(Run(ops))
  {
    if ops != [] {
      EveryRunConsistent(ops[..|ops| - 1]);
      StepConsistent(Run(ops[..|ops| - 1]), ops[|ops| - 1]);
    }
  }

  // ----- the order-free account of a run: how many times each user holds each role name

  datatype Grants = Grants(roles: map<string, Role>, held: map<string, multiset<string>>)

  function HeldBy(g: Grants, user: string): multiset<string> {
    if user in g.held then g.held[user] else multiset{}
  }

  function GrantStep(g: Grants, op: RoleOp): Grants {
    match op
    case Add(role) => if role.name in g.roles then g else g.(roles := g.roles[role.name := role])
    case Assign(user, name) =>
      if name in g.roles then g.(held := g.held[user := HeldBy(g, user) + multiset{name}]) else g
    case Unassign(user, name) =>
      if name in g.roles && user in g.held then g.(held := g.held[user := g.held[user] - multiset{name}]) else g
  }

  function GrantRun(ops: seq<RoleOp>): Grants {
    if ops == [] then Grants(map[], map[]) else GrantStep(GrantRun(ops[..|ops| - 1]), ops[|ops| - 1])
  }

  function Names(rs: seq<Role>): (r: seq<string>)
    ensures |r| == |rs| && forall i | 0 <= i < |rs| :: r[i] == rs[i].name
  {
    seq(|rs|, i requires 0 <= i < |rs| => rs[i].name)
  }

  predicate Counts(rs: seq<Role>, names: multiset<string>) {
    multiset(Names(rs)) == names
  }

  ghost predicate Accounts(s: Access, g: Grants) {
    && s.roles == g.roles && s.users.Keys == g.held.Keys
    && forall u :: u in s.users ==> Counts(s.users[u], g.held[u])
  }

  /** Some role held allows and none denies, counted by names. */
  predicate GrantDecide(g: Grants, user: string, q: Query) {
    && (exists n :: n in HeldBy(g, user) && n in g.roles && Says(g.roles[n], q) == Allow)
    && forall n :: n in HeldBy(g, user) && n in g.roles ==> Says(g.roles[n], q) != Deny
  }

  lemma NamesOfSwapRemove(rs: seq<Role>, i: nat)
    requires i < |rs|
    ensures multiset(Names(SwapRemove(rs, i))) == multiset(Names(rs)) - multiset{rs[i].name}
  {
    assert Names(SwapRemove(rs, i)) == SwapRemove(Names(rs), i);
    SwapRemoveTakesOne(Names(rs), i);
  }

  lemma CountsNone()
    ensures Counts([], multiset{})
  {
  }

  lemma CountsOneMore(rs: seq<Role>, names: multiset<string>, r: Role)
    requires Counts(rs, names)
    ensures Counts(rs + [r], names + multiset{r.name})
  {
    assert Names(rs + [r]) == Names(rs) + [r.name];
  }

  lemma CountsRemoved(rs: seq<Role>, names: multiset<string>, name: string)
    requires Counts(rs, names)
    ensures var i := FirstNamed(rs, name);
      Counts(if i < |rs| then SwapRemove(rs, i) else rs, names - multiset{name})
  {
    var i := FirstNamed(rs, name);
    if i < |rs| {
      NamesOfSwapRemove(rs, i);
    } else {
      assert name !in Names(rs);
      assert name !in multiset(Names(rs));
    }
  }

  lemma StepAccounts(s: Access, g: Grants, op: RoleOp)
    requires Accounts(s, g) && Consistent(s)
    ensures Accounts(Step(s, op).0, GrantStep(g, op))
  {
    hide Counts, FirstNamed, SwapRemove, Held;
    if op.Assign? && op.name in s.roles {
      CountsNone();
      assert Counts(Roles(s, op.user), HeldBy(g, op.user));
      CountsOneMore(Roles(s, op.user), HeldBy(g, op.user), s.roles[op.name]);
    } else if op.Unassign? && op.name in s.roles && op.user in s.users {
      CountsRemoved(s.users[op.user], g.held[op.user], op.name);
    }
  }

  /** The names a user holds are those of the roles in the user's list. */
  lemma NamesHeld(s: Access, g: Grants, user: string)
    requires Accounts(s, g) && Consistent(s) && user in s.users
    ensures forall r | r in s.users[user] :: Held(s.roles, r) && r.name in g.held[user]
    ensures forall n | n in g.held[user] :: n in s.roles && s.roles[n] in s.users[user]
  {
    var rs := s.users[user];
    assert Counts(rs, g.held[user]);
    forall r | r in rs ensures Held(s.roles, r) && r.name in g.held[user] {
      var i :| 0 <= i < |rs| && rs[i] == r;
      assert Names(rs)[i] == r.name;
      assert r.name in multiset(Names(rs));
    }
    forall n | n in g.held[user] ensures n in s.roles && s.roles[n] in rs {
      assert n in multiset(Names(rs));
      var i :| 0 <= i < |rs| && Names(rs)[i] == n;
      assert Held(s.roles, rs[i]);
    }
  }

  lemma DecideIsGrantDecide(s: Access, g: Grants, user: string, q: Query)
    requires Accounts(s, g) && Consistent(s) && user in s.users
    ensures Decide(s.users[user], q) == GrantDecide(g, user, q)
  {
    NamesHeld(s, g, user);
    assert s.roles == g.roles && HeldBy(g, user) == g.held[user];
    hide Says, Accounts, Consistent;
  }

  /** After every run of the role operations, both checks answer from the number of times each role
      was assigned and unassigned, whatever the order of the lists. */
  lemma {:induction false} EveryRunAccounted(ops: seq<RoleOp>)
    ensures Accounts(Run(ops), GrantRun(ops))
    ensures forall u, q :: Checked(Run(ops), u, q) ==
              if u in GrantRun(ops).held then Answer(GrantDecide(GrantRun(ops), u, q)) else NoEntry
  {
    EveryRunConsistent(ops);
    if ops != [] {
      var before := ops[..|ops| - 1];
      EveryRunAccounted(before);
      EveryRunConsistent(before);
      StepAccounts(Run(before), GrantRun(before), ops[|ops| - 1]);
    }
    var s, g := Run(ops), GrantRun(ops);
    forall u, q | u in s.users ensures Decide(s.users[u], q) == GrantDecide(g, u, q) {
      hide Run, GrantRun, Decide, GrantDecide, Consistent;
      DecideIsGrantDecide(s, g, u, q);
    }
  }

  // ----- assigning and taking back

  predicate Granted(c: Check) {
    c == Answer(true)
  }

  ghost predicate SameAnswers(s: Access, s': Access) {
    forall u, q :: Checked(s, u, q) == Checked(s', u, q)
  }

  lemma FirstIsTheRole(s: Access, user: string, name: string)
    requires Consistent(s) && name in s.roles
    ensures var longer := Roles(s, user) + [s.roles[name]];
      var i := FirstNamed(longer, name);
      i < |longer| && longer[i] == s.roles[name]
  {
    var rs := Roles(s, user);
    var longer := rs + [s.roles[name]];
    var i := FirstNamed(longer, name);
    assert longer[|rs|].name == name;
    if i < |rs| {
      assert longer[i] in s.users[user] && Held(s.roles, longer[i]);
    }
  }

  lemma TakenBack(s: Access, user: string, name: string)
    requires Consistent(s) && name in s.roles
    ensures
      var s1 := AssignRole(s, user, name).0;
      var (s2, taken) := UnassignRole(s1, user, name);
      && taken == Done && s2.roles == s.roles && s2.users.Keys == s.users.Keys + {user}
      && multiset(s2.users[user]) == multiset(Roles(s, user))
      && forall u | u in s.users && u != user :: s2.users[u] == s.users[u]
  {
    FirstIsTheRole(s, user, name);
    hide FirstNamed, SwapRemove, Consistent;
    var rs := Roles(s, user);
    var longer := rs + [s.roles[name]];
    SwapRemoveTakesOne(longer, FirstNamed(longer, name));
    assert multiset(longer) - multiset{s.roles[name]} == multiset(rs);
  }

  /** After any run, assigning a role and unassigning it succeed together, grant everyone what they
      were granted before, and change an answer exactly when the user had no entry: then a check
      that used to fail with an error is answered with a refusal. */
  lemma AssignThenUnassign(ops: seq<RoleOp>, user: string, name: string)
    ensures
      var s := Run(ops);
      var (s1, given) := AssignRole(s, user, name);
      var (s2, taken) := UnassignRole(s1, user, name);
      && (given == Done <==> name in s.roles) && given == taken
      && s2.roles == s.roles
      && (forall u, q :: Granted(Checked(s2, u, q)) == Granted(Checked(s, u, q)))
      && (SameAnswers(s, s2) <==> user in s.users || name !in s.roles)
  {
    var s := Run(ops);
    EveryRunConsistent(ops);
    hide Run, Decide, FirstNamed, SwapRemove, Held;
    if name in s.roles {
      TakenBack(s, user, name);
      var s2 := UnassignRole(AssignRole(s, user, name).0, user, name).0;
      hide AssignRole, UnassignRole, Consistent;
      forall u, q | u in s.users ensures Checked(s2, u, q) == Checked(s, u, q) {
        if u == user {
          DecideOrderFree(s2.users[u], s.users[u], q);
        }
      }
      if user !in s.users {
        assert |multiset(s2.users[user])| == 0;
        assert s2.users[user] == [];
        forall q ensures !Decide([], q) { NoRolesRefuse(q); }
        assert Checked(s2, user, Admin(0)) != Checked(s, user, Admin(0));
      }
    }
  }

  lemma NoRolesRefuse(q: Query)
    ensures !Decide([], q)
  {
  }
}
