/** Batching is transparent, commands are guarded, and replicas agree. */
module FsmLaws {
  import opened BrokerModel
  import opened FsmModel
  import opened Guards

  // ----- lists of entries

  lemma {:induction false} ApplyOneMore(s: System, es: seq<Entry>, e: Entry, mid: (System, seq<Result>),
                                        last: (System, seq<Result>))
    requires ApplyMay(s, es, mid) && EntryMay(mid.0, e, last)
    ensures ApplyMay(s, es + [e], (last.0, mid.1 + last.1))
  {
    ApplyOne(mid.0, e, last);
    ApplyJoin(s, es, [e], mid, last);
  }

  lemma ApplyParts(s: System, es: seq<Entry>, out: (System, seq<Result>))
    returns (first: (System, seq<Result>), rest: (System, seq<Result>))
    requires es != [] && ApplyMay(s, es, out)
    ensures EntryMay(s, es[0], first) && ApplyMay(first.0, es[1..], rest) && out == (rest.0, first.1 + rest.1)
  {
    hide EntryMay;
    first, rest :| EntryMay(s, es[0], first) && ApplyMay(first.0, es[1..], rest) && out == (rest.0, first.1 + rest.1);
  }

  lemma ApplyCons(s: System, e: Entry, es: seq<Entry>, first: (System, seq<Result>), rest: (System, seq<Result>))
    requires EntryMay(s, e, first) && ApplyMay(first.0, es, rest)
    ensures ApplyMay(s, [e] + es, (rest.0, first.1 + rest.1))
  {
    hide EntryMay;
    assert ([e] + es)[1..] == es;
  }

  lemma NothingToApply(s: System, out: (System, seq<Result>))
    ensures ApplyMay(s, [], out) <==> out == (s, [])
  {
  }

  lemma ApplyOne(s: System, e: Entry, out: (System, seq<Result>))
    ensures EntryMay(s, e, out) <==> ApplyMay(s, [e], out)
  {
    hide EntryMay, ApplyMay;
    if EntryMay(s, e, out) {
      NothingToApply(out.0, (out.0, []));
      ApplyCons(s, e, [], out, (out.0, []));
      assert [e] + [] == [e] && out.1 + [] == out.1;
    }
    if ApplyMay(s, [e], out) {
      var first, rest := ApplyParts(s, [e], out);
      assert [e][1..] == [];
      NothingToApply(first.0, rest);
      assert first.1 + [] == first.1;
    }
  }

  lemma {:induction false} ApplyJoin(s: System, a: seq<Entry>, b: seq<Entry>, mid: (System, seq<Result>),
                                     last: (System, seq<Result>))
    requires ApplyMay(s, a, mid) && ApplyMay(mid.0, b, last)
    ensures ApplyMay(s, a + b, (last.0, mid.1 + last.1))
    decreases |a|
  {
    hide EntryMay, ApplyMay;
    if a == [] {
      NothingToApply(s, mid);
      assert a + b == b && [] + last.1 == last.1;
    } else {
      var first, rest := ApplyParts(s, a, mid);
      ApplyJoin(first.0, a[1..], b, rest, last);
      ApplyCons(s, a[0], a[1..] + b, first, (last.0, rest.1 + last.1));
      assert [a[0]] + (a[1..] + b) == a + b;
      assert first.1 + (rest.1 + last.1) == mid.1 + last.1;
    }
  }

  lemma {:induction false} ApplySplit(s: System, a: seq<Entry>, b: seq<Entry>, out: (System, seq<Result>))
    returns (mid: (System, seq<Result>), last: (System, seq<Result>))
    requires ApplyMay(s, a + b, out)
    ensures ApplyMay(s, a, mid) && ApplyMay(mid.0, b, last) && out == (last.0, mid.1 + last.1)
    decreases |a|
  {
    hide EntryMay, ApplyMay;
    if a == [] {
      assert a + b == b && [] + out.1 == out.1;
      NothingToApply(s, (s, []));
      mid, last := (s, []), out;
    } else {
      assert (a + b)[1..] == a[1..] + b;
      var first, rest := ApplyParts(s, a + b, out);
      mid, last := ApplySplit(first.0, a[1..], b, rest);
      ApplyCons(s, a[0], a[1..], first, mid);
      assert [a[0]] + a[1..] == a && first.1 + (mid.1 + last.1) == first.1 + mid.1 + last.1;
      mid := (mid.0, first.1 + mid.1);
    }
  }

  // ----- batching

  function Flat(logs: seq<Log>): seq<Entry>
    decreases |logs|
  {
    if logs == [] then [] else Entries(logs[0]) + Flat(logs[1..])
  }

  /** The commands among the entries; the others are holes. */
  function Commands(es: seq<Entry>): seq<Entry> {
    if es == [] then [] else (if es[0].Empty? then [] else [es[0]]) + Commands(es[1..])
  }

  lemma {:induction false} RunIsFlat(s: System, logs: seq<Log>, out: (System, seq<Result>))
    ensures RunMay(s, logs, out) <==> ApplyMay(s, Flat(logs), out)
    decreases |logs|
  {
    hide ApplyMay;
    if logs == [] {
      NothingToApply(s, out);
    } else {
      var es, later := Entries(logs[0]), Flat(logs[1..]);
      if RunMay(s, logs, out) {
        var first: (System, seq<Result>), rest: (System, seq<Result>) :|
          ApplyMay(s, es, first) && RunMay(first.0, logs[1..], rest) && out == (rest.0, first.1 + rest.1);
        RunIsFlat(first.0, logs[1..], rest);
        ApplyJoin(s, es, later, first, rest);
      }
      if ApplyMay(s, Flat(logs), out) {
        var first, rest := ApplySplit(s, es, later, out);
        RunIsFlat(first.0, logs[1..], rest);
        assert RunMay(first.0, logs[1..], rest);
      }
    }
  }

  lemma HoleIs(s: System, e: Entry, out: (System, seq<Result>))
    requires e.Empty?
    ensures EntryMay(s, e, out) <==> out == (s, [])
  {
  }

  lemma {:induction false} HolesDropped(s: System, es: seq<Entry>, out: (System, seq<Result>))
    requires ApplyMay(s, es, out)
    ensures ApplyMay(s, Commands(es), out)
    decreases |es|
  {
    hide ApplyMay, EntryMay;
    if es != [] {
      var first, rest := ApplyParts(s, es, out);
      HolesDropped(first.0, es[1..], rest);
      if es[0].Empty? {
        HoleIs(s, es[0], first);
        assert [] + Commands(es[1..]) == Commands(es[1..]) && [] + rest.1 == rest.1;
      } else {
        ApplyCons(s, es[0], Commands(es[1..]), first, rest);
      }
    }
  }

  lemma {:induction false} HolesInserted(s: System, es: seq<Entry>, out: (System, seq<Result>))
    requires ApplyMay(s, Commands(es), out)
    ensures ApplyMay(s, es, out)
    decreases |es|
  {
    hide ApplyMay, EntryMay;
    if es != [] {
      var later := Commands(es[1..]);
      assert es == [es[0]] + es[1..];
      if es[0].Empty? {
        HoleIs(s, es[0], (s, []));
        assert [] + later == later && [] + out.1 == out.1;
        HolesInserted(s, es[1..], out);
        ApplyCons(s, es[0], es[1..], (s, []), out);
      } else {
        assert ([es[0]] + later)[1..] == later;
        var first, rest := ApplyParts(s, [es[0]] + later, out);
        HolesInserted(first.0, es[1..], rest);
        ApplyCons(s, es[0], es[1..], first, rest);
      }
    }
  }

  /** Holes change nothing and give no result. */
  lemma HolesDoNothing(s: System, es: seq<Entry>, out: (System, seq<Result>))
    ensures ApplyMay(s, es, out) <==> ApplyMay(s, Commands(es), out)
  {
    hide ApplyMay;
    if ApplyMay(s, es, out) {
      HolesDropped(s, es, out);
    }
    if ApplyMay(s, Commands(es), out) {
      HolesInserted(s, es, out);
    }
  }

  /** However a list of commands is divided into log entries, with or without holes, other logs and
      empty batches between, the final states and concatenated results that may come out are the same. */
  lemma BatchingTransparent(s: System, logs: seq<Log>, logs': seq<Log>, out: (System, seq<Result>))
    requires Commands(Flat(logs)) == Commands(Flat(logs'))
    ensures RunMay(s, logs, out) <==> RunMay(s, logs', out)
  {
    hide ApplyMay, RunMay;
    RunIsFlat(s, logs, out);
    HolesDoNothing(s, Flat(logs), out);
    RunIsFlat(s, logs', out);
    HolesDoNothing(s, Flat(logs'), out);
  }

  /** Unless the machine halts, a log gives one result for each command in it. */
  lemma {:induction false} OneResultEach(s: System, es: seq<Entry>, out: (System, seq<Result>))
    requires ApplyMay(s, es, out) && !out.0.halted
    ensures !s.halted && |out.1| == |Commands(es)|
    decreases |es|
  {
    if es != [] {
      var first: (System, seq<Result>), rest: (System, seq<Result>) :|
        EntryMay(s, es[0], first) && ApplyMay(first.0, es[1..], rest) && out == (rest.0, first.1 + rest.1);
      OneResultEach(first.0, es[1..], rest);
      EntryResult(s, es[0], first);
    }
  }

  lemma EntryResult(s: System, e: Entry, out: (System, seq<Result>))
    requires EntryMay(s, e, out) && !out.0.halted
    ensures !s.halted && |out.1| == if e.Empty? then 0 else 1
  {
    hide Needs, Refusal, ActMay;
    if !s.halted && ActMay(s, CommandOf(e), out) {
      ActResult(s, CommandOf(e), out);
    }
  }

  lemma ActResult(s: System, cmd: Command, out: (System, seq<Result>))
    requires ActMay(s, cmd, out) && !s.halted && !out.0.halted
    ensures |out.1| == 1
  {
    hide DeleteQueueMay, Routing.SubmitMay, SubmitAllMay, SubmitAll, CreateQueue, AddMessage, AddRouteKey,
         DeleteRoutingKey;
    hide ManagerGet, ManagerAck, ManagerNack, ManagerBatchAck, ManagerBatchNack, DropAccount;
  }

  /** The result of an entry stands in the place of that command among the commands, and is what
      the entry gives in the state that the entries before it lead to. */
  lemma ResultAt(s: System, es: seq<Entry>, out: (System, seq<Result>), k: nat)
    returns (before: (System, seq<Result>), after: (System, seq<Result>))
    requires ApplyMay(s, es, out) && !out.0.halted && k < |es| && !es[k].Empty?
    ensures ApplyMay(s, es[..k], before) && EntryMay(before.0, es[k], after)
    ensures |Commands(es[..k])| < |out.1| && after.1 == [out.1[|Commands(es[..k])|]]
  {
    hide ApplyMay, EntryMay, Commands;
    assert es == es[..k] + ([es[k]] + es[k + 1..]);
    var rest, later;
    before, rest := ApplySplit(s, es[..k], [es[k]] + es[k + 1..], out);
    after, later := ApplySplit(before.0, [es[k]], es[k + 1..], rest);
    ApplyOne(before.0, es[k], after);
    OneResultEach(after.0, es[k + 1..], later);
    EntryResult(before.0, es[k], after);
    OneResultEach(s, es[..k], before);
  }

  // ----- accounts

  predicate DistinctNames(xs: seq<string>) {
    forall i, j | 0 <= i < j < |xs| :: xs[i] != xs[j]
  }

  lemma DropsAccount(xs: seq<string>, user: string)
    requires DistinctNames(xs)
    ensures DistinctNames(DropAccount(xs, user))
    ensures forall u :: u in DropAccount(xs, user) <==> u in xs && u != user
    ensures |xs| > 1 ==> DropAccount(xs, user) != []
  {
    var i := IndexOf(xs, user);
    if i < |xs| {
      var ys := DropAccount(xs, user);
      forall u | u in xs && u != user ensures u in ys {
        var j :| 0 <= j < |xs| && xs[j] == u;
        assert ys[if j == |xs| - 1 then i else j] == u;
      }
    }
  }

  /** Accounts stay distinct and never run out; a user gains an account by a command that creates it
      and loses it by one that deletes it. */
  lemma AccountsKept(s: System, e: Entry, out: (System, seq<Result>), user: string)
    requires EntryMay(s, e, out) && DistinctNames(s.accounts)
    ensures DistinctNames(out.0.accounts) && (s.accounts != [] ==> out.0.accounts != [])
    ensures user in out.0.accounts && user !in s.accounts ==>
              CommandOf(e).CreateAccountCmd? && CommandOf(e).user == user && out.1 == [Good()]
    ensures user in s.accounts && user !in out.0.accounts ==>
              CommandOf(e).DeleteUserCmd? && CommandOf(e).user == user && out.1 == [Good()]
  {
    hide Needs, Refusal, ActMay, DistinctNames, CommandOf;
    if ActMay(s, CommandOf(e), out) {
      ActKeepsAccounts(s, CommandOf(e), out, user);
    }
  }

  lemma ActKeepsAccounts(s: System, cmd: Command, out: (System, seq<Result>), user: string)
    requires ActMay(s, cmd, out) && DistinctNames(s.accounts)
    ensures DistinctNames(out.0.accounts) && (s.accounts != [] ==> out.0.accounts != [])
    ensures user in out.0.accounts && user !in s.accounts ==>
              cmd.CreateAccountCmd? && cmd.user == user && out.1 == [Good()]
    ensures user in s.accounts && user !in out.0.accounts ==>
              cmd.DeleteUserCmd? && cmd.user == user && out.1 == [Good()]
  {
    hide Act, ActMay, DistinctNames;
    match cmd
    case CreateAccountCmd(name, hashed) => AccountCreated(s, cmd, out);
    case ChangePasswordCmd(name, compared, hashed) => PasswordChanged(s, cmd, out, user);
    case DeleteUserCmd(name, signedOut) => AccountDeleted(s, cmd, out, user);
    case _ => OthersKeepAccounts(s, cmd, out);
  }

  lemma OthersKeepAccounts(s: System, cmd: Command, out: (System, seq<Result>))
    requires ActMay(s, cmd, out) && !cmd.CreateAccountCmd? && !cmd.ChangePasswordCmd? && !cmd.DeleteUserCmd?
    ensures out.0.accounts == s.accounts
  {
    hide DeleteQueueMay, Routing.SubmitMay, SubmitAllMay, SubmitAll, CreateQueue, AddMessage, AddRouteKey,
         DeleteRoutingKey;
    hide ManagerGet, ManagerAck, ManagerNack, ManagerBatchAck, ManagerBatchNack;
  }

  lemma AccountCreated(s: System, cmd: Command, out: (System, seq<Result>))
    requires cmd.CreateAccountCmd? && ActMay(s, cmd, out) && DistinctNames(s.accounts)
    ensures DistinctNames(out.0.accounts)
    ensures out.0.accounts == s.accounts || (out.0.accounts == s.accounts + [cmd.user] && out.1 == [Good()])
  {
  }

  lemma PasswordChanged(s: System, cmd: Command, out: (System, seq<Result>), user: string)
    requires cmd.ChangePasswordCmd? && ActMay(s, cmd, out) && DistinctNames(s.accounts)
    ensures DistinctNames(out.0.accounts) && (s.accounts != [] ==> out.0.accounts != [])
    ensures user in out.0.accounts <==> user in s.accounts
  {
    DropsAccount(s.accounts, cmd.user);
    hide DropAccount;
  }

  lemma AccountDeleted(s: System, cmd: Command, out: (System, seq<Result>), user: string)
    requires cmd.DeleteUserCmd? && ActMay(s, cmd, out) && DistinctNames(s.accounts)
    ensures DistinctNames(out.0.accounts) && (s.accounts != [] ==> out.0.accounts != [])
    ensures user in out.0.accounts ==> user in s.accounts
    ensures user in s.accounts && user !in out.0.accounts ==> cmd.user == user && out.1 == [Good()]
  {
    DropsAccount(s.accounts, cmd.user);
    hide DropAccount;
  }

  // ----- replicas

  /** The entry does not delete a queue that is bound under several keys. */
  ghost predicate Safe(s: System, e: Entry) {
    var cmd := CommandOf(e);
    cmd.DeleteQueueCmd? && !s.halted && e.Entry? && e.whole && Permitted(s.access, UserOf(e), cmd) ==>
      |KeysOf(s.broker.routing, cmd.name)| <= 1 || cmd.name !in s.broker.qm.queues
  }

  /** Every entry is safe where it is reached. */
  ghost predicate SafeRun(s: System, es: seq<Entry>)
    decreases |es|
  {
    es == [] || (Safe(s, es[0]) && forall out :: EntryMay(s, es[0], out) ==> SafeRun(out.0, es[1..]))
  }

  lemma DeleteOutcomes(s: System, name: string)
    ensures (forall out, out' ::
               ActMay(s, DeleteQueueCmd(name), out) && ActMay(s, DeleteQueueCmd(name), out') ==> out == out')
            <==> |KeysOf(s.broker.routing, name)| <= 1 || name !in s.broker.qm.queues
  {
    var cmd, b := DeleteQueueCmd(name), s.broker;
    Routing.DeleteQueueDeterministicIff(b, name);
    if r, r' :| DeleteQueueMay(b, name, r) && DeleteQueueMay(b, name, r') && r != r' {
      var out, out' := Reported(s, r.0, r.1, []), Reported(s, r'.0, r'.1, []);
      assert ActMay(s, cmd, out) && ActMay(s, cmd, out');
    }
    hide DeleteQueueMay;
  }

  /** An entry has one possible outcome exactly when it is safe: map order shows only when a queue
      bound under several keys is deleted. */
  lemma DeterministicIff(s: System, e: Entry)
    ensures (forall out, out' :: EntryMay(s, e, out) && EntryMay(s, e, out') ==> out == out') <==> Safe(s, e)
  {
    hide AllGranted, Permitted, Needs, Refusal, KeysOf, ActMay, Act, UserOf;
    var cmd := CommandOf(e);
    RefusedIff(s.access, UserOf(e), Needs(cmd));
    NeedsAre(s.access, UserOf(e), cmd);
    if cmd.DeleteQueueCmd? {
      DeleteOutcomes(s, cmd.name);
    } else {
      forall out ensures ActMay(s, cmd, out) <==> out == Act(s, cmd) {
        ActMayIff(s, cmd, out);
      }
    }
    if cmd.DeleteQueueCmd? {
      if out, out' :| ActMay(s, cmd, out) && ActMay(s, cmd, out') && out != out' {
        assert Safe(s, e) || (EntryMay(s, e, out) && EntryMay(s, e, out'));
      }
    }
  }

  lemma {:induction false} OneOutcome(s: System, es: seq<Entry>, out: (System, seq<Result>),
                                      out': (System, seq<Result>))
    requires SafeRun(s, es) && ApplyMay(s, es, out) && ApplyMay(s, es, out')
    ensures out == out'
    decreases |es|
  {
    hide EntryMay, Safe;
    if es != [] {
      var first, rest := ApplyParts(s, es, out);
      var first', rest' := ApplyParts(s, es, out');
      DeterministicIff(s, es[0]);
      OneOutcome(first.0, es[1..], rest, rest');
    }
  }

  /** Two replicas that start alike and apply the same commands, batched in any two ways, end in
      the same state with the same results, if the deletes are safe. */
  lemma ReplicasAgree(s: System, logs: seq<Log>, logs': seq<Log>, out: (System, seq<Result>),
                      out': (System, seq<Result>))
    requires Commands(Flat(logs)) == Commands(Flat(logs'))
    requires SafeRun(s, Commands(Flat(logs)))
    requires RunMay(s, logs, out) && RunMay(s, logs', out')
    ensures out == out'
  {
    hide ApplyMay, RunMay, SafeRun;
    RunIsFlat(s, logs, out);
    HolesDoNothing(s, Flat(logs), out);
    RunIsFlat(s, logs', out');
    HolesDoNothing(s, Flat(logs'), out');
    OneOutcome(s, Commands(Flat(logs)), out, out');
  }
}
