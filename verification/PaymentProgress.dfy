/**
  The payment system cannot deadlock: all transactions lock their rows in the
  same table order and roll back before they touch an attempt on another
  connection, so some unfinished request can always go on, and all of them
  can be answered.
 */
module PaymentProgress {
  import opened PaymentTables
  import opened PaymentProtocol
  import opened PaymentSafety

  /** Client `c` cannot go on because `d` has locked the row it wants. */
  ghost predicate WaitsFor(s: State, c: Id, d: Id) {
    && c in s.clients && d in s.clients && !s.clients[c].pc.Done?
    && Wants(s.clients[c]).Some?
    && Holds(s.clients[d], Wants(s.clients[c]).value.0, Wants(s.clients[c]).value.1)
  }

  /** A waiting client has locked fewer tables than the one it waits for. */
  lemma WaitingRises(s: State, c: Id, d: Id)
    requires Inv(s) && WaitsFor(s, c, d)
    ensures s.clients[c].held < s.clients[d].held
    ensures !s.clients[d].pc.Done?
  {
    var w, h := s.clients[c], s.clients[d];
    assert Knows(s.tables, w) && Knows(s.tables, h);
    hide LocksGuard, Remembers, Consistent, ExclusiveLocks, Client.Key;
  }

  /** The waits-for relation has no cycle, of any length. */
  lemma {:induction false} NoCycle(s: State, path: seq<Id>)
    requires Inv(s) && |path| >= 2
    requires forall i | 0 <= i < |path| - 1 :: WaitsFor(s, path[i], path[i + 1])
    ensures path[0] in s.clients && path[|path| - 1] in s.clients
    ensures s.clients[path[0]].held < s.clients[path[|path| - 1]].held
    ensures path[0] != path[|path| - 1]
  {
    hide Inv, WaitsFor;
    var n := |path| - 1;
    assert WaitsFor(s, path[n - 1], path[n]);
    WaitsForClients(s, path[n - 1], path[n]);
    WaitingRises(s, path[n - 1], path[n]);
    if n > 1 {
      var shorter := path[..n];
      forall i | 0 <= i < |shorter| - 1
        ensures WaitsFor(s, shorter[i], shorter[i + 1])
      {
        assert WaitsFor(s, path[i], path[i + 1]);
      }
      NoCycle(s, shorter);
    }
  }

  lemma WaitsForClients(s: State, c: Id, d: Id)
    requires WaitsFor(s, c, d)
    ensures c in s.clients && d in s.clients
  {}

  /** Following the waits-for relation from an unfinished client ends at one that can step. */
  lemma SomeoneCanStep(s: State, c: Id) returns (e: Id)
    requires Inv(s) && c in s.clients && !s.clients[c].pc.Done?
    ensures Enabled(s, e) && s.clients[c].held <= s.clients[e].held
    decreases 4 - s.clients[c].held
  {
    hide Inv, Wants, Holds;
    HeldBound(s, c);
    if Enabled(s, c) {
      e := c;
    } else {
      var d :| d in s.clients && Holds(s.clients[d], Wants(s.clients[c]).value.0, Wants(s.clients[c]).value.1);
      WaitingRises(s, c, d);
      HeldBound(s, d);
      e := SomeoneCanStep(s, d);
    }
  }

  lemma HeldBound(s: State, c: Id)
    requires Inv(s) && c in s.clients
    ensures s.clients[c].held <= 4
  {
    assert Knows(s.tables, s.clients[c]);
  }

  // ---- every request can be answered ----

  /** An upper bound on the steps a handler still has to make. */
  function Remaining(pc: Pc): nat {
    match pc
    case Done(_) => 0
    case Notify => 1
    case MarkSuccess => 2
    case HandlerMark(_, _) => 1
    case MarkFailed(_) => 2
    case Rollback(_) => 3
    case Commit => 4
    case CommitNothing => 4
    case CheckAffected => 5
    case UpdateAttempt => 6
    case UpdateSession => 7
    case UpdateAccount => 8
    case UpdateOrder => 9
    case ReadAuth => 10
    case LockAttempt => 11
    case LockAccount => 12
    case LockOrder => 13
    case LockSession => 14
    case Begin => 15
    case Acquire => 16
    case ReadBuyer => 17
    case ReadAccount => 18
    case ReadOrder => 19
    case ReadSession => 20
    case ReadAttempt => 21
    case InitInsert => 1
    case InitAccount => 2
    case InitOrder => 3
    case InitSession => 4
    case ConfirmInsert => 1
    case ConfirmFind => 2
    case ConfirmAccount => 3
    case ConfirmOrder => 4
    case ConfirmUser => 5
  }

  lemma ReadsFinish(t: Tables, c: Client)
    requires c.pc.ReadAttempt? || c.pc.ReadSession? || c.pc.ReadOrder? || c.pc.ReadAccount? || c.pc.ReadBuyer?
    ensures Remaining(PayReads(t, c).client.pc) < Remaining(c.pc)
  {
    hide AccountPayable;
  }

  lemma CheckedFinishes(t: Tables, c: Client, check: Check, next: Client)
    requires Remaining(c.pc) > 4 && Remaining(next.pc) < Remaining(c.pc)
    ensures Remaining(Checked(t, c, check, next).client.pc) < Remaining(c.pc)
  {}

  lemma LockingFinishes(t: Tables, c: Client)
    requires c.pc.LockSession? || c.pc.LockOrder? || c.pc.LockAccount? || c.pc.LockAttempt? || c.pc.ReadAuth?
    ensures Remaining(TransactionStep(t, c).client.pc) < Remaining(c.pc)
  {
    hide CheckSession, CheckOrder, CheckAccount, CheckAttempt, CheckUser, ReadUser, Checked;
    var i := c.Payment();
    match c.pc
    case LockSession => CheckedFinishes(t, c, CheckSession(t, i), c.(held := 1, pc := LockOrder));
    case LockOrder => CheckedFinishes(t, c, CheckOrder(t, i), c.(held := 2, pc := LockAccount));
    case LockAccount => CheckedFinishes(t, c, CheckAccount(t, i), c.(held := 3, pc := LockAttempt));
    case LockAttempt => CheckedFinishes(t, c, CheckAttempt(t, i), c.(held := 4, pc := ReadAuth));
    case ReadAuth =>
      var user := ReadUser(t, i.buyer);
      CheckedFinishes(t, c, CheckUser(user), c.(auth := user, pc := UpdateOrder));
  }

  lemma UpdatesFinish(t: Tables, c: Client)
    requires c.pc.UpdateOrder? || c.pc.UpdateAccount? || c.pc.UpdateSession? || c.pc.UpdateAttempt?
    ensures Remaining(TransactionStep(t, c).client.pc) < Remaining(c.pc)
  {
    hide AccountPayable, ApplyUpdates, CheckSession, CheckOrder, CheckAccount, CheckAttempt, CheckUser, ReadUser;
  }

  lemma TransactionFinishes(t: Tables, c: Client)
    requires InTransaction(c.pc)
    ensures Remaining(TransactionStep(t, c).client.pc) < Remaining(c.pc)
  {
    if c.pc.LockSession? || c.pc.LockOrder? || c.pc.LockAccount? || c.pc.LockAttempt? || c.pc.ReadAuth? {
      hide TransactionStep;
      LockingFinishes(t, c);
    } else if c.pc.UpdateOrder? || c.pc.UpdateAccount? || c.pc.UpdateSession? || c.pc.UpdateAttempt? {
      hide TransactionStep;
      UpdatesFinish(t, c);
    } else {
      hide AccountPayable, ApplyUpdates, CheckSession, CheckOrder, CheckAccount, CheckAttempt, CheckUser, ReadUser;
    }
  }

  lemma AttemptReadsFinish(t: Tables, c: Client)
    requires c.pc.InitSession? || c.pc.InitOrder?
    ensures Remaining(InitStep(t, c).client.pc) < Remaining(c.pc)
  {
    hide AccountPayable, SessionOf;
  }

  lemma AttemptEndFinishes(t: Tables, c: Client)
    requires c.pc.InitAccount? || c.pc.InitInsert?
    ensures Remaining(InitStep(t, c).client.pc) < Remaining(c.pc)
  {
    hide AccountPayable, SessionOf;
  }

  lemma ConfirmReadsFinish(t: Tables, c: Client)
    requires c.pc.ConfirmUser? || c.pc.ConfirmOrder?
    ensures Remaining(InitStep(t, c).client.pc) < Remaining(c.pc)
  {
    hide AccountPayable, SessionOf;
  }

  lemma ConfirmAccountFinishes(t: Tables, c: Client)
    requires c.pc.ConfirmAccount?
    ensures Remaining(InitStep(t, c).client.pc) < Remaining(c.pc)
  {
    hide AccountPayable, SessionOf;
  }

  lemma ConfirmEndFinishes(t: Tables, c: Client)
    requires c.pc.ConfirmFind? || c.pc.ConfirmInsert?
    ensures Remaining(InitStep(t, c).client.pc) < Remaining(c.pc)
  {
    hide AccountPayable, SessionOf;
  }

  lemma InitFinishes(t: Tables, c: Client)
    requires Initialising(c.pc)
    ensures Remaining(InitStep(t, c).client.pc) < Remaining(c.pc)
  {
    hide InitStep, Remaining;
    if c.pc.InitSession? || c.pc.InitOrder? {
      AttemptReadsFinish(t, c);
    } else if c.pc.InitAccount? || c.pc.InitInsert? {
      AttemptEndFinishes(t, c);
    } else if c.pc.ConfirmUser? || c.pc.ConfirmOrder? {
      ConfirmReadsFinish(t, c);
    } else if c.pc.ConfirmAccount? {
      ConfirmAccountFinishes(t, c);
    } else {
      ConfirmEndFinishes(t, c);
    }
  }

  /** Every step of a handler brings it nearer to its answer. */
  lemma StepFinishes(t: Tables, c: Client)
    requires !c.pc.Done?
    ensures Remaining(ClientStep(t, c).client.pc) < Remaining(c.pc)
  {
    hide PayReads, TransactionStep, InitStep, SetResult;
    if c.pc.ReadAttempt? || c.pc.ReadSession? || c.pc.ReadOrder? || c.pc.ReadAccount? || c.pc.ReadBuyer? {
      ReadsFinish(t, c);
    } else if InTransaction(c.pc) {
      TransactionFinishes(t, c);
    } else if Initialising(c.pc) {
      InitFinishes(t, c);
    }
  }

  /** So does a database call that throws. */
  lemma CrashFinishes(c: Client)
    requires MayThrow(c)
    ensures Remaining(Crash(c).pc) < Remaining(c.pc)
  {}

  /** The steps that all handlers together still have to make. */
  ghost function Work(clients: map<Id, Client>): nat {
    if clients == map[] then 0
    else
      var c :| c in clients;
      Remaining(clients[c].pc) + Work(clients - {c})
  }

  lemma {:induction false} WorkRemove(m: map<Id, Client>, c: Id)
    requires c in m
    ensures Work(m) == Remaining(m[c].pc) + Work(m - {c})
  {
    hide Remaining;
    var x :| x in m && Work(m) == Remaining(m[x].pc) + Work(m - {x});
    if x != c {
      WorkRemove(m - {x}, c);
      WorkRemove(m - {c}, x);
      assert m - {x} - {c} == m - {c} - {x};
    }
  }

  lemma WorkShrinks(s: State, e: Id)
    requires Enabled(s, e)
    ensures Work(Advance(s, e).clients) < Work(s.clients)
  {
    var m := s.clients;
    var c' := ClientStep(s.tables, m[e]).client;
    StepFinishes(s.tables, m[e]);
    WorkRemove(m, e);
    WorkRemove(m[e := c'], e);
    assert m[e := c'] - {e} == m - {e};
  }

  ghost predicate AllAnswered(s: State) {
    forall c | c in s.clients :: s.clients[c].pc.Done?
  }

  /** From every state reached so far, finitely many steps answer every request. */
  lemma {:induction false} EveryoneCanBeAnswered(s: State) returns (states: seq<State>, actions: seq<Action>)
    requires Inv(s)
    ensures Run(states, actions) && states[0] == s && AllAnswered(states[|states| - 1])
    ensures |actions| <= Work(s.clients)
    decreases Work(s.clients)
  {
    hide Inv, Enabled, Work, Remaining, ClientStep;
    if AllAnswered(s) {
      states, actions := [s], [];
    } else {
      var c :| c in s.clients && !s.clients[c].pc.Done?;
      var e := SomeoneCanStep(s, c);
      assert e in s.clients && !s.clients[e].pc.Done? by { EnabledClient(s, e); }
      var next := Advance(s, e);
      StepKeepsInv(s, e);
      WorkShrinks(s, e);
      var rest, moves := EveryoneCanBeAnswered(next);
      states, actions := [s] + rest, [Step(e)] + moves;
      assert Allowed(s, Step(e)) && next == Perform(s, Step(e));
      forall k | 0 <= k < |actions|
        ensures Allowed(states[k], actions[k]) && states[k + 1] == Perform(states[k], actions[k])
      {
        if k > 0 {
          assert Allowed(rest[k - 1], moves[k - 1]) && rest[k] == Perform(rest[k - 1], moves[k - 1]);
        }
      }
    }
  }

  lemma EnabledClient(s: State, e: Id)
    requires Enabled(s, e)
    ensures e in s.clients && !s.clients[e].pc.Done?
  {}

  // ---- every schedule comes to an end ----

  lemma CrashShrinks(s: State, e: Id)
    requires e in s.clients && MayThrow(s.clients[e])
    ensures Work(s.clients[e := Crash(s.clients[e])]) < Work(s.clients)
  {
    var m := s.clients;
    var c' := Crash(m[e]);
    CrashFinishes(m[e]);
    WorkRemove(m, e);
    WorkRemove(m[e := c'], e);
    assert m[e := c'] - {e} == m - {e};
  }

  /** The steps, thrown exceptions included, that requests make in a run. */
  ghost function Moves(actions: seq<Action>): nat {
    if actions == [] then 0
    else Moves(actions[..|actions| - 1]) + if actions[|actions| - 1].Step? || actions[|actions| - 1].Throw? then 1 else 0
  }

  lemma ActionShrinks(s: State, a: Action)
    requires Allowed(s, a) && !a.Arrive?
    ensures Work(Perform(s, a).clients) + (if a.Step? || a.Throw? then 1 else 0) <= Work(s.clients)
  {
    match a
    case Step(c) => EnabledClient(s, c); WorkShrinks(s, c);
    case Throw(c) => CrashShrinks(s, c);
    case Outside(_) =>
  }

  /**
    Under every schedule the requests being served make only so many steps,
    whatever the rest of the system does in between.
   */
  lemma {:induction false} NoEndlessRun(states: seq<State>, actions: seq<Action>, k: nat)
    requires Run(states, actions) && k <= |actions| && forall m | 0 <= m < k :: !actions[m].Arrive?
    ensures Moves(actions[..k]) + Work(states[k].clients) <= Work(states[0].clients)
  {
    hide Work, Perform, Allowed;
    if k > 0 {
      NoEndlessRun(states, actions, k - 1);
      assert Allowed(states[k - 1], actions[k - 1]) && states[k] == Perform(states[k - 1], actions[k - 1]);
      ActionShrinks(states[k - 1], actions[k - 1]);
      assert actions[..k][..k - 1] == actions[..k - 1];
    }
  }

  /** Where no request can step any more, all of them have been answered. */
  lemma StuckIsAnswered(s: State)
    requires Inv(s) && forall c | c in s.clients :: !Enabled(s, c)
    ensures AllAnswered(s)
  {
    hide Inv, Enabled;
    if c :| c in s.clients && !s.clients[c].pc.Done? {
      var e := SomeoneCanStep(s, c);
      EnabledClient(s, e);
    }
  }
}
