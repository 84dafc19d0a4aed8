/**
  Whole runs of the payment system: committed payments are one-to-one, the
  counts of paid rows agree, every session is announced at most once, and the
  interleaved transactions act like transactions run in one piece.
 */
module PaymentHistory {
  import opened PaymentTables
  import opened PaymentProtocol
  import opened PaymentSafety
  import opened Results

  // ---- the log of commits ----

  /** A committed payment stays in the tables. */
  ghost predicate Recorded(t: Tables, i: Input) {
    && PaidSession(t, i.session)
    && t.sessions[i.session].order == i.order && t.sessions[i.session].account == i.account
    && i.request in t.attempts && t.attempts[i.request].session == i.session
    && t.attempts[i.request].result != Processing
  }

  predicate Different(i: Input, j: Input) {
    i.session != j.session && i.order != j.order && i.account != j.account && i.request != j.request
  }

  ghost predicate LogInv(s: State) {
    && (forall k | 0 <= k < |s.commits| :: Recorded(s.tables, s.commits[k]))
    && (forall j, k | 0 <= j < k < |s.commits| :: Different(s.commits[j], s.commits[k]))
  }

  lemma RecordedStays(t: Tables, t': Tables, i: Input)
    requires Recorded(t, i) && Monotone(t, t')
    ensures Recorded(t', i)
  {
    assert SessionKept(t, t', i.session) && AttemptKept(t, t', i.request);
  }

  /** A row that can still be paid belongs to no earlier commit. */
  lemma CommitIsNew(t: Tables, i: Input, earlier: Input)
    requires Consistent(t) && Recorded(t, earlier)
    requires CheckSession(t, i) == Pass && CheckOrder(t, i) == Pass && CheckAccount(t, i) == Pass && CheckAttempt(t, i) == Pass
    ensures Different(earlier, i)
  {
    assert SessionSettled(t, t.sessions[earlier.session]);
  }

  lemma SettleRecords(t: Tables, i: Input)
    requires CheckSession(t, i) == Pass && CheckOrder(t, i) == Pass && CheckAccount(t, i) == Pass && CheckAttempt(t, i) == Pass
    ensures Recorded(Settle(t, i), i)
  {}

  /** Only a commit adds to the log, and only the announcement adds to the announcements. */
  lemma StepLogs(t: Tables, c: Client)
    requires !c.pc.Done?
    ensures ClientStep(t, c).commits == if c.pc.Commit? then [c.Payment()] else []
    ensures ClientStep(t, c).notified == if c.pc.Notify? then [c.sid] else []
  {
    hide PayReads, InitStep;
    if Initialising(c.pc) {
      InitShape(t, c);
    } else if InTransaction(c.pc) && !c.pc.Commit? {
      TransactionShape(t, c);
    } else if c.pc.ReadAttempt? || c.pc.ReadSession? || c.pc.ReadOrder? || c.pc.ReadAccount? || c.pc.ReadBuyer? {
      ReadsShape(t, c);
    }
  }

  lemma ActionKeepsLog(s: State, a: Action)
    requires Inv(s) && Allowed(s, a) && LogInv(s)
    ensures LogInv(Perform(s, a))
    ensures |s.commits| <= |Perform(s, a).commits| && Perform(s, a).commits[..|s.commits|] == s.commits
  {
    hide Monotone, Recorded, ClientStep, Consistent, Different;
    ActionKeepsInv(s, a);
    var s' := Perform(s, a);
    forall k | 0 <= k < |s.commits|
      ensures Recorded(s'.tables, s.commits[k])
    {
      RecordedStays(s.tables, s'.tables, s.commits[k]);
    }
    if a.Step? {
      var c := s.clients[a.client];
      StepLogs(s.tables, c);
      if c.pc.Commit? {
        CommitIsSettle(s.tables, c);
        CommitEffect(s.tables, c);
        SettleRecords(s.tables, c.Payment());
        forall k | 0 <= k < |s.commits|
          ensures Different(s.commits[k], c.Payment())
        {
          CommitIsNew(s.tables, c.Payment(), s.commits[k]);
        }
      }
    }
  }

  lemma CommitEffect(t: Tables, c: Client)
    requires Knows(t, c) && c.pc.Commit?
    ensures CheckSession(t, c.Payment()) == Pass && CheckOrder(t, c.Payment()) == Pass
    ensures CheckAccount(t, c.Payment()) == Pass && CheckAttempt(t, c.Payment()) == Pass
    ensures ClientStep(t, c).tables == Settle(t, c.Payment())
    ensures ClientStep(t, c).client == c.(held := 0, affected := NONE_AFFECTED, pc := MarkSuccess)
  {
    CommitIsSettle(t, c);
  }

  /** The order of a committed payment is paid and its account is sold. */
  ghost predicate Fulfilled(t: Tables, i: Input) {
    && PaidSession(t, i.session)
    && i.order in t.orders && t.orders[i.order].status == OrderStatus.Paid
    && i.account in t.accounts && t.accounts[i.account].status == Sold
  }

  lemma RecordedFulfilled(t: Tables, i: Input)
    requires Consistent(t) && Recorded(t, i)
    ensures Fulfilled(t, i)
  {
    assert SessionSettled(t, t.sessions[i.session]);
  }

  /** In every reachable state the log is one-to-one and every entry is fulfilled. */
  lemma {:induction false} RunOneToOne(states: seq<State>, actions: seq<Action>, k: nat)
    requires Run(states, actions) && Initial(states[0]) && k < |states|
    ensures LogInv(states[k])
    ensures forall n | 0 <= n < |states[k].commits| :: Fulfilled(states[k].tables, states[k].commits[n])
  {
    hide Recorded, Perform, Consistent, Fulfilled;
    RunKeepsInv(states, actions, k);
    if k > 0 {
      RunOneToOne(states, actions, k - 1);
      RunKeepsInv(states, actions, k - 1);
      assert Allowed(states[k - 1], actions[k - 1]);
      ActionKeepsLog(states[k - 1], actions[k - 1]);
    }
    forall n | 0 <= n < |states[k].commits|
      ensures Fulfilled(states[k].tables, states[k].commits[n])
    {
      RecordedFulfilled(states[k].tables, states[k].commits[n]);
    }
  }

  // ---- announcements ----

  /** The client has committed and has not announced the payment yet. */
  predicate Announcing(c: Client) {
    c.pc.MarkSuccess? || c.pc.Notify?
  }

  ghost predicate AnnouncedOnce(s: State) {
    && (forall j, k | 0 <= j < k < |s.notified| :: s.notified[j] != s.notified[k])
    && (forall k | 0 <= k < |s.notified| :: PaidSession(s.tables, s.notified[k]))
    && (forall c, k | c in s.clients && Announcing(s.clients[c]) && 0 <= k < |s.notified| :: s.clients[c].sid != s.notified[k])
    && (forall c, d | c in s.clients && d in s.clients && c != d && Announcing(s.clients[c]) && Announcing(s.clients[d]) ::
          s.clients[c].sid != s.clients[d].sid)
  }

  lemma TransactionDoesNotAnnounce(t: Tables, c: Client)
    requires InTransaction(c.pc) && !c.pc.Commit? && !c.pc.CommitNothing?
    ensures !Announcing(TransactionStep(t, c).client)
  {
    hide CheckSession, CheckOrder, CheckAccount, CheckAttempt, CheckUser, AccountPayable, ReadUser;
  }

  lemma ReadsDoNotAnnounce(t: Tables, c: Client)
    requires c.pc.ReadAttempt? || c.pc.ReadSession? || c.pc.ReadOrder? || c.pc.ReadAccount? || c.pc.ReadBuyer?
    ensures !Announcing(PayReads(t, c).client)
  {}

  /** A client starts announcing only by committing, and stops by announcing once. */
  lemma AnnouncingStep(t: Tables, c: Client)
    requires !c.pc.Done? && !c.pc.CommitNothing?
    ensures var c' := ClientStep(t, c).client;
            Announcing(c') ==> c'.sid == c.sid && (c.pc.Commit? || c.pc.MarkSuccess?)
  {
    hide PayReads, InitStep, TransactionStep, ApplyUpdates;
    if Initialising(c.pc) {
      InitShape(t, c);
    } else if c.pc.Commit? {
      CommitClient(t, c);
    } else if InTransaction(c.pc) {
      TransactionDoesNotAnnounce(t, c);
    } else if c.pc.ReadAttempt? || c.pc.ReadSession? || c.pc.ReadOrder? || c.pc.ReadAccount? || c.pc.ReadBuyer? {
      ReadsDoNotAnnounce(t, c);
    }
  }

  lemma CommitClient(t: Tables, c: Client)
    requires c.pc.Commit?
    ensures TransactionStep(t, c).client == c.(held := 0, affected := NONE_AFFECTED, pc := MarkSuccess)
  {}

  lemma AnnounceMerge(s: State, s': State, a: Id)
    requires AnnouncedOnce(s) && a in s.clients && a in s'.clients && s'.clients == s.clients[a := s'.clients[a]]
    requires s'.notified == s.notified + if s.clients[a].pc.Notify? then [s.clients[a].sid] else []
    requires Announcing(s'.clients[a]) ==>
               && s'.clients[a].sid == s.clients[a].sid
               && (s.clients[a].pc.MarkSuccess? || !PaidSession(s.tables, s.clients[a].sid))
    requires forall sid | PaidSession(s.tables, sid) :: PaidSession(s'.tables, sid)
    requires forall d | d in s.clients && Announcing(s.clients[d]) :: PaidSession(s.tables, s.clients[d].sid)
    ensures AnnouncedOnce(s')
  {
    hide PaidSession;
    var c, c' := s.clients[a], s'.clients[a];
    forall d, k | d in s'.clients && Announcing(s'.clients[d]) && 0 <= k < |s'.notified|
      ensures s'.clients[d].sid != s'.notified[k]
    {
      if k < |s.notified| {
        assert s'.notified[k] == s.notified[k];
        if d == a && !c.pc.MarkSuccess? {
          assert PaidSession(s.tables, s.notified[k]);
        }
      }
    }
  }

  lemma StepKeepsAnnouncements(s: State, a: Id)
    requires Inv(s) && Enabled(s, a) && AnnouncedOnce(s)
    ensures AnnouncedOnce(Advance(s, a))
  {
    var c := s.clients[a];
    var s' := Advance(s, a);
    hide ClientStep, Consistent, ExclusiveLocks, Wants, Locked, Knows, AnnouncedOnce, Monotone;
    StepKeepsInv(s, a);
    StepLogs(s.tables, c);
    NeverCommitsNothing(s.tables, c);
    AnnouncingStep(s.tables, c);
    if c.pc.Commit? {
      CommitIsSettle(s.tables, c);
      assert !PaidSession(s.tables, c.sid);
    }
    forall sid | PaidSession(s.tables, sid)
      ensures PaidSession(s'.tables, sid)
    {
      PaidStays(s.tables, s'.tables, sid);
    }
    forall d | d in s.clients && Announcing(s.clients[d])
      ensures PaidSession(s.tables, s.clients[d].sid)
    {
      AnnouncingIsPaid(s.tables, s.clients[d]);
    }
    AnnounceMerge(s, s', a);
  }

  lemma NeverCommitsNothing(t: Tables, c: Client)
    requires Knows(t, c)
    ensures !c.pc.CommitNothing?
  {}

  lemma PaidStays(t: Tables, t': Tables, sid: Id)
    requires PaidSession(t, sid) && Monotone(t, t')
    ensures PaidSession(t', sid)
  {
    assert SessionKept(t, t', sid);
  }

  lemma AnnouncingIsPaid(t: Tables, c: Client)
    requires Knows(t, c) && Announcing(c)
    ensures PaidSession(t, c.sid)
  {}

  lemma ThrowKeepsAnnouncements(s: State, a: Id)
    requires Inv(s) && a in s.clients && MayThrow(s.clients[a]) && AnnouncedOnce(s)
    ensures AnnouncedOnce(Perform(s, Throw(a)))
  {
    assert Knows(s.tables, s.clients[a]);
    CrashLocal(s.clients[a]);
    assert !Announcing(Crash(s.clients[a]));
    hide Crash, Consistent, ExclusiveLocks, Knows, Announcing, PaidSession, MayThrow;
  }

  lemma OutsideKeepsAnnouncements(s: State, e: Environment)
    requires EnvironmentAllowed(s, e) && AnnouncedOnce(s)
    ensures AnnouncedOnce(Perform(s, Outside(e)))
  {
    EnvironmentMonotone(s, e);
    var s' := Perform(s, Outside(e));
    hide EnvironmentEffect, Monotone, EnvironmentAllowed;
    forall k | 0 <= k < |s.notified|
      ensures PaidSession(s'.tables, s.notified[k])
    {
      PaidStays(s.tables, s'.tables, s.notified[k]);
    }
  }

  lemma ActionKeepsAnnouncements(s: State, a: Action)
    requires Inv(s) && Allowed(s, a) && AnnouncedOnce(s)
    ensures AnnouncedOnce(Perform(s, a))
  {
    match a
    case Step(c) => StepKeepsAnnouncements(s, c);
    case Throw(c) => ThrowKeepsAnnouncements(s, c);
    case Arrive(_, _) =>
    case Outside(e) => OutsideKeepsAnnouncements(s, e);
  }

  /** Over every run, no session is announced twice. */
  lemma {:induction false} RunAnnouncesOnce(states: seq<State>, actions: seq<Action>, k: nat)
    requires Run(states, actions) && Initial(states[0]) && k < |states|
    ensures AnnouncedOnce(states[k])
  {
    hide Perform;
    if k > 0 {
      RunAnnouncesOnce(states, actions, k - 1);
      RunKeepsInv(states, actions, k - 1);
      assert Allowed(states[k - 1], actions[k - 1]);
      ActionKeepsAnnouncements(states[k - 1], actions[k - 1]);
    }
  }

  // ---- answers ----

  /** Whoever was told PAID, by whatever path, has a paid order and a sold account behind it. */
  lemma PaidAnswersAreSound(states: seq<State>, actions: seq<Action>, k: nat, c: Id)
    requires Run(states, actions) && Initial(states[0]) && k < |states|
    requires c in states[k].clients && states[k].clients[c].pc == Done(PaidAnswer)
    ensures var t := states[k].tables;
            var r := states[k].clients[c].request;
            r in t.attempts && PaidSession(t, t.attempts[r].session) && SessionSettled(t, t.sessions[t.attempts[r].session])
  {
    RunKeepsInv(states, actions, k);
    assert Knows(states[k].tables, states[k].clients[c]);
  }

  /**
    Two branches of the transaction are never taken by `handlePay`: the early
    return for an attempt that is already successful, and the rollback for an
    update that did not change exactly one row.
   */
  lemma DeadBranches(states: seq<State>, actions: seq<Action>, k: nat, c: Id)
    requires Run(states, actions) && Initial(states[0]) && k < |states| && c in states[k].clients
    ensures !states[k].clients[c].pc.CommitNothing?
    ensures states[k].clients[c].pc.CheckAffected? ==> states[k].clients[c].affected == Affected(1, 1, 1, 1)
  {
    RunKeepsInv(states, actions, k);
    assert Knows(states[k].tables, states[k].clients[c]);
  }

  // ---- conservation ----

  ghost function PaidOrders(t: Tables): set<Id> {
    set o | o in t.orders && t.orders[o].status == OrderStatus.Paid
  }

  ghost function SoldAccounts(t: Tables): set<Id> {
    set a | a in t.accounts && t.accounts[a].status == Sold
  }

  ghost function PaidSessions(t: Tables): set<Id> {
    set s | s in t.sessions && t.sessions[s].status == SessionStatus.Paid
  }

  /** The sum of the version numbers of all accounts. */
  ghost function Versions(m: map<Id, Account>): nat {
    if m == map[] then 0
    else
      var k :| k in m;
      m[k].version + Versions(m - {k})
  }

  lemma {:induction false} VersionsRemove(m: map<Id, Account>, k: Id)
    requires k in m
    ensures Versions(m) == m[k].version + Versions(m - {k})
  {
    var x :| x in m && Versions(m) == m[x].version + Versions(m - {x});
    if x != k {
      VersionsRemove(m - {x}, k);
      VersionsRemove(m - {k}, x);
      assert m - {x} - {k} == m - {k} - {x};
    }
  }

  lemma VersionsUpdate(m: map<Id, Account>, k: Id, row: Account)
    ensures Versions(m[k := row]) == Versions(m) + row.version - (if k in m then m[k].version else 0)
  {
    VersionsRemove(m[k := row], k);
    assert m[k := row] - {k} == m - {k};
    if k in m {
      VersionsRemove(m, k);
    } else {
      assert m - {k} == m;
    }
  }

  /** The four counts of a state that move with the number of commits. */
  datatype Counts = Counts(orders: nat, accounts: nat, sessions: nat, versions: nat)

  ghost function Count(t: Tables): Counts {
    Counts(|PaidOrders(t)|, |SoldAccounts(t)|, |PaidSessions(t)|, Versions(t.accounts))
  }

  ghost predicate Grew(before: Counts, after: Counts, n: int) {
    && after.orders == before.orders + n && after.accounts == before.accounts + n
    && after.sessions == before.sessions + n && after.versions == before.versions + n
  }

  lemma SettleCounts(t: Tables, i: Input)
    requires CheckSession(t, i) == Pass && CheckOrder(t, i) == Pass && CheckAccount(t, i) == Pass && CheckAttempt(t, i) == Pass
    ensures Grew(Count(t), Count(Settle(t, i)), 1)
  {
    var t' := Settle(t, i);
    assert PaidOrders(t') == PaidOrders(t) + {i.order};
    assert SoldAccounts(t') == SoldAccounts(t) + {i.account};
    assert PaidSessions(t') == PaidSessions(t) + {i.session};
    VersionsUpdate(t.accounts, i.account, t'.accounts[i.account]);
  }

  lemma SamePaidRows(t: Tables, t': Tables)
    requires t'.orders == t.orders && t'.accounts == t.accounts
    requires forall s :: PaidSession(t', s) <==> PaidSession(t, s)
    ensures Grew(Count(t), Count(t'), 0)
  {
    assert PaidOrders(t') == PaidOrders(t);
    assert SoldAccounts(t') == SoldAccounts(t);
    assert PaidSessions(t') == PaidSessions(t) by {
      forall s
        ensures s in PaidSessions(t') <==> s in PaidSessions(t)
      {
        assert PaidSession(t', s) <==> PaidSession(t, s);
      }
    }
  }

  lemma EnvironmentCounts(s: State, e: Environment)
    requires EnvironmentAllowed(s, e)
    ensures Grew(Count(s.tables), Count(EnvironmentEffect(s.tables, e)), 0)
  {
    var t, t' := s.tables, EnvironmentEffect(s.tables, e);
    assert PaidOrders(t') == PaidOrders(t);
    assert SoldAccounts(t') == SoldAccounts(t);
    assert PaidSessions(t') == PaidSessions(t);
    match e
    case MoveAccount(id, _) => VersionsUpdate(t.accounts, id, t'.accounts[id]);
    case NewAccount(id, row) => VersionsUpdate(t.accounts, id, row);
    case _ =>
  }

  lemma StepCounts(s: State, a: Id)
    requires Inv(s) && Enabled(s, a)
    ensures Grew(Count(s.tables), Count(Advance(s, a).tables), |Advance(s, a).commits| - |s.commits|)
  {
    var c := s.clients[a];
    assert Knows(s.tables, c);
    StepLogs(s.tables, c);
    if c.pc.Commit? {
      CommitEffect(s.tables, c);
      SettleCounts(s.tables, c.Payment());
    } else {
      StepTouches(s.tables, c);
      SamePaidRows(s.tables, ClientStep(s.tables, c).tables);
    }
  }

  lemma WritesTouch(t: Tables, c: Client)
    requires c.pc.Acquire? || c.pc.MarkFailed? || c.pc.HandlerMark? || c.pc.MarkSuccess? || c.pc.Notify?
    ensures PayWrites(t, c).tables == t.(attempts := PayWrites(t, c).tables.attempts)
  {}

  /** Apart from the commit, a client changes no order, no account, and no session but by adding one. */
  lemma StepTouches(t: Tables, c: Client)
    requires !c.pc.Done? && !c.pc.Commit?
    requires c.pc.ConfirmInsert? ==> c.session.status == WaitingPay
    ensures var t' := ClientStep(t, c).tables;
            && t'.orders == t.orders && t'.accounts == t.accounts && t'.users == t.users
            && (!c.pc.ConfirmInsert? ==> t'.sessions == t.sessions)
            && (forall s :: PaidSession(t', s) <==> PaidSession(t, s))
  {
    hide PayReads, TransactionStep, InitStep, PayWrites;
    if Initialising(c.pc) {
      InitShape(t, c);
    } else if InTransaction(c.pc) {
      TransactionShape(t, c);
    } else if c.pc.ReadAttempt? || c.pc.ReadSession? || c.pc.ReadOrder? || c.pc.ReadAccount? || c.pc.ReadBuyer? {
      ReadsShape(t, c);
    } else {
      WritesTouch(t, c);
    }
  }

  lemma ActionCounts(s: State, a: Action)
    requires Inv(s) && Allowed(s, a)
    ensures Grew(Count(s.tables), Count(Perform(s, a).tables), |Perform(s, a).commits| - |s.commits|)
  {
    match a
    case Step(c) => StepCounts(s, c);
    case Throw(_) =>
    case Arrive(_, _) =>
    case Outside(e) => EnvironmentCounts(s, e);
  }

  /**
    Over every run the number of commits is the number of orders that became
    paid, of accounts that became sold, of sessions that became paid, and the
    total rise of the account versions.
   */
  lemma {:induction false} RunConserves(states: seq<State>, actions: seq<Action>, k: nat)
    requires Run(states, actions) && Initial(states[0]) && k < |states|
    ensures Grew(Count(states[0].tables), Count(states[k].tables), |states[k].commits|)
  {
    hide Count, Perform;
    if k > 0 {
      RunConserves(states, actions, k - 1);
      RunKeepsInv(states, actions, k - 1);
      assert Allowed(states[k - 1], actions[k - 1]);
      ActionCounts(states[k - 1], actions[k - 1]);
    }
  }

  // ---- the transaction in one piece ----

  /** The same system with `finalizePaymentSuccess` as a single action. */
  datatype Atomic =
    | Nothing
    | RunFinalize(input: Input, user: Option<User>)
    | SetAttempt(request: Id, result: AttemptResult, reason: string)
    | AddAttempt(id: Id, attempt: Attempt)
    | AddSession(id: Id, session: Session)
    | Business(change: Environment)

  ghost function AtomicEffect(t: Tables, a: Atomic): Tables {
    match a
    case Nothing => t
    case RunFinalize(i, user) => (match Finalize(t, i, user) case Committed(t') => t' case _ => t)
    case SetAttempt(r, result, reason) => SetResult(t, r, result, reason)
    case AddAttempt(id, row) => t.(attempts := t.attempts[id := row])
    case AddSession(id, row) => t.(sessions := t.sessions[id := row])
    case Business(e) => EnvironmentEffect(t, e)
  }

  ghost predicate AtomicAllowed(s: State, a: Atomic) {
    match a
    case RunFinalize(i, user) => Finalize(s.tables, i, user).Committed?
    case SetAttempt(_, result, _) => result != Processing
    case AddAttempt(id, row) => id !in s.tables.attempts && row.result == Processing
    case AddSession(id, row) => id !in s.tables.sessions && row.status == WaitingPay
    case Business(e) => EnvironmentAllowed(s, e)
    case Nothing => true
  }

  /** The atomic action that a fine-grained one amounts to. */
  ghost function AtomicOf(s: State, a: Action): Atomic
    requires Allowed(s, a)
  {
    match a
    case Step(id) => (
      var c := s.clients[id];
      var t' := ClientStep(s.tables, c).tables;
      match c.pc
      case Commit => RunFinalize(c.Payment(), c.auth)
      case MarkFailed(reason) => SetAttempt(c.request, Failed, reason)
      case HandlerMark(reason, _) => SetAttempt(c.request, Failed, reason)
      case MarkSuccess => SetAttempt(c.request, Success, "")
      case InitInsert => if t' != s.tables && c.newId in t'.attempts then AddAttempt(c.newId, t'.attempts[c.newId]) else Nothing
      case ConfirmInsert => if t' != s.tables then AddSession(c.newId, c.session) else Nothing
      case _ => Nothing)
    case Throw(_) => Nothing
    case Arrive(_, _) => Nothing
    case Outside(e) => Business(e)
  }

  lemma CommitIsAtomic(s: State, a: Id)
    requires Inv(s) && Enabled(s, a) && s.clients[a].pc.Commit?
    ensures AtomicAllowed(s, AtomicOf(s, Step(a)))
    ensures Advance(s, a).tables == AtomicEffect(s.tables, AtomicOf(s, Step(a)))
  {
    assert Knows(s.tables, s.clients[a]);
    CommitEffect(s.tables, s.clients[a]);
    CommitIsSettle(s.tables, s.clients[a]);
    hide Knows, Consistent, ExclusiveLocks, ClientStep, Finalize, Settle;
  }

  lemma InsertIsAtomic(s: State, a: Id)
    requires Enabled(s, a) && Initialising(s.clients[a].pc)
    requires s.clients[a].pc.ConfirmInsert? ==> s.clients[a].session.status == WaitingPay
    ensures AtomicAllowed(s, AtomicOf(s, Step(a)))
    ensures Advance(s, a).tables == AtomicEffect(s.tables, AtomicOf(s, Step(a)))
  {
    var c := s.clients[a];
    hide InitStep, Locked, Wants;
    InitShape(s.tables, c);
    assert ClientStep(s.tables, c) == InitStep(s.tables, c);
    hide ClientStep;
    var act := AtomicOf(s, Step(a));
    if c.pc.InitInsert? {
      assert act.Nothing? || act.AddAttempt?;
    } else if c.pc.ConfirmInsert? {
      assert act.Nothing? || act.AddSession?;
    } else {
      assert act == Nothing;
    }
  }

  lemma OtherStepIsAtomic(s: State, a: Id)
    requires Enabled(s, a) && !s.clients[a].pc.Commit? && !Initialising(s.clients[a].pc)
    ensures AtomicAllowed(s, AtomicOf(s, Step(a)))
    ensures Advance(s, a).tables == AtomicEffect(s.tables, AtomicOf(s, Step(a)))
  {
    var c := s.clients[a];
    hide PayReads, TransactionStep, SetResult, Locked, Wants;
    if InTransaction(c.pc) {
      TransactionShape(s.tables, c);
    } else if c.pc.ReadAttempt? || c.pc.ReadSession? || c.pc.ReadOrder? || c.pc.ReadAccount? || c.pc.ReadBuyer? {
      ReadsShape(s.tables, c);
    }
  }

  /** Every fine-grained action has exactly the effect of an atomic one; locking, reading and updating have none. */
  lemma ActionIsAtomic(s: State, a: Action)
    requires Inv(s) && Allowed(s, a)
    ensures AtomicAllowed(s, AtomicOf(s, a))
    ensures Perform(s, a).tables == AtomicEffect(s.tables, AtomicOf(s, a))
  {
    if a.Step? {
      hide AtomicAllowed, AtomicOf, AtomicEffect, Advance;
      if s.clients[a.client].pc.Commit? {
        CommitIsAtomic(s, a.client);
      } else if Initialising(s.clients[a.client].pc) {
        assert Knows(s.tables, s.clients[a.client]);
        InsertIsAtomic(s, a.client);
      } else {
        OtherStepIsAtomic(s, a.client);
      }
    }
  }

  /**
    A refusal is decided on the tables of one moment: when a locking read or
    the user check sends the transaction to its rollback, running the whole
    transaction at that moment would be refused with the same mark.
   */
  lemma RefusalIsAtomic(t: Tables, c: Client)
    requires Knows(t, c) && Consistent(t)
    requires c.pc.LockSession? || c.pc.LockOrder? || c.pc.LockAccount? || c.pc.LockAttempt? || c.pc.ReadAuth?
    ensures var next := ClientStep(t, c).client.pc;
            next.Rollback? <==> !PassesSoFar(t, c)
    ensures var next := ClientStep(t, c).client.pc;
            next.Rollback? ==> Finalize(t, c.Payment(), ReadUser(t, c.session.buyer)) == Rejected(next.mark)
  {
    if c.pc.LockAttempt? {
      NotYetSuccessful(t, c);
    }
    hide CheckSession, CheckOrder, CheckAccount, CheckAttempt, CheckUser, Consistent, Remembers;
  }

  /** The check made by this step passes. */
  ghost predicate PassesSoFar(t: Tables, c: Client) {
    match c.pc
    case LockSession => CheckSession(t, c.Payment()) == Pass
    case LockOrder => CheckOrder(t, c.Payment()) == Pass
    case LockAccount => CheckAccount(t, c.Payment()) == Pass
    case LockAttempt => CheckAttempt(t, c.Payment()) == Pass
    case _ => CheckUser(ReadUser(t, c.session.buyer)) == Pass
  }
}
