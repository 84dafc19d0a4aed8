/**
  What holds in every reachable state of the payment system: what a client
  knows about the rows it has read and locked, that the tables stay
  consistent, and that the transaction behaves as if it ran in one piece.
 */
module PaymentSafety {
  import opened PaymentTables
  import opened PaymentProtocol
  import opened Results

  // ---- what one client knows ----

  predicate PastAttempt(pc: Pc) {
    pc.ReadSession? || PastSession(pc)
  }

  predicate PastSession(pc: Pc) {
    || pc.ReadOrder? || pc.ReadAccount? || pc.ReadBuyer? || pc.Acquire? || InTransaction(pc)
    || pc.MarkSuccess? || pc.Notify?
  }

  /** How many rows the transaction has locked when it stands at `pc`. */
  predicate HeldAt(pc: Pc, held: nat) {
    match pc
    case Begin => held == 0
    case LockSession => held == 0
    case LockOrder => held == 1
    case LockAccount => held == 2
    case LockAttempt => held == 3
    case Rollback(_) => held <= 4
    case CommitNothing => false
    case _ => if InTransaction(pc) then held == 4 else held == 0
  }

  /** The updates made so far have each changed exactly one row, the others none. */
  predicate AffectedAt(pc: Pc, n: Affected) {
    match pc
    case UpdateAccount => n == Affected(1, 0, 0, 0)
    case UpdateSession => n == Affected(1, 1, 0, 0)
    case UpdateAttempt => n == Affected(1, 1, 1, 0)
    case CheckAffected => n == Affected(1, 1, 1, 1)
    case Commit => n == Affected(1, 1, 1, 1)
    case Rollback(_) => true
    case _ => n == NONE_AFFECTED
  }

  predicate Authorised(pc: Pc) {
    || pc.UpdateOrder? || pc.UpdateAccount? || pc.UpdateSession? || pc.UpdateAttempt?
    || pc.CheckAffected? || pc.Commit?
  }

  ghost predicate SameAttempt(t: Tables, c: Client) {
    && c.request in t.attempts
    && var row := t.attempts[c.request];
       row.session == c.attempt.session && row.order == c.attempt.order
       && row.account == c.attempt.account && row.buyer == c.attempt.buyer
  }

  ghost predicate SameSession(t: Tables, c: Client) {
    && c.attempt.session == c.sid && c.sid in t.sessions
    && t.sessions[c.sid].(status := c.session.status) == c.session
  }

  /** The checks made under locks still hold of the tables as they are now. */
  ghost predicate LocksGuard(t: Tables, c: Client) {
    && (c.held >= 1 ==> CheckSession(t, c.Payment()) == Pass)
    && (c.held >= 2 ==> CheckOrder(t, c.Payment()) == Pass)
    && (c.held >= 3 ==> CheckAccount(t, c.Payment()) == Pass)
    && (c.held >= 4 ==> CheckAttempt(t, c.Payment()) == Pass)
  }

  /** The payment of this client is in the tables for good. */
  ghost predicate Settled(t: Tables, c: Client) {
    && c.request in t.attempts && t.attempts[c.request].session == c.sid
    && t.attempts[c.request].result != Processing && PaidSession(t, c.sid)
  }

  /** The program counter agrees with the locks taken and the rows updated. */
  predicate Placed(c: Client) {
    && HeldAt(c.pc, c.held) && AffectedAt(c.pc, c.affected)
    && (Authorised(c.pc) ==> CheckUser(c.auth) == Pass)
    && (c.pc.ConfirmAccount? || c.pc.ConfirmFind? || c.pc.ConfirmInsert? ==> c.session.status == WaitingPay)
  }

  ghost predicate Remembers(t: Tables, c: Client) {
    && (PastAttempt(c.pc) ==> SameAttempt(t, c))
    && (PastSession(c.pc) ==> SameSession(t, c))
    && (c.pc.MarkSuccess? || c.pc.Notify? ==> Settled(t, c))
    && (c.pc == Done(PaidAnswer) ==> c.request in t.attempts && PaidSession(t, t.attempts[c.request].session))
  }

  ghost predicate Knows(t: Tables, c: Client) {
    Placed(c) && Remembers(t, c) && LocksGuard(t, c)
  }

  /** The rows locked by `c` are the same in both states. */
  ghost predicate LockedRowsKept(t: Tables, t': Tables, c: Client) {
    && (c.held > 0 && c.sid in t.sessions ==> c.sid in t'.sessions && t'.sessions[c.sid] == t.sessions[c.sid])
    && (c.held > 1 && c.session.order in t.orders ==>
          c.session.order in t'.orders && t'.orders[c.session.order] == t.orders[c.session.order])
    && (c.held > 2 && c.session.account in t.accounts ==>
          c.session.account in t'.accounts && t'.accounts[c.session.account] == t.accounts[c.session.account])
    && (c.held > 3 && c.request in t.attempts ==>
          c.request in t'.attempts && t'.attempts[c.request] == t.attempts[c.request])
  }

  /** Nothing another party may do takes a client's knowledge away. */
  lemma KnowledgeIsStable(t: Tables, t': Tables, c: Client)
    requires Knows(t, c) && Monotone(t, t') && LockedRowsKept(t, t', c)
    ensures Knows(t', c)
  {
    if c.request in t.attempts {
      assert AttemptKept(t, t', c.request);
      var sid := t.attempts[c.request].session;
      if sid in t.sessions {
        assert SessionKept(t, t', sid);
      }
    }
    if c.sid in t.sessions {
      assert SessionKept(t, t', c.sid);
    }
  }

  // ---- one step of one client ----

  lemma MonotoneRefl(t: Tables)
    ensures Monotone(t, t)
  {}

  lemma SetResultMonotone(t: Tables, request: Id, result: AttemptResult, reason: string)
    requires result != Processing
    ensures Monotone(t, SetResult(t, request, result, reason))
  {}

  /** At the commit point all four updates are in place and the effect is `Settle`. */
  lemma CommitIsSettle(t: Tables, c: Client)
    requires Knows(t, c) && c.pc.Commit?
    ensures CheckSession(t, c.Payment()) == Pass && CheckOrder(t, c.Payment()) == Pass
    ensures CheckAccount(t, c.Payment()) == Pass && CheckAttempt(t, c.Payment()) == Pass
    ensures ApplyUpdates(t, c) == Settle(t, c.Payment())
    ensures Finalize(t, c.Payment(), c.auth) == Committed(ApplyUpdates(t, c))
  {}

  lemma ReadsShape(t: Tables, c: Client)
    requires c.pc.ReadAttempt? || c.pc.ReadSession? || c.pc.ReadOrder? || c.pc.ReadAccount? || c.pc.ReadBuyer?
    ensures PayReads(t, c).tables == t
    ensures PayReads(t, c).commits == [] && PayReads(t, c).notified == []
    ensures PayReads(t, c).client.held == c.held
  {}

  lemma TransactionShape(t: Tables, c: Client)
    requires InTransaction(c.pc) && !c.pc.Commit?
    ensures TransactionStep(t, c).tables == t
    ensures TransactionStep(t, c).commits == [] && TransactionStep(t, c).notified == []
  {}

  /** What a step of `handleAttemptInit` or `handleConfirm` can do: at most one insertion, and no claim to a payment. */
  ghost predicate InitShaped(t: Tables, c: Client, e: Effect) {
    && (!c.pc.InitInsert? && !c.pc.ConfirmInsert? ==> e.tables == t)
    && (c.pc.InitInsert? ==> e.tables == t || InsertsAttempt(t, e.tables, c.newId))
    && (c.pc.ConfirmInsert? ==> e.tables == t || InsertsSession(t, e.tables, c.newId, c.session))
    && e.commits == [] && e.notified == []
    && e.client.held == c.held && e.client.affected == c.affected
    && (e.client.pc.ConfirmAccount? || e.client.pc.ConfirmFind? || e.client.pc.ConfirmInsert? ==>
          e.client.session.status == WaitingPay || (c.session == e.client.session && (c.pc.ConfirmAccount? || c.pc.ConfirmFind?)))
    && (Initialising(e.client.pc) || (e.client.pc.Done? && e.client.pc != Done(PaidAnswer)))
  }

  lemma AttemptInitShape(t: Tables, c: Client)
    requires c.pc.InitSession? || c.pc.InitOrder? || c.pc.InitAccount? || c.pc.InitInsert?
    ensures InitShaped(t, c, InitStep(t, c))
  {
    hide AccountPayable, SessionOf;
  }

  lemma ConfirmReadsShape(t: Tables, c: Client)
    requires c.pc.ConfirmUser? || c.pc.ConfirmOrder? || c.pc.ConfirmAccount?
    ensures InitShaped(t, c, InitStep(t, c))
  {
    hide AccountPayable, SessionOf;
  }

  lemma ConfirmEndShape(t: Tables, c: Client)
    requires c.pc.ConfirmFind? || c.pc.ConfirmInsert?
    ensures InitShaped(t, c, InitStep(t, c))
  {
    hide AccountPayable, SessionOf;
  }

  lemma InitShape(t: Tables, c: Client)
    requires Initialising(c.pc)
    ensures InitShaped(t, c, InitStep(t, c))
  {
    hide InitStep, InitShaped;
    if c.pc.InitSession? || c.pc.InitOrder? || c.pc.InitAccount? || c.pc.InitInsert? {
      AttemptInitShape(t, c);
    } else if c.pc.ConfirmFind? || c.pc.ConfirmInsert? {
      ConfirmEndShape(t, c);
    } else {
      ConfirmReadsShape(t, c);
    }
  }

  ghost predicate InsertsAttempt(t: Tables, t': Tables, id: Id) {
    && id !in t.attempts && id in t'.attempts && t'.attempts[id].result == Processing
    && t' == t.(attempts := t.attempts[id := t'.attempts[id]])
  }

  ghost predicate InsertsSession(t: Tables, t': Tables, id: Id, row: Session) {
    id !in t.sessions && t' == t.(sessions := t.sessions[id := row])
  }

  lemma InsertMonotone(t: Tables, t': Tables, id: Id, row: Session)
    requires InsertsAttempt(t, t', id) || InsertsSession(t, t', id, row)
    ensures Monotone(t, t')
  {}

  lemma ClientStepMonotone(t: Tables, c: Client)
    requires Knows(t, c) && !c.pc.Done?
    ensures Monotone(t, ClientStep(t, c).tables)
  {
    hide PayReads, TransactionStep, InitStep, Monotone, Knows, SetResult;
    MonotoneRefl(t);
    if Initialising(c.pc) {
      InitShape(t, c);
      if InitStep(t, c).tables != t {
        InsertMonotone(t, InitStep(t, c).tables, c.newId, c.session);
      }
    } else if c.pc.Commit? {
      CommitMonotone(t, c);
    } else if InTransaction(c.pc) {
      TransactionShape(t, c);
    } else if c.pc.MarkFailed? {
      SetResultMonotone(t, c.request, Failed, c.pc.reason);
    } else if c.pc.HandlerMark? {
      SetResultMonotone(t, c.request, Failed, c.pc.reason);
    } else if c.pc.MarkSuccess? {
      SetResultMonotone(t, c.request, Success, "");
    } else if !c.pc.Acquire? && !c.pc.Notify? {
      ReadsShape(t, c);
    }
  }

  lemma CommitMonotone(t: Tables, c: Client)
    requires Knows(t, c) && c.pc.Commit?
    ensures Monotone(t, TransactionStep(t, c).tables)
    ensures TransactionStep(t, c).tables == Settle(t, c.Payment())
  {
    CommitIsSettle(t, c);
    SettleMonotone(t, c.Payment());
  }

  lemma SettleMonotone(t: Tables, i: Input)
    requires CheckSession(t, i) == Pass && CheckOrder(t, i) == Pass && CheckAccount(t, i) == Pass && CheckAttempt(t, i) == Pass
    ensures Monotone(t, Settle(t, i))
  {}

  lemma SettleConsistent(t: Tables, i: Input)
    requires Consistent(t)
    requires CheckSession(t, i) == Pass && CheckOrder(t, i) == Pass && CheckAccount(t, i) == Pass && CheckAttempt(t, i) == Pass
    ensures Consistent(Settle(t, i))
  {
    var t' := Settle(t, i);
    forall r | r in t'.attempts && t'.attempts[r].result == Success
      ensures PaidSession(t', t'.attempts[r].session)
    {
      if r != i.request {
        assert PaidSession(t, t.attempts[r].session);
      }
    }
    forall s | PaidSession(t', s)
      ensures SessionSettled(t', t'.sessions[s])
    {
      if s != i.session {
        assert PaidSession(t, s);
      }
    }
  }

  /** Closing a row that is not paid, or adding one, keeps the tables consistent. */
  lemma MonotoneKeepsConsistent(t: Tables, t': Tables)
    requires Consistent(t) && Monotone(t, t')
    requires forall s | PaidSession(t', s) :: PaidSession(t, s)
    requires forall r | r in t'.attempts && t'.attempts[r].result == Success :: PaidSession(t', t'.attempts[r].session)
    ensures Consistent(t')
  {
    forall s | PaidSession(t', s)
      ensures SessionSettled(t', t'.sessions[s])
    {
      assert PaidSession(t, s) && SessionKept(t, t', s);
      var row := t.sessions[s];
      assert SessionSettled(t, row);
      assert OrderKept(t, t', row.order) && AccountKept(t, t', row.account);
    }
  }

  lemma SetResultConsistent(t: Tables, request: Id, result: AttemptResult, reason: string)
    requires Consistent(t) && result != Processing
    requires result == Success && request in t.attempts ==> PaidSession(t, t.attempts[request].session)
    ensures Consistent(SetResult(t, request, result, reason))
  {
    var t' := SetResult(t, request, result, reason);
    SetResultMonotone(t, request, result, reason);
    forall r | r in t'.attempts && t'.attempts[r].result == Success
      ensures PaidSession(t', t'.attempts[r].session)
    {
      if r != request {
        assert PaidSession(t, t.attempts[r].session);
      }
    }
    forall s | PaidSession(t', s)
      ensures PaidSession(t, s)
    {}
    MonotoneKeepsConsistent(t, t');
  }

  lemma InsertConsistent(t: Tables, t': Tables, id: Id, row: Session)
    requires Consistent(t)
    requires InsertsAttempt(t, t', id) || (InsertsSession(t, t', id, row) && row.status != SessionStatus.Paid)
    ensures Consistent(t')
  {
    InsertMonotone(t, t', id, row);
    forall s | PaidSession(t', s)
      ensures PaidSession(t, s)
    {}
    forall r | r in t'.attempts && t'.attempts[r].result == Success
      ensures PaidSession(t', t'.attempts[r].session)
    {
      assert PaidSession(t, t.attempts[r].session);
    }
    MonotoneKeepsConsistent(t, t');
  }

  lemma ClientStepConsistent(t: Tables, c: Client)
    requires Knows(t, c) && Consistent(t) && !c.pc.Done?
    ensures Consistent(ClientStep(t, c).tables)
  {
    hide PayReads, TransactionStep, InitStep, Consistent, SetResult, Settle;
    if Initialising(c.pc) {
      InitShape(t, c);
      if InitStep(t, c).tables != t {
        InsertConsistent(t, InitStep(t, c).tables, c.newId, c.session);
      }
    } else if c.pc.Commit? {
      CommitIsSettle(t, c);
      CommitMonotone(t, c);
      SettleConsistent(t, c.Payment());
    } else if InTransaction(c.pc) {
      TransactionShape(t, c);
    } else if c.pc.MarkFailed? {
      SetResultConsistent(t, c.request, Failed, c.pc.reason);
    } else if c.pc.HandlerMark? {
      SetResultConsistent(t, c.request, Failed, c.pc.reason);
    } else if c.pc.MarkSuccess? {
      SetResultConsistent(t, c.request, Success, "");
    } else if !c.pc.Acquire? && !c.pc.Notify? {
      ReadsShape(t, c);
    }
  }

  /** Moving on without claiming anything new. */
  predicate NothingNew(pc: Pc, next: Pc) {
    && (PastAttempt(next) ==> PastAttempt(pc)) && (PastSession(next) ==> PastSession(pc))
    && !next.MarkSuccess? && !next.Notify? && next != Done(PaidAnswer)
  }

  lemma MoveKnows(t: Tables, c: Client, c': Client)
    requires Remembers(t, c) && NothingNew(c.pc, c'.pc)
    requires c'.(pc := c.pc, held := c.held, affected := c.affected, auth := c.auth) == c
    requires Placed(c') && LocksGuard(t, c')
    ensures Knows(t, c')
  {
    hide LocksGuard, Placed, PastAttempt, PastSession;
  }

  lemma SameGuard(t: Tables, c: Client, c': Client)
    requires c'.(pc := c.pc, held := c.held, affected := c.affected, auth := c.auth) == c
    requires LocksGuard(t, c)
    ensures c'.held <= c.held ==> LocksGuard(t, c')
    ensures c'.Payment() == c.Payment()
  {
    hide CheckSession, CheckOrder, CheckAccount, CheckAttempt;
  }

  lemma RollbackKnows(t: Tables, c: Client, mark: Option<string>)
    requires Knows(t, c) && InTransaction(c.pc)
    ensures Knows(t, c.Goto(Rollback(mark)))
  {
    SameGuard(t, c, c.Goto(Rollback(mark)));
    RollbackPlaced(c, mark);
    hide *;
    MoveKnows(t, c, c.Goto(Rollback(mark)));
  }

  lemma RollbackPlaced(c: Client, mark: Option<string>)
    requires Placed(c) && InTransaction(c.pc)
    ensures Placed(c.Goto(Rollback(mark))) && NothingNew(c.pc, Rollback(mark))
  {}

  /** Moves outside the updates that leave every local variable as it is. */
  lemma PlainMove(t: Tables, c: Client, next: Pc)
    requires Knows(t, c) && c.held == 0 && c.affected == NONE_AFFECTED
    requires NothingNew(c.pc, next) && HeldAt(next, 0) && !next.Rollback?
    requires !next.ConfirmAccount? && !next.ConfirmFind? && !next.ConfirmInsert?
    ensures Knows(t, c.Goto(next))
  {
    var c' := c.Goto(next);
    assert Placed(c');
    hide Placed, Remembers, NothingNew, CheckSession, CheckOrder, CheckAccount, CheckAttempt, HeldAt;
    MoveKnows(t, c, c');
  }

  lemma AttemptPaid(t: Tables, c: Client)
    requires Knows(t, c) && Consistent(t) && c.pc.ReadAttempt? && c.request in t.attempts
    requires t.attempts[c.request].result == Success
    ensures Knows(t, c.Goto(Done(PaidAnswer)))
  {
    assert PaidSession(t, t.attempts[c.request].session);
    hide CheckSession, CheckOrder, CheckAccount, CheckAttempt, CheckUser, Consistent;
  }

  lemma AttemptRead(t: Tables, c: Client)
    requires Knows(t, c) && c.pc.ReadAttempt? && c.request in t.attempts
    ensures Knows(t, c.(attempt := t.attempts[c.request], pc := ReadSession))
  {
    hide CheckSession, CheckOrder, CheckAccount, CheckAttempt, CheckUser, PaidSession;
  }

  lemma SessionRead(t: Tables, c: Client, sid: Id)
    requires Knows(t, c) && c.pc.ReadSession? && sid in t.sessions && c.attempt.session == sid
    ensures Knows(t, c.(sid := sid, session := t.sessions[sid], pc := ReadOrder))
  {
    hide CheckSession, CheckOrder, CheckAccount, CheckAttempt, CheckUser;
  }

  lemma PriceRead(t: Tables, c: Client, price: int)
    requires Knows(t, c) && c.pc.ReadOrder?
    ensures Knows(t, c.(price := price, pc := ReadAccount))
  {
    hide CheckSession, CheckOrder, CheckAccount, CheckAttempt, CheckUser;
  }

  lemma IdleClient(c: Client)
    requires Placed(c) && !InTransaction(c.pc)
    ensures c.held == 0 && c.affected == NONE_AFFECTED
  {}

  /** Giving up claims nothing. */
  lemma GiveUp(t: Tables, c: Client, next: Pc)
    requires Knows(t, c) && !InTransaction(c.pc)
    requires next.HandlerMark? || (next.Done? && next != Done(PaidAnswer))
    ensures Knows(t, c.Goto(next))
  {
    IdleClient(c);
    assert NothingNew(c.pc, next) && HeldAt(next, 0);
    hide Knows, NothingNew, HeldAt;
    PlainMove(t, c, next);
  }

  lemma ReadOnward(t: Tables, c: Client)
    requires Knows(t, c) && (c.pc.ReadAccount? || c.pc.ReadBuyer?)
    ensures Knows(t, c.Goto(if c.pc.ReadAccount? then ReadBuyer else Acquire))
  {
    IdleClient(c);
    var next := if c.pc.ReadAccount? then ReadBuyer else Acquire;
    assert NothingNew(c.pc, next) && HeldAt(next, 0);
    hide Knows, NothingNew, HeldAt;
    PlainMove(t, c, next);
  }

  lemma AttemptReadKnows(t: Tables, c: Client)
    requires Knows(t, c) && Consistent(t) && c.pc.ReadAttempt?
    ensures Knows(t, PayReads(t, c).client)
  {
    var c' := PayReads(t, c).client;
    hide Knows, Consistent, AccountPayable;
    if c'.pc.HandlerMark? || (c'.pc.Done? && c'.pc != Done(PaidAnswer)) {
      GiveUp(t, c, c'.pc);
    } else if c'.pc.Done? {
      AttemptPaid(t, c);
    } else {
      AttemptRead(t, c);
    }
  }

  lemma SessionReadKnows(t: Tables, c: Client)
    requires Knows(t, c) && c.pc.ReadSession?
    ensures Knows(t, PayReads(t, c).client)
  {
    var c' := PayReads(t, c).client;
    hide Knows, AccountPayable;
    if c'.pc.HandlerMark? || c'.pc.Done? {
      GiveUp(t, c, c'.pc);
    } else {
      SessionRead(t, c, c.token.value);
    }
  }

  lemma ReadsKnow(t: Tables, c: Client)
    requires Knows(t, c) && Consistent(t)
    requires c.pc.ReadAttempt? || c.pc.ReadSession? || c.pc.ReadOrder? || c.pc.ReadAccount? || c.pc.ReadBuyer?
    ensures Knows(t, PayReads(t, c).client)
  {
    hide Knows, Consistent, AccountPayable;
    if c.pc.ReadAttempt? {
      hide PayReads;
      AttemptReadKnows(t, c);
    } else if c.pc.ReadSession? {
      hide PayReads;
      SessionReadKnows(t, c);
    } else {
      var c' := PayReads(t, c).client;
      if c'.pc.HandlerMark? || c'.pc.Done? {
        GiveUp(t, c, c'.pc);
      } else if c.pc.ReadOrder? {
        PriceRead(t, c, t.orders[c.session.order].price);
      } else {
        ReadOnward(t, c);
      }
    }
  }

  /** A lock was granted and its check passed. */
  lemma LockKnows(t: Tables, c: Client, next: Client)
    requires Knows(t, c)
    requires (c.pc, next) in
               [(LockSession, c.(held := 1, pc := LockOrder)), (LockOrder, c.(held := 2, pc := LockAccount)),
                (LockAccount, c.(held := 3, pc := LockAttempt)), (LockAttempt, c.(held := 4, pc := ReadAuth))]
    requires next.held >= 1 ==> CheckSession(t, c.Payment()) == Pass
    requires next.held >= 2 ==> CheckOrder(t, c.Payment()) == Pass
    requires next.held >= 3 ==> CheckAccount(t, c.Payment()) == Pass
    requires next.held >= 4 ==> CheckAttempt(t, c.Payment()) == Pass
    ensures Knows(t, next)
  {
    hide CheckSession, CheckOrder, CheckAccount, CheckAttempt, CheckUser, Remembers;
    SameGuard(t, c, next);
    assert Placed(next) && NothingNew(c.pc, next.pc) && LocksGuard(t, next);
    MoveKnows(t, c, next);
  }

  /** Under the session lock the attempt cannot already be successful: its session would be paid. */
  lemma NotYetSuccessful(t: Tables, c: Client)
    requires Remembers(t, c) && Consistent(t) && PastSession(c.pc) && CheckSession(t, c.Payment()) == Pass
    ensures CheckAttempt(t, c.Payment()) != AlreadyPaid
  {
    assert PaidSession(t, c.sid) == (c.sid in t.sessions && t.sessions[c.sid].status == SessionStatus.Paid);
  }

  lemma LockingReadsKnow(t: Tables, c: Client)
    requires Knows(t, c) && Consistent(t)
    requires c.pc.LockSession? || c.pc.LockOrder? || c.pc.LockAccount? || c.pc.LockAttempt?
    ensures Knows(t, TransactionStep(t, c).client)
  {
    var i := c.Payment();
    hide CheckSession, CheckOrder, CheckAccount, CheckAttempt, CheckUser, Remembers, Consistent;
    match c.pc
    case LockSession =>
      if CheckSession(t, i) == Pass { LockKnows(t, c, c.(held := 1, pc := LockOrder)); }
      else { RollbackKnows(t, c, CheckSession(t, i).mark); }
    case LockOrder =>
      if CheckOrder(t, i) == Pass { LockKnows(t, c, c.(held := 2, pc := LockAccount)); }
      else { RollbackKnows(t, c, CheckOrder(t, i).mark); }
    case LockAccount =>
      if CheckAccount(t, i) == Pass { LockKnows(t, c, c.(held := 3, pc := LockAttempt)); }
      else { RollbackKnows(t, c, CheckAccount(t, i).mark); }
    case LockAttempt =>
      NotYetSuccessful(t, c);
      if CheckAttempt(t, i) == Pass { LockKnows(t, c, c.(held := 4, pc := ReadAuth)); }
      else { RollbackKnows(t, c, CheckAttempt(t, i).mark); }
  }

  lemma AuthKnows(t: Tables, c: Client)
    requires Knows(t, c) && c.pc.ReadAuth?
    ensures Knows(t, TransactionStep(t, c).client)
  {
    var user := ReadUser(t, c.session.buyer);
    hide CheckSession, CheckOrder, CheckAccount, CheckAttempt, CheckUser, Remembers, ReadUser;
    if CheckUser(user) == Pass {
      var c' := c.(auth := user, pc := UpdateOrder);
      SameGuard(t, c, c');
      MoveKnows(t, c, c');
    } else {
      RollbackKnows(t, c, CheckUser(user).mark);
    }
  }

  /** Under all four locks every row is still the one the conditions of the updates ask for. */
  lemma RowsAwaitUpdate(t: Tables, c: Client)
    requires LocksGuard(t, c) && c.held == 4
    ensures c.session.order in t.orders && t.orders[c.session.order].status == PendingPay
    ensures c.session.account in t.accounts && AccountPayable(t.accounts[c.session.account])
    ensures c.sid in t.sessions && t.sessions[c.sid].status == WaitingPay
    ensures c.request in t.attempts && t.attempts[c.request].result == Processing
  {}

  predicate Updating(pc: Pc) {
    pc.UpdateOrder? || pc.UpdateAccount? || pc.UpdateSession? || pc.UpdateAttempt? || pc.CheckAffected?
  }

  /** Where every row awaits its update, each update counts one row. */
  lemma RowsAffected(t: Tables, c: Client)
    requires Updating(c.pc) && AffectedAt(c.pc, c.affected)
    requires c.session.order in t.orders && t.orders[c.session.order].status == PendingPay
    requires c.session.account in t.accounts && AccountPayable(t.accounts[c.session.account])
    requires c.sid in t.sessions && t.sessions[c.sid].status == WaitingPay
    requires c.request in t.attempts && t.attempts[c.request].result == Processing
    ensures var c' := TransactionStep(t, c).client;
            c'.(pc := c.pc, affected := c.affected) == c && AffectedAt(c'.pc, c'.affected) && (Updating(c'.pc) || c'.pc.Commit?)
  {
    hide AccountPayable, CheckUser, CheckSession, CheckOrder, CheckAccount, CheckAttempt, ReadUser, ApplyUpdates;
  }

  /** Each update changes exactly one row, so the count check never fails. */
  lemma UpdatesAffectOne(t: Tables, c: Client)
    requires Placed(c) && LocksGuard(t, c) && Updating(c.pc)
    ensures TransactionStep(t, c).client.(pc := c.pc, affected := c.affected) == c
    ensures AffectedAt(TransactionStep(t, c).client.pc, TransactionStep(t, c).client.affected)
    ensures Updating(TransactionStep(t, c).client.pc) || TransactionStep(t, c).client.pc.Commit?
    ensures c.held == 4
  {
    assert c.held == 4;
    hide AffectedAt, AccountPayable, LocksGuard, TransactionStep, CheckUser;
    RowsAwaitUpdate(t, c);
    RowsAffected(t, c);
  }

  lemma UpdatesPlaced(c: Client, c': Client)
    requires Placed(c) && Updating(c.pc) && c'.(pc := c.pc, affected := c.affected) == c
    requires (Updating(c'.pc) || c'.pc.Commit?) && AffectedAt(c'.pc, c'.affected)
    ensures Placed(c') && NothingNew(c.pc, c'.pc)
  {
    hide AffectedAt, CheckUser;
  }

  lemma UpdatesKnow(t: Tables, c: Client)
    requires Knows(t, c)
    requires Updating(c.pc)
    ensures Knows(t, TransactionStep(t, c).client)
  {
    hide CheckUser, TransactionStep, LocksGuard, Placed, Remembers, NothingNew, AffectedAt;
    UpdatesAffectOne(t, c);
    UpdatesPlaced(c, TransactionStep(t, c).client);
    SameGuard(t, c, TransactionStep(t, c).client);
    MoveKnows(t, c, TransactionStep(t, c).client);
  }

  lemma SettledByCommit(t: Tables, c: Client)
    requires Knows(t, c) && c.pc.Commit?
    ensures var t' := Settle(t, c.Payment());
            var c' := c.(held := 0, affected := NONE_AFFECTED, pc := MarkSuccess);
            Settled(t', c') && SameAttempt(t', c') && SameSession(t', c')
  {
    CommitMonotone(t, c);
    CommitIsSettle(t, c);
    var t' := Settle(t, c.Payment());
    hide CheckUser, TransactionStep, Monotone;
    assert PaidSession(t', c.sid);
    assert SameSession(t', c);
  }

  lemma CommitKnows(t: Tables, c: Client)
    requires Knows(t, c) && c.pc.Commit?
    ensures Knows(TransactionStep(t, c).tables, TransactionStep(t, c).client)
  {
    SettledByCommit(t, c);
    CommitIsSettle(t, c);
    hide Settle, ApplyUpdates, Settled, SameAttempt, SameSession, Finalize, CheckUser, CheckSession, CheckOrder, CheckAccount, CheckAttempt;
    assert TransactionStep(t, c).client == c.(held := 0, affected := NONE_AFFECTED, pc := MarkSuccess);
  }

  lemma RollbackEnds(t: Tables, c: Client)
    requires Knows(t, c) && c.pc.Rollback?
    ensures Knows(t, TransactionStep(t, c).client)
  {
    var c' := TransactionStep(t, c).client;
    SameGuard(t, c, c');
    assert Placed(c') && NothingNew(c.pc, c'.pc);
    hide Placed, Remembers, NothingNew, LocksGuard, TransactionStep;
    MoveKnows(t, c, c');
  }

  /** Marking an attempt needs its row unlocked, so it never hits a row the marker has locked itself. */
  lemma SuccessMarkKnows(t: Tables, c: Client)
    requires Knows(t, c) && c.pc.MarkSuccess?
    ensures Knows(PayWrites(t, c).tables, PayWrites(t, c).client)
  {
    IdleClient(c);
    hide CheckSession, CheckOrder, CheckAccount, CheckAttempt, CheckUser;
    var t' := PayWrites(t, c).tables;
    var c' := PayWrites(t, c).client;
    assert PaidSession(t', c.sid);
    assert SameAttempt(t', c') && SameSession(t', c');
    assert Placed(c') && LocksGuard(t', c');
  }

  lemma MarkKnows(t: Tables, c: Client)
    requires Knows(t, c) && (c.pc.MarkFailed? || c.pc.HandlerMark? || c.pc.MarkSuccess?)
    ensures Knows(PayWrites(t, c).tables, PayWrites(t, c).client)
  {
    hide CheckSession, CheckOrder, CheckAccount, CheckAttempt, CheckUser;
    if c.pc.MarkSuccess? {
      hide Knows, PayWrites;
      SuccessMarkKnows(t, c);
    } else {
      IdleClient(c);
      var t' := PayWrites(t, c).tables;
      var c' := PayWrites(t, c).client;
      PlainMove(t, c, c'.pc);
      assert Placed(c') && LocksGuard(t', c') && Remembers(t', c');
    }
  }

  lemma NotifyKnows(t: Tables, c: Client)
    requires Knows(t, c) && c.pc.Notify?
    ensures Knows(t, PayWrites(t, c).client)
  {
    IdleClient(c);
    hide CheckSession, CheckOrder, CheckAccount, CheckAttempt, CheckUser;
    assert PaidSession(t, c.sid);
  }

  lemma InitKnows(t: Tables, c: Client)
    requires Knows(t, c) && Initialising(c.pc)
    ensures Knows(InitStep(t, c).tables, InitStep(t, c).client)
  {
    hide InitStep, CheckSession, CheckOrder, CheckAccount, CheckAttempt, CheckUser, SameAttempt, SameSession, Settled;
    InitShape(t, c);
  }

  /** What the client itself knows after its own step. */
  lemma ClientStepKnows(t: Tables, c: Client)
    requires Knows(t, c) && Consistent(t) && !c.pc.Done?
    ensures Knows(ClientStep(t, c).tables, ClientStep(t, c).client)
  {
    hide PayReads, TransactionStep, InitStep, LocksGuard, Placed, Remembers, Consistent;
    if c.pc.Commit? {
      CommitKnows(t, c);
    } else if InTransaction(c.pc) {
      TransactionShape(t, c);
      TransactionKnows(t, c);
    } else if Initialising(c.pc) {
      InitKnows(t, c);
    } else if c.pc.MarkFailed? || c.pc.HandlerMark? || c.pc.MarkSuccess? {
      MarkKnows(t, c);
    } else if c.pc.Notify? {
      NotifyKnows(t, c);
    } else if c.pc.Acquire? {
      IdleClient(c);
      PlainMove(t, c, Begin);
    } else {
      ReadsShape(t, c);
      ReadsKnow(t, c);
    }
  }

  lemma TransactionKnows(t: Tables, c: Client)
    requires Knows(t, c) && Consistent(t) && InTransaction(c.pc) && !c.pc.Commit?
    ensures Knows(t, TransactionStep(t, c).client)
  {
    if c.pc.Begin? {
      assert c.held == 0 && c.affected == NONE_AFFECTED;
      hide Knows;
      PlainMove(t, c, LockSession);
    } else if c.pc.Rollback? {
      RollbackEnds(t, c);
    } else if c.pc.ReadAuth? {
      AuthKnows(t, c);
    } else if c.pc.LockSession? || c.pc.LockOrder? || c.pc.LockAccount? || c.pc.LockAttempt? {
      LockingReadsKnow(t, c);
    } else {
      UpdatesKnow(t, c);
    }
  }

  /** Rows locked by another client survive a step, because the actor would have to lock them too. */
  lemma ClientStepRespectsLocks(s: State, a: Id, d: Id)
    requires a in s.clients && d in s.clients && a != d
    requires Knows(s.tables, s.clients[a]) && Enabled(s, a) && ExclusiveLocks(s)
    ensures LockedRowsKept(s.tables, Advance(s, a).tables, s.clients[d])
  {
    hide PayReads, TransactionStep, InitStep, Knows, ExclusiveLocks, Wants, Locked;
    var c := s.clients[a];
    if Initialising(c.pc) {
      InitShape(s.tables, c);
    } else if c.pc.Commit? {
      CommitRespectsLocks(s, a, d);
    } else if InTransaction(c.pc) {
      TransactionShape(s.tables, c);
    } else if c.pc.MarkFailed? || c.pc.HandlerMark? || c.pc.MarkSuccess? {
      MarkRespectsLocks(s, a, d);
    } else if !c.pc.Acquire? && !c.pc.Notify? {
      ReadsShape(s.tables, c);
    }
  }

  lemma CommitRespectsLocks(s: State, a: Id, d: Id)
    requires a in s.clients && d in s.clients && a != d
    requires Knows(s.tables, s.clients[a]) && s.clients[a].pc.Commit? && ExclusiveLocks(s)
    ensures LockedRowsKept(s.tables, Advance(s, a).tables, s.clients[d])
  {
    var c := s.clients[a];
    CommitMonotone(s.tables, c);
    CommitIsSettle(s.tables, c);
    CommitHolds(s.tables, c);
    DifferentRows(s, a, d);
    hide Knows, ExclusiveLocks, TransactionStep, Settle, LockedRowsKept, Monotone, CheckSession, CheckOrder, CheckAccount, CheckAttempt;
    SettleRespectsLocks(s.tables, c, s.clients[d]);
  }

  /** A mark waits until the row of its attempt is not locked. */
  lemma MarkRespectsLocks(s: State, a: Id, d: Id)
    requires a in s.clients && d in s.clients && a != d && Enabled(s, a)
    requires s.clients[a].pc.MarkFailed? || s.clients[a].pc.HandlerMark? || s.clients[a].pc.MarkSuccess?
    ensures LockedRowsKept(s.tables, Advance(s, a).tables, s.clients[d])
  {
    var key, other := s.clients[a].request, s.clients[d];
    assert Holds(other, 3, key) == (other.held > 3 && other.request == key);
    hide PayReads, TransactionStep, InitStep;
  }

  lemma CommitHolds(t: Tables, c: Client)
    requires Knows(t, c) && c.pc.Commit?
    ensures c.held == 4
  {}

  lemma SettleRespectsLocks(t: Tables, c: Client, other: Client)
    requires var i := c.Payment();
             CheckSession(t, i) == Pass && CheckOrder(t, i) == Pass && CheckAccount(t, i) == Pass && CheckAttempt(t, i) == Pass
    requires forall level: nat | level < 4 && level < other.held :: c.Key(level) != other.Key(level)
    ensures LockedRowsKept(t, Settle(t, c.Payment()), other)
  {
    assert other.held > 0 ==> c.Key(0) != other.Key(0);
    assert other.held > 1 ==> c.Key(1) != other.Key(1);
    assert other.held > 2 ==> c.Key(2) != other.Key(2);
    assert other.held > 3 ==> c.Key(3) != other.Key(3);
  }

  lemma DifferentRows(s: State, a: Id, d: Id)
    requires ExclusiveLocks(s) && a in s.clients && d in s.clients && a != d
    ensures forall level: nat | level < 4 && level < s.clients[a].held && level < s.clients[d].held ::
              s.clients[a].Key(level) != s.clients[d].Key(level)
  {
    hide Client.Key;
    forall level: nat | level < 4 && level < s.clients[a].held && level < s.clients[d].held
      ensures s.clients[a].Key(level) != s.clients[d].Key(level)
    {
      assert Holds(s.clients[a], level, s.clients[a].Key(level));
      assert !Holds(s.clients[d], level, s.clients[a].Key(level));
    }
  }

  // ---- the whole system ----

  /** No row is locked by two clients. */
  ghost predicate ExclusiveLocks(s: State) {
    forall c, d, level: nat, id | c in s.clients && d in s.clients && c != d && Holds(s.clients[c], level, id) ::
      !Holds(s.clients[d], level, id)
  }

  ghost predicate Inv(s: State) {
    && Consistent(s.tables)
    && ExclusiveLocks(s)
    && (forall c | c in s.clients :: Knows(s.tables, s.clients[c]))
  }

  /** A step takes at most the one lock the client wanted, and keeps the keys of those it has. */
  lemma LocksTaken(t: Tables, c: Client)
    requires Knows(t, c) && !c.pc.Done?
    ensures var c' := ClientStep(t, c).client;
            forall level: nat | level < 4 && level < c'.held ::
              c'.Key(level) == c.Key(level) && (level < c.held || Wants(c) == Some((level, c.Key(level))))
  {
    hide InitStep, LocksGuard, AffectedAt, SameAttempt, SameSession, Settled, PayReads;
    if Initialising(c.pc) {
      InitShape(t, c);
    } else if InTransaction(c.pc) {
      TransactionLocks(t, c);
    } else if !c.pc.Acquire? && !c.pc.MarkFailed? && !c.pc.HandlerMark? && !c.pc.MarkSuccess? && !c.pc.Notify? {
      ReadsShape(t, c);
    }
  }

  /** The same rows, and at most one more of them locked, which is the one waited for. */
  predicate LocksNext(c: Client, c': Client) {
    && c'.sid == c.sid && c'.session == c.session && c'.request == c.request
    && (c'.held <= c.held || (c'.held == c.held + 1 && Wants(c) == Some((c.held, c.Key(c.held)))))
  }

  lemma LockingLocks(t: Tables, c: Client)
    requires c.pc.LockSession? || c.pc.LockOrder? || c.pc.LockAccount? || c.pc.LockAttempt? || c.pc.ReadAuth?
    requires HeldAt(c.pc, c.held)
    ensures LocksNext(c, TransactionStep(t, c).client)
  {
    hide CheckSession, CheckOrder, CheckAccount, CheckAttempt, CheckUser, ReadUser;
  }

  lemma UpdatesLocks(t: Tables, c: Client)
    requires c.pc.UpdateOrder? || c.pc.UpdateAccount? || c.pc.UpdateSession? || c.pc.UpdateAttempt?
    ensures LocksNext(c, TransactionStep(t, c).client)
  {
    hide CheckSession, CheckOrder, CheckAccount, CheckAttempt, CheckUser, ReadUser, AccountPayable;
  }

  lemma EndLocks(t: Tables, c: Client)
    requires c.pc.Begin? || c.pc.CheckAffected? || c.pc.Commit? || c.pc.CommitNothing? || c.pc.Rollback?
    ensures LocksNext(c, TransactionStep(t, c).client)
  {
    hide CheckSession, CheckOrder, CheckAccount, CheckAttempt, CheckUser, ReadUser, ApplyUpdates;
  }

  lemma TransactionLocks(t: Tables, c: Client)
    requires HeldAt(c.pc, c.held) && InTransaction(c.pc)
    ensures var c' := TransactionStep(t, c).client;
            forall level: nat | level < 4 && level < c'.held ::
              c'.Key(level) == c.Key(level) && (level < c.held || Wants(c) == Some((level, c.Key(level))))
  {
    hide TransactionStep, HeldAt, Wants;
    if c.pc.LockSession? || c.pc.LockOrder? || c.pc.LockAccount? || c.pc.LockAttempt? || c.pc.ReadAuth? {
      LockingLocks(t, c);
    } else if c.pc.UpdateOrder? || c.pc.UpdateAccount? || c.pc.UpdateSession? || c.pc.UpdateAttempt? {
      UpdatesLocks(t, c);
    } else {
      EndLocks(t, c);
    }
  }

  lemma StepKeepsExclusive(s: State, a: Id)
    requires Inv(s) && Enabled(s, a)
    ensures ExclusiveLocks(Advance(s, a))
  {
    hide ClientStep, Client.Key, Wants;
    var s' := Advance(s, a);
    LocksTaken(s.tables, s.clients[a]);
    forall c, d, level: nat, id | c in s'.clients && d in s'.clients && c != d && Holds(s'.clients[c], level, id)
      ensures !Holds(s'.clients[d], level, id)
    {
      if c == a {
        NotHeldByOthers(s, a, d, level, id, s'.clients[a]);
      } else if d == a && Holds(s'.clients[d], level, id) {
        NotHeldByOthers(s, a, c, level, id, s'.clients[a]);
      }
    }
  }

  /** A lock the actor has after its step is not held by anybody else. */
  lemma NotHeldByOthers(s: State, a: Id, d: Id, level: nat, id: Id, after: Client)
    requires ExclusiveLocks(s) && Enabled(s, a) && d in s.clients && d != a && Holds(after, level, id)
    requires after.Key(level) == s.clients[a].Key(level)
    requires level < s.clients[a].held || Wants(s.clients[a]) == Some((level, s.clients[a].Key(level)))
    ensures !Holds(s.clients[d], level, id)
  {
    hide Client.Key, Wants;
    if level < s.clients[a].held {
      assert Holds(s.clients[a], level, id);
    }
  }

  lemma EnvironmentMonotone(s: State, e: Environment)
    requires EnvironmentAllowed(s, e)
    ensures Monotone(s.tables, EnvironmentEffect(s.tables, e))
  {}

  lemma EnvironmentRespectsLocks(s: State, e: Environment, d: Id)
    requires EnvironmentAllowed(s, e) && d in s.clients
    ensures LockedRowsKept(s.tables, EnvironmentEffect(s.tables, e), s.clients[d])
  {
    var c := s.clients[d];
    assert c.held > 0 ==> Holds(c, 0, c.sid);
    assert c.held > 1 ==> Holds(c, 1, c.session.order);
    assert c.held > 2 ==> Holds(c, 2, c.session.account);
  }

  lemma EnvironmentConsistent(s: State, e: Environment)
    requires EnvironmentAllowed(s, e) && Consistent(s.tables)
    ensures Consistent(EnvironmentEffect(s.tables, e))
  {
    EnvironmentMonotone(s, e);
    var t, t' := s.tables, EnvironmentEffect(s.tables, e);
    forall r | r in t'.attempts && t'.attempts[r].result == Success
      ensures PaidSession(t', t'.attempts[r].session)
    {
      assert PaidSession(t, t.attempts[r].session);
      assert SessionKept(t, t', t.attempts[r].session);
    }
    MonotoneKeepsConsistent(t, t');
  }

  lemma CrashKnows(t: Tables, c: Client)
    requires Knows(t, c) && MayThrow(c)
    ensures Knows(t, Crash(c))
    ensures Crash(c) == c.Goto(Crash(c).pc)
  {
    hide LocksGuard, Placed, Remembers, Crash;
    CrashLocal(c);
    SameGuard(t, c, Crash(c));
    MoveKnows(t, c, Crash(c));
  }

  lemma CrashLocal(c: Client)
    requires MayThrow(c) && Placed(c)
    ensures Crash(c) == c.Goto(Crash(c).pc)
    ensures Placed(Crash(c)) && NothingNew(c.pc, Crash(c).pc)
  {}

  lemma StepKeepsInv(s: State, c: Id)
    requires Inv(s) && Enabled(s, c)
    ensures Inv(Advance(s, c)) && Monotone(s.tables, Advance(s, c).tables)
  {
    hide ClientStep, Knows, Consistent, ExclusiveLocks, Monotone, LockedRowsKept, Wants, Locked;
    var s' := Advance(s, c);
    ClientStepMonotone(s.tables, s.clients[c]);
    ClientStepConsistent(s.tables, s.clients[c]);
    ClientStepKnows(s.tables, s.clients[c]);
    StepKeepsExclusive(s, c);
    forall d | d in s'.clients
      ensures Knows(s'.tables, s'.clients[d])
    {
      if d != c {
        ClientStepRespectsLocks(s, c, d);
        KnowledgeIsStable(s.tables, s'.tables, s.clients[d]);
      }
    }
  }

  lemma ThrowKeepsInv(s: State, c: Id)
    requires Inv(s) && c in s.clients && MayThrow(s.clients[c])
    ensures Inv(Perform(s, Throw(c)))
  {
    hide Crash, Knows, Consistent;
    var s' := Perform(s, Throw(c));
    CrashKnows(s.tables, s.clients[c]);
    forall x, level: nat, id | x in s.clients
      ensures Holds(s'.clients[x], level, id) == Holds(s.clients[x], level, id)
    {}
  }

  lemma ArriveKeepsInv(s: State, c: Id, client: Client)
    requires Inv(s) && c !in s.clients && StartsFresh(client)
    ensures Inv(Perform(s, Arrive(c, client)))
  {
    var s' := Perform(s, Arrive(c, client));
    FreshKnows(s.tables, client);
    hide Knows, Consistent;
    forall x, level: nat, id | x in s'.clients && Holds(s'.clients[x], level, id)
      ensures x in s.clients && Holds(s.clients[x], level, id)
    {}
  }

  lemma FreshKnows(t: Tables, client: Client)
    requires StartsFresh(client)
    ensures Knows(t, client)
  {}

  lemma OutsideKeepsInv(s: State, e: Environment)
    requires Inv(s) && EnvironmentAllowed(s, e)
    ensures Inv(Perform(s, Outside(e)))
  {
    hide EnvironmentEffect, EnvironmentAllowed, Knows, Consistent, Monotone, LockedRowsKept;
    var s' := Perform(s, Outside(e));
    EnvironmentMonotone(s, e);
    EnvironmentConsistent(s, e);
    forall d | d in s'.clients
      ensures Knows(s'.tables, s'.clients[d])
    {
      EnvironmentRespectsLocks(s, e, d);
      KnowledgeIsStable(s.tables, s'.tables, s.clients[d]);
    }
  }

  /** Every action keeps the invariant, and takes back nothing that is final. */
  lemma ActionKeepsInv(s: State, a: Action)
    requires Inv(s) && Allowed(s, a)
    ensures Inv(Perform(s, a)) && Monotone(s.tables, Perform(s, a).tables)
  {
    match a
    case Step(c) => StepKeepsInv(s, c);
    case Throw(c) => ThrowKeepsInv(s, c); MonotoneRefl(s.tables);
    case Arrive(c, client) => ArriveKeepsInv(s, c, client); MonotoneRefl(s.tables);
    case Outside(e) => OutsideKeepsInv(s, e); EnvironmentMonotone(s, e);
  }

  /** Every state of every run satisfies the invariant. */
  lemma {:induction false} RunKeepsInv(states: seq<State>, actions: seq<Action>, k: nat)
    requires Run(states, actions) && Initial(states[0]) && k < |states|
    ensures Inv(states[k])
  {
    if k > 0 {
      RunKeepsInv(states, actions, k - 1);
      assert Allowed(states[k - 1], actions[k - 1]);
      ActionKeepsInv(states[k - 1], actions[k - 1]);
    }
  }
}
