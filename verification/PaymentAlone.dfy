/**
  A payment request that nobody disturbs: the steps of the protocol, taken one
  after the other, are the handler that runs in one piece.
 */
module PaymentAlone {
  import opened PaymentDatabase
  import opened PaymentEntitlement
  import opened PaymentProgress
  import opened PaymentProtocol
  import opened PaymentTables
  import opened Results

  datatype Served = Served(tables: Tables, answer: Answer, notified: seq<Id>)

  /** The request goes on by itself until it is answered. */
  ghost function Alone(t: Tables, c: Client): Served
    decreases Remaining(c.pc)
  {
    if c.pc.Done? then Served(t, c.pc.answer, [])
    else
      StepFinishes(t, c);
      var e := ClientStep(t, c);
      var rest := Alone(e.tables, e.client);
      rest.(notified := e.notified + rest.notified)
  }

  lemma Onward(t: Tables, c: Client, t': Tables, next: Client)
    requires !c.pc.Done? && ClientStep(t, c).tables == t' && ClientStep(t, c).client == next && ClientStep(t, c).notified == []
    ensures Alone(t, c) == Alone(t', next)
  {
    hide ClientStep;
    assert [] + Alone(t', next).notified == Alone(t', next).notified;
  }

  lemma ReadOnward(t: Tables, c: Client)
    requires c.pc.ReadAttempt? || c.pc.ReadSession? || c.pc.ReadOrder? || c.pc.ReadAccount? || c.pc.ReadBuyer?
    ensures Alone(t, c) == Alone(t, PayReads(t, c).client)
  {
    PlainReads(t, c);
    assert ClientStep(t, c) == PayReads(t, c);
    hide PayReads, ClientStep;
    Onward(t, c, t, PayReads(t, c).client);
  }

  lemma PlainReads(t: Tables, c: Client)
    requires c.pc.ReadAttempt? || c.pc.ReadSession? || c.pc.ReadOrder? || c.pc.ReadAccount? || c.pc.ReadBuyer?
    ensures PayReads(t, c).tables == t && PayReads(t, c).notified == []
  {
    hide AccountPayable;
  }

  /** A mark by the handler, and the refusal. */
  lemma MarkAlone(t: Tables, c: Client, reason: string, code: nat)
    requires c.pc == HandlerMark(reason, code)
    ensures Alone(t, c) == Served(SetResult(t, c.request, Failed, reason), Refused(code), [])
  {
    var t', next := SetResult(t, c.request, Failed, reason), c.Goto(Done(Refused(code)));
    assert ClientStep(t, c) == Local(t', next);
    hide ClientStep, SetResult;
    Onward(t, c, t', next);
  }

  lemma MarkFailedAlone(t: Tables, c: Client)
    requires c.pc.MarkFailed?
    ensures Alone(t, c) == Served(SetResult(t, c.request, Failed, "FINALIZE_TXN_FAILED"), Refused(40904), [])
  {
    var t', c' := SetResult(t, c.request, Failed, c.pc.reason), c.Goto(HandlerMark("FINALIZE_TXN_FAILED", 40904));
    assert ClientStep(t, c) == Local(t', c');
    assert SetResult(t', c.request, Failed, "FINALIZE_TXN_FAILED") == SetResult(t, c.request, Failed, "FINALIZE_TXN_FAILED");
    hide ClientStep, SetResult, Alone;
    Onward(t, c, t', c');
    MarkAlone(t', c', "FINALIZE_TXN_FAILED", 40904);
  }

  /** The end of a transaction that is taken back: whatever it marked, the handler overwrites. */
  lemma RollbackAlone(t: Tables, c: Client)
    requires c.pc.Rollback?
    ensures Alone(t, c) == Served(SetResult(t, c.request, Failed, "FINALIZE_TXN_FAILED"), Refused(40904), [])
  {
    var next := if c.pc.mark == None then HandlerMark("FINALIZE_TXN_FAILED", 40904) else MarkFailed(c.pc.mark.value);
    var c' := c.(held := 0, affected := NONE_AFFECTED, pc := next);
    RollbackStep(t, c, c');
    hide ClientStep, SetResult, Alone;
    Onward(t, c, t, c');
    if next.MarkFailed? {
      MarkFailedAlone(t, c');
    } else {
      MarkAlone(t, c', "FINALIZE_TXN_FAILED", 40904);
    }
  }

  lemma RollbackStep(t: Tables, c: Client, next: Client)
    requires c.pc.Rollback?
    requires next == c.(held := 0, affected := NONE_AFFECTED, pc :=
      if c.pc.mark == None then HandlerMark("FINALIZE_TXN_FAILED", 40904) else MarkFailed(c.pc.mark.value))
    ensures ClientStep(t, c) == Local(t, next)
  {}

  /** The end of a transaction that has committed. */
  lemma PaidAlone(t: Tables, c: Client)
    requires c.pc.MarkSuccess?
    ensures Alone(t, c) == Served(SetResult(t, c.request, Success, ""), PaidAnswer, [c.sid])
  {
    var t', c' := SetResult(t, c.request, Success, ""), c.Goto(Notify);
    assert ClientStep(t, c) == Local(t', c');
    Onward(t, c, t', c');
    assert ClientStep(t', c') == Effect(t', c'.Goto(Done(PaidAnswer)), [], [c.sid]);
    hide ClientStep;
    assert Alone(t', c') == Alone(t', c'.Goto(Done(PaidAnswer))).(notified := [c.sid] + []);
  }

  /** A check inside the transaction: on, or back. */
  lemma CheckedAlone(t: Tables, c: Client, check: Check, next: Client)
    requires InTransaction(c.pc) && TransactionStep(t, c) == Checked(t, c, check, next) && check != AlreadyPaid
    ensures check == Pass ==> Alone(t, c) == Alone(t, next)
    ensures check.Reject? ==>
              Alone(t, c) == Served(SetResult(t, c.request, Failed, "FINALIZE_TXN_FAILED"), Refused(40904), [])
  {
    assert ClientStep(t, c) == Checked(t, c, check, next);
    hide TransactionStep, ClientStep;
    if check == Pass {
      Onward(t, c, t, next);
    } else {
      Onward(t, c, t, c.Goto(Rollback(check.mark)));
      RollbackAlone(t, c.Goto(Rollback(check.mark)));
    }
  }

  lemma FirstUpdatesAlone(t: Tables, c: Client)
    requires c.pc == UpdateOrder && c.affected == NONE_AFFECTED
    requires var i := c.Payment();
             && i.order in t.orders && t.orders[i.order].status == PendingPay
             && i.account in t.accounts && AccountPayable(t.accounts[i.account])
    ensures Alone(t, c) == Alone(t, c.(affected := Affected(1, 1, 0, 0), pc := UpdateSession))
  {
    var c1 := c.(affected := Affected(1, 0, 0, 0), pc := UpdateAccount);
    var c2 := c.(affected := Affected(1, 1, 0, 0), pc := UpdateSession);
    assert TransactionStep(t, c) == Local(t, c1);
    assert TransactionStep(t, c1) == Local(t, c2);
    hide TransactionStep, AccountPayable, Alone;
    UpdateOnward(t, c, c1);
    UpdateOnward(t, c1, c2);
  }

  lemma LastUpdatesAlone(t: Tables, c: Client)
    requires c.pc == UpdateSession && c.affected == Affected(1, 1, 0, 0)
    requires var i := c.Payment();
             && i.session in t.sessions && t.sessions[i.session].status == WaitingPay
             && i.request in t.attempts && t.attempts[i.request].result == Processing
    ensures Alone(t, c) == Alone(t, c.(affected := Affected(1, 1, 1, 1), pc := Commit))
  {
    var c1 := c.(affected := Affected(1, 1, 1, 0), pc := UpdateAttempt);
    var c2 := c.(affected := Affected(1, 1, 1, 1), pc := CheckAffected);
    var c3 := c.(affected := Affected(1, 1, 1, 1), pc := Commit);
    assert TransactionStep(t, c) == Local(t, c1);
    assert TransactionStep(t, c1) == Local(t, c2);
    assert TransactionStep(t, c2) == Local(t, c3);
    hide TransactionStep, Alone;
    UpdateOnward(t, c, c1);
    UpdateOnward(t, c1, c2);
    UpdateOnward(t, c2, c3);
  }

  /** The four updates and the count, where each row is in the state asked for. */
  lemma UpdatesAlone(t: Tables, c: Client)
    requires c.pc == UpdateOrder && c.affected == NONE_AFFECTED
    requires var i := c.Payment();
             && i.order in t.orders && t.orders[i.order].status == PendingPay
             && i.account in t.accounts && AccountPayable(t.accounts[i.account])
             && i.session in t.sessions && t.sessions[i.session].status == WaitingPay
             && i.request in t.attempts && t.attempts[i.request].result == Processing
    ensures Alone(t, c) == Alone(t, c.(affected := Affected(1, 1, 1, 1), pc := Commit))
  {
    hide AccountPayable, Alone;
    FirstUpdatesAlone(t, c);
    LastUpdatesAlone(t, c.(affected := Affected(1, 1, 0, 0), pc := UpdateSession));
  }

  lemma UpdateOnward(t: Tables, c: Client, next: Client)
    requires InTransaction(c.pc) && TransactionStep(t, c) == Local(t, next)
    ensures Alone(t, c) == Alone(t, next)
  {
    assert ClientStep(t, c) == Local(t, next);
    hide TransactionStep, ClientStep;
    Onward(t, c, t, next);
  }

  lemma CommitAlone(t: Tables, c: Client)
    requires c.pc == Commit && c.affected == Affected(1, 1, 1, 1)
    requires var i := c.Payment();
             i.session in t.sessions && i.order in t.orders && i.account in t.accounts && i.request in t.attempts
    ensures Alone(t, c) == Served(Settle(t, c.Payment()), PaidAnswer, [c.sid])
  {
    var t' := Settle(t, c.Payment());
    var c' := c.(held := 0, affected := NONE_AFFECTED, pc := MarkSuccess);
    assert ApplyUpdates(t, c) == t';
    assert ClientStep(t, c) == Effect(t', c', [c.Payment()], []);
    Onward(t, c, t', c');
    PaidAlone(t', c');
    assert SetResult(t', c.request, Success, "").attempts == t'.attempts;
  }

  lemma LocksAlone(t: Tables, c: Client)
    requires c.pc == LockSession
    ensures var i := c.Payment();
            if CheckSession(t, i) == Pass && CheckOrder(t, i) == Pass && CheckAccount(t, i) == Pass
            then Alone(t, c) == Alone(t, c.(held := 3, pc := LockAttempt))
            else Alone(t, c) == Served(SetResult(t, c.request, Failed, "FINALIZE_TXN_FAILED"), Refused(40904), [])
  {
    var i := c.Payment();
    var c1, c2, c3 := c.(held := 1, pc := LockOrder), c.(held := 2, pc := LockAccount), c.(held := 3, pc := LockAttempt);
    assert TransactionStep(t, c) == Checked(t, c, CheckSession(t, i), c1);
    assert TransactionStep(t, c1) == Checked(t, c1, CheckOrder(t, i), c2);
    assert TransactionStep(t, c2) == Checked(t, c2, CheckAccount(t, i), c3);
    hide TransactionStep, Checked, CheckSession, CheckOrder, CheckAccount, Alone, SetResult;
    CheckedAlone(t, c, CheckSession(t, i), c1);
    if CheckSession(t, i) == Pass {
      CheckedAlone(t, c1, CheckOrder(t, i), c2);
      if CheckOrder(t, i) == Pass {
        CheckedAlone(t, c2, CheckAccount(t, i), c3);
      }
    }
  }

  lemma LastChecksAlone(t: Tables, c: Client)
    requires c.pc == LockAttempt && CheckAttempt(t, c.Payment()) != AlreadyPaid
    ensures var user := ReadUser(t, c.session.buyer);
            if CheckAttempt(t, c.Payment()) == Pass && CheckUser(user) == Pass
            then Alone(t, c) == Alone(t, c.(held := 4, auth := user, pc := UpdateOrder))
            else Alone(t, c) == Served(SetResult(t, c.request, Failed, "FINALIZE_TXN_FAILED"), Refused(40904), [])
  {
    var i, user := c.Payment(), ReadUser(t, c.session.buyer);
    var c1, c2 := c.(held := 4, pc := ReadAuth), c.(held := 4, auth := user, pc := UpdateOrder);
    LastCheckSteps(t, c, c1, c2);
    hide TransactionStep, Checked, CheckAttempt, CheckUser, ReadUser, Alone, SetResult;
    CheckedAlone(t, c, CheckAttempt(t, i), c1);
    if CheckAttempt(t, i) == Pass {
      CheckedAlone(t, c1, CheckUser(user), c2);
    }
  }

  lemma LastCheckSteps(t: Tables, c: Client, c1: Client, c2: Client)
    requires c.pc == LockAttempt && c1 == c.(held := 4, pc := ReadAuth)
    requires c2 == c.(held := 4, auth := ReadUser(t, c.session.buyer), pc := UpdateOrder)
    ensures TransactionStep(t, c) == Checked(t, c, CheckAttempt(t, c.Payment()), c1)
    ensures TransactionStep(t, c1) == Checked(t, c1, CheckUser(ReadUser(t, c.session.buyer)), c2)
  {
    hide Checked, CheckAttempt, CheckUser, ReadUser;
  }

  /** The transaction, undisturbed, is the whole finalize. */
  lemma TransactionAlone(t: Tables, c: Client)
    requires c.pc == Acquire && c.affected == NONE_AFFECTED
    requires c.request in t.attempts && t.attempts[c.request].result == Processing
    ensures var outcome := Finalize(t, c.Payment(), ReadUser(t, c.session.buyer));
            if outcome.Committed? then Alone(t, c) == Served(outcome.tables, PaidAnswer, [c.sid])
            else Alone(t, c) == Served(SetResult(t, c.request, Failed, "FINALIZE_TXN_FAILED"), Refused(40904), [])
  {
    hide Alone, ReadUser, CheckUser, CheckSession, CheckOrder, CheckAccount, CheckAttempt, AccountPayable, Settle, SetResult;
    var i, user := c.Payment(), ReadUser(t, c.session.buyer);
    var c1 := c.Goto(LockSession);
    StartAlone(t, c);
    LocksAlone(t, c1);
    NotAlreadyPaid(t, i);
    if CheckSession(t, i) == Pass && CheckOrder(t, i) == Pass && CheckAccount(t, i) == Pass {
      LastChecksAlone(t, c1.(held := 3, pc := LockAttempt));
      if CheckAttempt(t, i) == Pass && CheckUser(user) == Pass {
        ChecksPassed(t, c1.(held := 4, auth := user, pc := UpdateOrder));
      }
    }
  }

  /** Behind all the checks, the updates and the commit. */
  lemma ChecksPassed(t: Tables, c: Client)
    requires c.pc == UpdateOrder && c.affected == NONE_AFFECTED
    requires var i := c.Payment();
             CheckSession(t, i) == Pass && CheckOrder(t, i) == Pass && CheckAccount(t, i) == Pass && CheckAttempt(t, i) == Pass
    ensures var i := c.Payment();
            && i.session in t.sessions && i.order in t.orders && i.account in t.accounts && i.request in t.attempts
            && Alone(t, c) == Served(Settle(t, i), PaidAnswer, [c.sid])
  {
    PassedRows(t, c.Payment());
    hide Alone, CheckSession, CheckOrder, CheckAccount, CheckAttempt, AccountPayable, Settle;
    UpdatesAlone(t, c);
    CommitAlone(t, c.(affected := Affected(1, 1, 1, 1), pc := Commit));
  }

  lemma NotAlreadyPaid(t: Tables, i: Input)
    requires i.request in t.attempts && t.attempts[i.request].result == Processing
    ensures CheckAttempt(t, i) != AlreadyPaid
  {}

  lemma PassedRows(t: Tables, i: Input)
    requires CheckSession(t, i) == Pass && CheckOrder(t, i) == Pass && CheckAccount(t, i) == Pass && CheckAttempt(t, i) == Pass
    ensures i.order in t.orders && t.orders[i.order].status == PendingPay
    ensures i.account in t.accounts && AccountPayable(t.accounts[i.account])
    ensures i.session in t.sessions && t.sessions[i.session].status == WaitingPay
    ensures i.request in t.attempts && t.attempts[i.request].result == Processing
  {}

  lemma StartAlone(t: Tables, c: Client)
    requires c.pc == Acquire
    ensures Alone(t, c) == Alone(t, c.Goto(LockSession))
  {
    assert ClientStep(t, c) == Local(t, c.Goto(Begin));
    assert ClientStep(t, c.Goto(Begin)) == Local(t, c.Goto(LockSession));
    hide ClientStep;
    Onward(t, c, t, c.Goto(Begin));
    Onward(t, c.Goto(Begin), t, c.Goto(LockSession));
  }

  // ---- the reads of the handler ----

  lemma FailAlone(t: Tables, c: Client, reason: string, code: nat)
    requires c.pc.ReadAttempt? || c.pc.ReadSession? || c.pc.ReadOrder? || c.pc.ReadAccount? || c.pc.ReadBuyer?
    requires PayReads(t, c) == Fail(t, c, reason, code)
    ensures Alone(t, c) == Served(SetResult(t, c.request, Failed, reason), Refused(code), [])
  {
    ReadOnward(t, c);
    hide PayReads, Alone, SetResult;
    MarkAlone(t, c.Goto(HandlerMark(reason, code)), reason, code);
  }

  lemma AttemptAlone(t: Tables, c: Client)
    requires c.pc == ReadAttempt
    ensures c.request !in t.attempts ==> Alone(t, c) == Served(t, Refused(40404), [])
    ensures c.request in t.attempts && t.attempts[c.request].result == Success ==> Alone(t, c) == Served(t, PaidAnswer, [])
    ensures c.request in t.attempts && t.attempts[c.request].result == Failed ==> Alone(t, c) == Served(t, Refused(40904), [])
    ensures c.request in t.attempts && t.attempts[c.request].result == Processing ==>
              if c.token == None
              then Alone(t, c) == Served(SetResult(t, c.request, Failed, "INVALID_QR_TOKEN"), Refused(40102), [])
              else Alone(t, c) == Alone(t, c.(attempt := t.attempts[c.request], pc := ReadSession))
  {
    ReadOnward(t, c);
    hide SetResult;
    if c.request in t.attempts && t.attempts[c.request].result == Processing && c.token == None {
      FailAlone(t, c, "INVALID_QR_TOKEN", 40102);
    }
  }

  lemma SessionAlone(t: Tables, c: Client)
    requires c.pc == ReadSession && c.token.Some?
    ensures if c.token.value !in t.sessions || t.sessions[c.token.value].status != WaitingPay
            then Alone(t, c) == Served(SetResult(t, c.request, Failed, "SESSION_INVALID"), Refused(40905), [])
            else if c.attempt.session != c.token.value
            then Alone(t, c) == Served(SetResult(t, c.request, Failed, "SESSION_MISMATCH"), Refused(40905), [])
            else Alone(t, c) == Alone(t, c.(sid := c.token.value, session := t.sessions[c.token.value], pc := ReadOrder))
  {
    ReadOnward(t, c);
    hide SetResult, Alone;
    if c.token.value !in t.sessions || t.sessions[c.token.value].status != WaitingPay {
      FailAlone(t, c, "SESSION_INVALID", 40905);
    } else if c.attempt.session != c.token.value {
      FailAlone(t, c, "SESSION_MISMATCH", 40905);
    }
  }

  lemma OrderAlone(t: Tables, c: Client)
    requires c.pc == ReadOrder
    ensures if c.session.order !in t.orders || t.orders[c.session.order].status != PendingPay
            then Alone(t, c) == Served(SetResult(t, c.request, Failed, "ORDER_NOT_PAYABLE"), Refused(40901), [])
            else Alone(t, c) == Alone(t, c.(price := t.orders[c.session.order].price, pc := ReadAccount))
  {
    ReadOnward(t, c);
    hide SetResult, Alone;
    if c.session.order !in t.orders || t.orders[c.session.order].status != PendingPay {
      FailAlone(t, c, "ORDER_NOT_PAYABLE", 40901);
    }
  }

  lemma AccountAlone(t: Tables, c: Client)
    requires c.pc == ReadAccount
    ensures if c.session.account !in t.accounts || t.accounts[c.session.account].status in {Sold, Removed}
            then Alone(t, c) == Served(SetResult(t, c.request, Failed, "ACCOUNT_NOT_PAYABLE"), Refused(40903), [])
            else Alone(t, c) == Alone(t, c.(pc := ReadBuyer))
  {
    ReadOnward(t, c);
    AccountRead(t, c);
    hide SetResult, Alone, PayReads;
    if c.session.account !in t.accounts || t.accounts[c.session.account].status in {Sold, Removed} {
      FailAlone(t, c, "ACCOUNT_NOT_PAYABLE", 40903);
    }
  }

  lemma AccountRead(t: Tables, c: Client)
    requires c.pc == ReadAccount
    ensures PayReads(t, c)
         == if c.session.account !in t.accounts || t.accounts[c.session.account].status in {Sold, Removed}
            then Fail(t, c, "ACCOUNT_NOT_PAYABLE", 40903) else Local(t, c.(pc := ReadBuyer))
  {
    if c.session.account in t.accounts {
      var status := t.accounts[c.session.account].status;
      assert status.OnSale? || status.Trading? || status.Sold? || status.Removed?;
    }
  }

  lemma BuyerAlone(t: Tables, c: Client)
    requires c.pc == ReadBuyer
    ensures if c.session.buyer !in t.users || !t.users[c.session.buyer].normal
            then Alone(t, c) == Served(SetResult(t, c.request, Failed, "USER_INVALID"), Refused(40301), [])
            else if !c.passwordOk
            then Alone(t, c) == Served(SetResult(t, c.request, Failed, "PASSWORD_INVALID"), Refused(40104), [])
            else Alone(t, c) == Alone(t, c.(pc := Acquire))
  {
    ReadOnward(t, c);
    hide SetResult, Alone;
    if c.session.buyer !in t.users || !t.users[c.session.buyer].normal {
      FailAlone(t, c, "USER_INVALID", 40301);
    } else if !c.passwordOk {
      FailAlone(t, c, "PASSWORD_INVALID", 40104);
    }
  }

  /** From the read of the account on: the account, the buyer, the password, the transaction. */
  lemma LateAlone(t: Tables, c: Client)
    requires c.pc == ReadAccount && c.affected == NONE_AFFECTED
    requires c.request in t.attempts && t.attempts[c.request].result == Processing
    requires c.sid in t.sessions && t.sessions[c.sid] == c.session && c.session.status == WaitingPay
    requires c.session.order in t.orders && t.orders[c.session.order].status == PendingPay && t.orders[c.session.order].price == c.price
    ensures var s, i := c.session, c.Payment();
            var pays := && t.attempts[c.request].(reason := "") == Attempt(c.sid, s.order, s.account, s.buyer, Processing, "")
                        && t.orders[s.order].account == s.account && t.orders[s.order].buyer == s.buyer;
            var failed := (reason: string, code: nat) => Served(SetResult(t, c.request, Failed, reason), Refused(code), []);
            if s.account !in t.accounts || t.accounts[s.account].status in {Sold, Removed}
            then Alone(t, c) == failed("ACCOUNT_NOT_PAYABLE", 40903)
            else if s.buyer !in t.users || !t.users[s.buyer].normal then Alone(t, c) == failed("USER_INVALID", 40301)
            else if !c.passwordOk then Alone(t, c) == failed("PASSWORD_INVALID", 40104)
            else if pays && t.users[s.buyer] == User(true, true, true, true)
            then Alone(t, c) == Served(Settle(t, i), PaidAnswer, [c.sid])
            else Alone(t, c) == failed("FINALIZE_TXN_FAILED", 40904)
  {
    hide Alone, SetResult, Finalize;
    AccountAlone(t, c);
    BuyerAlone(t, c.(pc := ReadBuyer));
    TransactionAlone(t, c.(pc := Acquire));
    FinalizeCommitsExactly(t, c.Payment(), ReadUser(t, c.session.buyer));
    assert c.(pc := Acquire).Payment() == c.Payment();
    var s, i, outcome := c.session, c.Payment(), Finalize(t, c.Payment(), ReadUser(t, c.session.buyer));
    if s.account in t.accounts {
      var status := t.accounts[s.account].status;
      assert status.OnSale? || status.Trading? || status.Sold? || status.Removed?;
    }
    if outcome.Committed? {
      FinalizeSettles(t, c.Payment(), ReadUser(t, c.session.buyer));
    }
    hide Settle;
  }

  lemma FinalizeSettles(t: Tables, i: Input, user: Option<User>)
    requires Finalize(t, i, user).Committed?
    ensures i.session in t.sessions && i.order in t.orders && i.account in t.accounts && i.request in t.attempts
    ensures Finalize(t, i, user).tables == Settle(t, i)
  {}

  /** What a request in progress comes to, with its token. */
  lemma ReadsAlone(t: Tables, c: Client)
    requires c.pc == ReadSession && c.token.Some? && c.affected == NONE_AFFECTED
    requires c.request in t.attempts && t.attempts[c.request].result == Processing && c.attempt == t.attempts[c.request]
    ensures var (answer, reason) := Decision(t, c.request, c.token, c.passwordOk);
            if answer == PaidAnswer
            then PayableRows(t, c.request, c.token.value)
                 && Alone(t, c) == Served(Settle(t, PaymentOf(t, c.request)), PaidAnswer, [c.token.value])
            else Alone(t, c) == Served(SetResult(t, c.request, Failed, reason), answer, [])
  {
    hide Alone, SetResult, Settle;
    SessionAlone(t, c);
    var sid := c.token.value;
    if sid in t.sessions && t.sessions[sid].status == WaitingPay && c.attempt.session == sid {
      var c1 := c.(sid := sid, session := t.sessions[sid], pc := ReadOrder);
      OrderAlone(t, c1);
      if c1.session.order in t.orders && t.orders[c1.session.order].status == PendingPay {
        LateAlone(t, c1.(price := t.orders[c1.session.order].price, pc := ReadAccount));
      }
    }
  }

  /** The rows that a payment needs are there. */
  predicate PayableRows(t: Tables, request: Id, sid: Id) {
    && request in t.attempts && t.attempts[request].session == sid && sid in t.sessions
    && t.sessions[sid].order in t.orders && t.sessions[sid].account in t.accounts
  }

  /**
    A request that nobody disturbs is served as the handler serves it that
    runs in one piece: the same answer, the same tables, the same announcement.
   */
  lemma AloneIsHandled(t: Tables, c: Client)
    requires c.pc == ReadAttempt && StartsFresh(c)
    ensures var served := Alone(t, c);
            if c.request !in t.attempts then served == Served(t, Refused(40404), [])
            else if t.attempts[c.request].result == Success then served == Served(t, PaidAnswer, [])
            else if t.attempts[c.request].result == Failed then served == Served(t, Refused(40904), [])
            else
              var (answer, reason) := Decision(t, c.request, c.token, c.passwordOk);
              if answer == PaidAnswer
              then PayableRows(t, c.request, c.token.value)
                   && served == Served(Settle(t, PaymentOf(t, c.request)), PaidAnswer, [c.token.value])
              else served == Served(SetResult(t, c.request, Failed, reason), answer, [])
  {
    AttemptAlone(t, c);
    if c.request in t.attempts && t.attempts[c.request].result == Processing && c.token.Some? {
      hide Alone, SetResult, Settle;
      ReadsAlone(t, c.(attempt := t.attempts[c.request], pc := ReadSession));
    }
  }
}
