/**
  The database calls and the payment handler as they run when nothing comes
  between: rows are updated in place, and a transaction that fails restores
  what it found.
 */
module PaymentDatabase {
  import opened PaymentTables
  import opened PaymentProtocol
  import opened Results

  datatype Status = Inserted | Exception

  /** Sessions that wait for payment and are due become expired. */
  function ExpireDue(sessions: map<Id, Session>, due: set<Id>): map<Id, Session> {
    map id | id in sessions ::
      if sessions[id].status == WaitingPay && id in due then sessions[id].(status := SessionStatus.Expired) else sessions[id]
  }

  /** The tables after a final transaction that ran in one piece. */
  function Finalized(t: Tables, i: Input): Tables {
    match Finalize(t, i, ReadUser(t, i.buyer))
    case Committed(t') => t'
    case Unchanged => t
    case Rejected(None) => t
    case Rejected(Some(reason)) => SetResult(t, i.request, Failed, reason)
  }

  /** Everything that must hold for a payment to go through. */
  predicate MayPay(t: Tables, request: Id, token: Option<Id>, passwordOk: bool) {
    && request in t.attempts && t.attempts[request].result == Processing
    && token == Some(t.attempts[request].session) && token.value in t.sessions
    && var s := t.sessions[token.value];
       && s.status == WaitingPay
       && s.order == t.attempts[request].order && s.account == t.attempts[request].account && s.buyer == t.attempts[request].buyer
       && s.order in t.orders && t.orders[s.order].status == PendingPay
       && t.orders[s.order].account == s.account && t.orders[s.order].buyer == s.buyer
       && s.account in t.accounts && t.accounts[s.account].status in {OnSale, Trading}
       && s.buyer in t.users && t.users[s.buyer] == User(true, true, true, true) && passwordOk
  }

  /** What the tables of a request in progress, its token and the password decide: an answer, and the mark left on a refusal. */
  function Decision(t: Tables, request: Id, token: Option<Id>, passwordOk: bool): (d: (Answer, string))
    requires request in t.attempts
  {
    if token == None then (Refused(40102), "INVALID_QR_TOKEN")
    else if token.value !in t.sessions || t.sessions[token.value].status != WaitingPay then (Refused(40905), "SESSION_INVALID")
    else if t.attempts[request].session != token.value then (Refused(40905), "SESSION_MISMATCH")
    else
      var s := t.sessions[token.value];
      if s.order !in t.orders || t.orders[s.order].status != PendingPay then (Refused(40901), "ORDER_NOT_PAYABLE")
      else if s.account !in t.accounts || t.accounts[s.account].status in {Sold, Removed} then (Refused(40903), "ACCOUNT_NOT_PAYABLE")
      else if s.buyer !in t.users || !t.users[s.buyer].normal then (Refused(40301), "USER_INVALID")
      else if !passwordOk then (Refused(40104), "PASSWORD_INVALID")
      else if && t.attempts[request].(reason := "") == Attempt(token.value, s.order, s.account, s.buyer, Processing, "")
              && t.orders[s.order].account == s.account && t.orders[s.order].buyer == s.buyer
              && t.users[s.buyer] == User(true, true, true, true) then (PaidAnswer, "")
      else (Refused(40904), "FINALIZE_TXN_FAILED")
  }

  /** What the handler hands to the final transaction. */
  function PaymentOf(t: Tables, request: Id): Input
    requires request in t.attempts && t.attempts[request].session in t.sessions
    requires t.sessions[t.attempts[request].session].order in t.orders
  {
    var sid := t.attempts[request].session;
    var s := t.sessions[sid];
    Input(sid, s.order, s.account, s.buyer, t.orders[s.order].price, request)
  }

  /** Each of the four rows is in the state that its update asks for. */
  predicate RowsAwaitPayment(t: Tables, i: Input) {
    && i.session in t.sessions && t.sessions[i.session].status == WaitingPay
    && i.order in t.orders && t.orders[i.order].status == PendingPay
    && i.account in t.accounts && t.accounts[i.account].status in {OnSale, Trading}
    && i.request in t.attempts && t.attempts[i.request].result == Processing
  }

  class Database {
    var sessions: map<Id, Session>
    var orders: map<Id, Order>
    var accounts: map<Id, Account>
    var attempts: map<Id, Attempt>
    var users: map<Id, User>

    ghost function Contents(): Tables
      reads this
    {
      Tables(sessions, orders, accounts, attempts, users)
    }

    /** Overwrites the result of an attempt, whatever it was. */
    method UpdatePaymentAttemptResult(request: Id, result: AttemptResult, reason: string)
      modifies this
      ensures Contents() == SetResult(old(Contents()), request, result, reason)
      ensures attempts.Keys == old(attempts).Keys && sessions == old(sessions) && orders == old(orders)
      ensures accounts == old(accounts) && users == old(users)
      ensures forall r | r in attempts ::
                attempts[r] == if r == request then old(attempts)[r].(result := result, reason := reason) else old(attempts)[r]
    {
      if request in attempts {
        attempts := attempts[request := attempts[request].(result := result, reason := reason)];
      }
    }

    /** Fails on a lifetime that is not positive and on a session or order that is taken. */
    method CreatePaymentSession(id: Id, row: Session, ttl: int) returns (r: Status)
      requires row.status == WaitingPay
      modifies this
      ensures r == Inserted <==> ttl > 0 && id !in old(sessions) && forall s | s in old(sessions) :: old(sessions)[s].order != row.order
      ensures sessions == if r == Inserted then old(sessions)[id := row] else old(sessions)
      ensures orders == old(orders) && accounts == old(accounts) && attempts == old(attempts) && users == old(users)
    {
      if ttl <= 0 {
        return Exception;
      }
      if id in sessions || exists s :: s in sessions && sessions[s].order == row.order {
        return Exception;
      }
      sessions := sessions[id := row];
      return Inserted;
    }

    method CreatePaymentAttemptProcessing(request: Id, session: Id, row: Session) returns (r: Status)
      modifies this
      ensures r == Inserted <==> request !in old(attempts)
      ensures attempts == if r == Exception then old(attempts)
                          else old(attempts)[request := Attempt(session, row.order, row.account, row.buyer, Processing, "")]
      ensures sessions == old(sessions) && orders == old(orders) && accounts == old(accounts) && users == old(users)
    {
      if request in attempts {
        return Exception;
      }
      attempts := attempts[request := Attempt(session, row.order, row.account, row.buyer, Processing, "")];
      return Inserted;
    }

    /** Changes exactly the waiting sessions that are due, and none that is paid. */
    method ExpireTimeoutPaymentSessions(due: set<Id>)
      modifies this
      ensures sessions == ExpireDue(old(sessions), due)
      ensures sessions.Keys == old(sessions).Keys
      ensures forall s | s in sessions ::
                sessions[s] == if s in due && old(sessions)[s].status == WaitingPay
                               then old(sessions)[s].(status := SessionStatus.Expired) else old(sessions)[s]
      ensures orders == old(orders) && accounts == old(accounts) && attempts == old(attempts) && users == old(users)
      ensures old(Consistent(Contents())) ==> Consistent(Contents())
    {
      ghost var before := Contents();
      sessions := map id | id in sessions ::
          if sessions[id].status == WaitingPay && id in due then sessions[id].(status := SessionStatus.Expired) else sessions[id];
      if Consistent(before) {
        ExpiryKeepsConsistent(before, due);
      }
    }

    method UpdateOrder(id: Id) returns (affected: nat)
      modifies this`orders
      ensures affected == if id in old(orders) && old(orders)[id].status == PendingPay then 1 else 0
      ensures orders == if affected == 1 then old(orders)[id := old(orders)[id].(status := OrderStatus.Paid)] else old(orders)
    {
      if id in orders && orders[id].status == PendingPay {
        orders := orders[id := orders[id].(status := OrderStatus.Paid)];
        return 1;
      }
      return 0;
    }

    method UpdateAccount(id: Id) returns (affected: nat)
      modifies this`accounts
      ensures affected == if id in old(accounts) && AccountPayable(old(accounts)[id]) then 1 else 0
      ensures accounts == if affected == 1
                          then old(accounts)[id := old(accounts)[id].(status := Sold, version := old(accounts)[id].version + 1)]
                          else old(accounts)
    {
      if id in accounts && AccountPayable(accounts[id]) {
        accounts := accounts[id := accounts[id].(status := Sold, version := accounts[id].version + 1)];
        return 1;
      }
      return 0;
    }

    method UpdateSession(id: Id) returns (affected: nat)
      modifies this`sessions
      ensures affected == if id in old(sessions) && old(sessions)[id].status == WaitingPay then 1 else 0
      ensures sessions == if affected == 1 then old(sessions)[id := old(sessions)[id].(status := SessionStatus.Paid)] else old(sessions)
    {
      if id in sessions && sessions[id].status == WaitingPay {
        sessions := sessions[id := sessions[id].(status := SessionStatus.Paid)];
        return 1;
      }
      return 0;
    }

    method UpdateAttempt(request: Id) returns (affected: nat)
      modifies this`attempts
      ensures affected == if request in old(attempts) && old(attempts)[request].result == Processing then 1 else 0
      ensures attempts == if affected == 1 then old(attempts)[request := old(attempts)[request].(result := Success, reason := "")]
                          else old(attempts)
    {
      if request in attempts && attempts[request].result == Processing {
        attempts := attempts[request := attempts[request].(result := Success, reason := "")];
        return 1;
      }
      return 0;
    }

    /** Takes back the updates, and marks the attempt. */
    method RollbackAndMark(before: Tables, request: Id, reason: string)
      modifies this
      ensures Contents() == SetResult(before, request, Failed, reason)
    {
      Rollback(before);
      UpdatePaymentAttemptResult(request, Failed, reason);
    }

    method Rollback(before: Tables)
      modifies this
      ensures Contents() == before
    {
      sessions, orders, accounts, attempts, users := before.sessions, before.orders, before.accounts, before.attempts, before.users;
    }

    /** The four rows move together or not at all. */
    method FinalizePaymentSuccess(i: Input) returns (ok: bool)
      modifies this
      ensures Contents() == Finalized(old(Contents()), i)
      ensures ok <==> !Finalize(old(Contents()), i, ReadUser(old(Contents()), i.buyer)).Rejected?
    {
      var before := Tables(sessions, orders, accounts, attempts, users);
      if i.session !in sessions {
        RollbackAndMark(before, i.request, "SESSION_NOT_FOUND");
        return false;
      }
      var session := sessions[i.session];
      if session.order != i.order || session.account != i.account || session.buyer != i.buyer {
        RollbackAndMark(before, i.request, "SESSION_BINDING_MISMATCH");
        return false;
      }
      if session.status != WaitingPay {
        RollbackAndMark(before, i.request, "SESSION_NOT_PAYABLE");
        return false;
      }
      if i.order !in orders {
        RollbackAndMark(before, i.request, "ORDER_NOT_FOUND");
        return false;
      }
      var order := orders[i.order];
      if order.status != PendingPay {
        RollbackAndMark(before, i.request, if order.status == OrderStatus.Paid then "ORDER_ALREADY_PAID" else "ORDER_NOT_PAYABLE");
        return false;
      }
      if order.account != i.account || order.buyer != i.buyer || order.price != i.price {
        RollbackAndMark(before, i.request, "ORDER_SNAPSHOT_MISMATCH");
        return false;
      }
      if i.account !in accounts {
        RollbackAndMark(before, i.request, "ACCOUNT_NOT_FOUND");
        return false;
      }
      if accounts[i.account].status != OnSale && accounts[i.account].status != Trading {
        RollbackAndMark(before, i.request, "ACCOUNT_NOT_TRADABLE");
        return false;
      }
      if i.request !in attempts {
        Rollback(before);
        return false;
      }
      var attempt := attempts[i.request];
      if attempt.result == Success {
        return true;
      }
      if attempt.result == Failed {
        Rollback(before);
        return false;
      }
      if attempt.session != i.session || attempt.order != i.order || attempt.account != i.account || attempt.buyer != i.buyer {
        RollbackAndMark(before, i.request, "REQUEST_BINDING_MISMATCH");
        return false;
      }
      if i.buyer !in users {
        RollbackAndMark(before, i.request, "USER_NOT_FOUND");
        return false;
      }
      if !UserMayPay(users[i.buyer]) {
        RollbackAndMark(before, i.request, "USER_REAL_AUTH_INVALID");
        return false;
      }
      ok := SettleRows(before, i);
    }

    /** The four updates; they are taken back unless each changed one row. */
    method SettleRows(before: Tables, i: Input) returns (ok: bool)
      requires before == Contents()
      modifies this
      ensures ok <==> RowsAwaitPayment(before, i)
      ensures Contents() == if ok then Settle(before, i) else SetResult(before, i.request, Failed, "PAYMENT_STATE_UPDATE_FAILED")
    {
      var orderAffected := UpdateOrder(i.order);
      var accountAffected := UpdateAccount(i.account);
      var sessionAffected := UpdateSession(i.session);
      var attemptAffected := UpdateAttempt(i.request);
      if orderAffected != 1 || accountAffected != 1 || sessionAffected != 1 || attemptAffected != 1 {
        RollbackAndMark(before, i.request, "PAYMENT_STATE_UPDATE_FAILED");
        return false;
      }
      return true;
    }

    method Refuse(request: Id, reason: string, code: nat) returns (answer: Answer)
      modifies this
      ensures answer == Refused(code) && Contents() == SetResult(old(Contents()), request, Failed, reason)
    {
      UpdatePaymentAttemptResult(request, Failed, reason);
      return Refused(code);
    }

    /**
      The payment handler.  It answers that payment succeeded exactly if the
      attempt already had, or everything needed holds; it announces the
      payment exactly in the second case; and unless it announces, sessions,
      orders and accounts stay as they are.  No other attempt changes, and an
      attempt in progress that is refused has failed afterwards.
     */
    method HandlePay(request: Id, token: Option<Id>, passwordOk: bool) returns (answer: Answer, announced: Option<Id>)
      modifies this
      ensures var t := old(Contents());
              && (answer == PaidAnswer <==>
                  (request in t.attempts && t.attempts[request].result == Success) || MayPay(t, request, token, passwordOk))
              && (announced == if MayPay(t, request, token, passwordOk) then token else None)
              && (MayPay(t, request, token, passwordOk) ==> Contents() == Settle(t, PaymentOf(t, request)))
              && (!MayPay(t, request, token, passwordOk) ==> sessions == t.sessions && orders == t.orders && accounts == t.accounts)
      ensures attempts == old(attempts) || (request in attempts && attempts[request].result != Processing
              && attempts == old(attempts)[request := attempts[request]])
      ensures var t := old(Contents());
              && answer == (if request !in t.attempts then Refused(40404)
                            else if t.attempts[request].result == Success then PaidAnswer
                            else if t.attempts[request].result == Failed then Refused(40904)
                            else Decision(t, request, token, passwordOk).0)
              && (request in t.attempts && t.attempts[request].result == Processing && answer.Refused? ==>
                    Contents() == SetResult(t, request, Failed, Decision(t, request, token, passwordOk).1))
    {
      announced := None;
      if request !in attempts {
        return Refused(40404), None;
      }
      var attempt := attempts[request];
      if attempt.result == Success {
        return PaidAnswer, None;
      }
      if attempt.result == Failed {
        return Refused(40904), None;
      }
      if token == None {
        answer := Refuse(request, "INVALID_QR_TOKEN", 40102);
        return;
      }
      if token.value !in sessions || sessions[token.value].status != WaitingPay {
        answer := Refuse(request, "SESSION_INVALID", 40905);
        return;
      }
      var session := sessions[token.value];
      if attempt.session != token.value {
        answer := Refuse(request, "SESSION_MISMATCH", 40905);
        return;
      }
      if session.order !in orders || orders[session.order].status != PendingPay {
        answer := Refuse(request, "ORDER_NOT_PAYABLE", 40901);
        return;
      }
      if session.account !in accounts || !AccountPayable(accounts[session.account]) {
        answer := Refuse(request, "ACCOUNT_NOT_PAYABLE", 40903);
        return;
      }
      if session.buyer !in users || !users[session.buyer].normal {
        answer := Refuse(request, "USER_INVALID", 40301);
        return;
      }
      if !passwordOk {
        answer := Refuse(request, "PASSWORD_INVALID", 40104);
        return;
      }
      var i := Input(token.value, session.order, session.account, session.buyer, orders[session.order].price, request);
      HandlerFinalizes(Contents(), i, token, passwordOk);
      var ok := FinalizePaymentSuccess(i);
      if !ok {
        answer := Refuse(request, "FINALIZE_TXN_FAILED", 40904);
        return;
      }
      UpdatePaymentAttemptResult(request, Success, "");
      return PaidAnswer, token;
    }
  }

  /** After the handler's own checks the transaction commits exactly if payment may go through. */
  lemma HandlerFinalizes(t: Tables, i: Input, token: Option<Id>, passwordOk: bool)
    requires i.request in t.attempts && t.attempts[i.request].result == Processing && t.attempts[i.request].session == i.session
    requires token == Some(i.session) && passwordOk
    requires i.session in t.sessions && t.sessions[i.session].status == WaitingPay
    requires t.sessions[i.session] == Session(i.order, i.account, i.buyer, WaitingPay)
    requires i.order in t.orders && t.orders[i.order].status == PendingPay && t.orders[i.order].price == i.price
    requires i.account in t.accounts && AccountPayable(t.accounts[i.account])
    ensures var outcome := Finalize(t, i, ReadUser(t, i.buyer));
            && (MayPay(t, i.request, token, passwordOk) <==> outcome.Committed?)
            && (MayPay(t, i.request, token, passwordOk) <==> !outcome.Rejected?)
            && (outcome.Committed? ==> outcome.tables == Settle(t, i) && i == PaymentOf(t, i.request))
    ensures var t' := Finalized(t, i);
            !MayPay(t, i.request, token, passwordOk) ==>
              t'.sessions == t.sessions && t'.orders == t.orders && t'.accounts == t.accounts
  {}

  lemma ExpiryKeepsConsistent(t: Tables, due: set<Id>)
    requires Consistent(t)
    ensures Consistent(t.(sessions := ExpireDue(t.sessions, due)))
  {
    var t' := t.(sessions := ExpireDue(t.sessions, due));
    forall s
      ensures PaidSession(t', s) <==> PaidSession(t, s)
      ensures PaidSession(t', s) ==> t'.sessions[s] == t.sessions[s]
    {}
    forall s | PaidSession(t', s)
      ensures SessionSettled(t', t'.sessions[s])
    {
      assert SessionSettled(t, t.sessions[s]);
    }
  }
}
