/**
  What the handlers that open a payment issue: a session for the order of the
  user who confirms it, and an attempt bound to the session of the token.
 */
module PaymentRequests {
  import opened PaymentHistory
  import opened PaymentProtocol
  import opened PaymentSafety
  import opened PaymentTables
  import opened Results

  /** The handlers of `handleAttemptInit`, row by row. */
  lemma AttemptInitDecides(t: Tables, c: Client)
    requires c.pc.InitSession? || c.pc.InitOrder? || c.pc.InitAccount? || c.pc.InitInsert?
    ensures var e := InitStep(t, c);
            && e.tables == (if c.pc.InitInsert? && c.newId !in t.attempts
                            then t.(attempts := t.attempts[c.newId :=
                              Attempt(c.sid, c.session.order, c.session.account, c.session.buyer, Processing, "")])
                            else t)
            && (e.client.pc == Done(Refused(40102)) <==> c.pc.InitSession? && c.token == None)
            && (e.client.pc == Done(Refused(40911)) <==>
                c.pc.InitSession? && c.token.Some?
                && (c.token.value in t.sessions ==> t.sessions[c.token.value].status != WaitingPay))
            && (e.client.pc == Done(Refused(40901)) <==>
                c.pc.InitOrder? && (c.session.order in t.orders ==> t.orders[c.session.order].status != PendingPay))
            && (e.client.pc == Done(Refused(40903)) <==>
                c.pc.InitAccount? && (c.session.account in t.accounts ==> t.accounts[c.session.account].status in {Sold, Removed}))
            && (e.client.pc == Done(ServerError) <==> c.pc.InitInsert? && c.newId in t.attempts)
            && (e.client.pc == Done(Issued(c.newId)) <==> c.pc.InitInsert? && c.newId !in t.attempts)
  {
    hide SessionOf;
  }

  /** The first checks of `handleConfirm`. */
  lemma ConfirmDecides(t: Tables, c: Client)
    requires c.pc.ConfirmUser? || c.pc.ConfirmOrder? || c.pc.ConfirmAccount?
    ensures var e := InitStep(t, c);
            && e.tables == t
            && (e.client.pc == Done(Refused(40301)) <==>
                c.pc.ConfirmUser? && (c.userId in t.users ==> !t.users[c.userId].normal))
            && (e.client.pc == Done(Refused(40910)) <==>
                c.pc.ConfirmUser? && c.userId in t.users && t.users[c.userId].normal
                && t.users[c.userId] != User(true, true, true, true))
            && (e.client.pc == Done(Refused(40401)) <==>
                c.pc.ConfirmOrder? && (c.orderSn in t.orders ==> t.orders[c.orderSn].buyer != c.userId))
            && (e.client.pc == Done(Refused(40901)) <==>
                c.pc.ConfirmOrder? && c.orderSn in t.orders && t.orders[c.orderSn].buyer == c.userId
                && t.orders[c.orderSn].status != PendingPay)
            && (e.client.pc == Done(Refused(40903)) <==>
                c.pc.ConfirmAccount? && (c.session.account in t.accounts ==> t.accounts[c.session.account].status in {Sold, Removed}))
  {
    hide SessionOf;
  }

  // ---- what a client remembers while it opens a payment ----

  /** Behind its first read the session is the one of the token, as it was but for its status. */
  ghost predicate HasSession(t: Tables, c: Client) {
    && c.token == Some(c.sid) && c.sid in t.sessions
    && t.sessions[c.sid].(status := WaitingPay) == c.session.(status := WaitingPay)
  }

  /** Behind the read of the order the new session is bound to that order, its account, and its buyer, who confirms. */
  ghost predicate HasOrder(t: Tables, c: Client) {
    && c.orderSn in t.orders && t.orders[c.orderSn].buyer == c.userId
    && c.session == Session(c.orderSn, t.orders[c.orderSn].account, c.userId, WaitingPay)
  }

  ghost predicate Opening(t: Tables, c: Client) {
    && (c.pc.InitOrder? || c.pc.InitAccount? || c.pc.InitInsert? ==> HasSession(t, c))
    && (c.pc.ConfirmAccount? || c.pc.ConfirmFind? || c.pc.ConfirmInsert? ==> HasOrder(t, c))
  }

  ghost predicate AllOpening(s: State) {
    forall c | c in s.clients :: Opening(s.tables, s.clients[c])
  }

  lemma OpeningStays(t: Tables, t': Tables, c: Client)
    requires Opening(t, c) && Monotone(t, t')
    ensures Opening(t', c)
  {
    if c.sid in t.sessions {
      assert SessionKept(t, t', c.sid);
    }
    if c.orderSn in t.orders {
      assert OrderKept(t, t', c.orderSn);
    }
  }

  lemma AttemptInitOpens(t: Tables, c: Client)
    requires Opening(t, c) && (c.pc.InitSession? || c.pc.InitOrder? || c.pc.InitAccount? || c.pc.InitInsert?)
    ensures Opening(t, InitStep(t, c).client)
  {
    hide SessionOf, AccountPayable;
  }

  lemma ConfirmOpens(t: Tables, c: Client)
    requires Opening(t, c)
    requires c.pc.ConfirmUser? || c.pc.ConfirmOrder? || c.pc.ConfirmAccount? || c.pc.ConfirmFind? || c.pc.ConfirmInsert?
    ensures Opening(t, InitStep(t, c).client)
  {
    hide SessionOf, AccountPayable;
  }

  lemma PayingStays(t: Tables, c: Client)
    requires !c.pc.Done? && !Initialising(c.pc)
    ensures !Initialising(ClientStep(t, c).client.pc)
  {
    hide PayReads, TransactionStep, PayWrites;
    if InTransaction(c.pc) {
      TransactionStaysOut(t, c);
    } else if c.pc.ReadAttempt? || c.pc.ReadSession? || c.pc.ReadOrder? || c.pc.ReadAccount? || c.pc.ReadBuyer? {
      ReadsStayOut(t, c);
    } else {
      WritesStayOut(t, c);
    }
  }

  lemma LockingStaysOut(t: Tables, c: Client)
    requires c.pc.LockSession? || c.pc.LockOrder? || c.pc.LockAccount? || c.pc.LockAttempt? || c.pc.ReadAuth?
    ensures !Initialising(TransactionStep(t, c).client.pc)
  {
    hide CheckSession, CheckOrder, CheckAccount, CheckAttempt, CheckUser, ReadUser;
  }

  lemma UpdatesStayOut(t: Tables, c: Client)
    requires c.pc.UpdateOrder? || c.pc.UpdateAccount? || c.pc.UpdateSession? || c.pc.UpdateAttempt?
    ensures !Initialising(TransactionStep(t, c).client.pc)
  {
    hide CheckSession, CheckOrder, CheckAccount, CheckAttempt, CheckUser, ReadUser, AccountPayable;
  }

  lemma EndStaysOut(t: Tables, c: Client)
    requires c.pc.Begin? || c.pc.CheckAffected? || c.pc.Commit? || c.pc.CommitNothing? || c.pc.Rollback?
    ensures !Initialising(TransactionStep(t, c).client.pc)
  {
    hide CheckSession, CheckOrder, CheckAccount, CheckAttempt, CheckUser, ReadUser, ApplyUpdates, Initialising;
    var next := TransactionStep(t, c).client.pc;
    assert next.LockSession? || next.Rollback? || next.Commit? || next.MarkSuccess? || next.HandlerMark? || next.MarkFailed?;
    hide TransactionStep;
    NotInitialising(next);
  }

  lemma NotInitialising(pc: Pc)
    requires pc.LockSession? || pc.Rollback? || pc.Commit? || pc.MarkSuccess? || pc.HandlerMark? || pc.MarkFailed?
    ensures !Initialising(pc)
  {}

  lemma TransactionStaysOut(t: Tables, c: Client)
    requires InTransaction(c.pc)
    ensures !Initialising(TransactionStep(t, c).client.pc)
  {
    hide TransactionStep;
    if c.pc.LockSession? || c.pc.LockOrder? || c.pc.LockAccount? || c.pc.LockAttempt? || c.pc.ReadAuth? {
      LockingStaysOut(t, c);
    } else if c.pc.UpdateOrder? || c.pc.UpdateAccount? || c.pc.UpdateSession? || c.pc.UpdateAttempt? {
      UpdatesStayOut(t, c);
    } else {
      EndStaysOut(t, c);
    }
  }

  lemma ReadsStayOut(t: Tables, c: Client)
    requires c.pc.ReadAttempt? || c.pc.ReadSession? || c.pc.ReadOrder? || c.pc.ReadAccount? || c.pc.ReadBuyer?
    ensures !Initialising(PayReads(t, c).client.pc)
  {
    hide AccountPayable;
  }

  lemma WritesStayOut(t: Tables, c: Client)
    requires c.pc.Acquire? || c.pc.MarkFailed? || c.pc.HandlerMark? || c.pc.MarkSuccess? || c.pc.Notify?
    ensures !Initialising(PayWrites(t, c).client.pc)
  {}

  lemma CrashStaysOut(c: Client)
    requires MayThrow(c)
    ensures !Initialising(Crash(c).pc)
  {
    var next := Crash(c).pc;
    assert next.Rollback? || next.HandlerMark? || next.Done?;
    hide Crash, MayThrow, InTransaction;
  }

  lemma StepOpens(t: Tables, c: Client)
    requires !c.pc.Done? && Opening(t, c)
    ensures Opening(t, ClientStep(t, c).client)
  {
    hide InitStep;
    if !Initialising(c.pc) {
      PayingStays(t, c);
    } else if c.pc.InitSession? || c.pc.InitOrder? || c.pc.InitAccount? || c.pc.InitInsert? {
      AttemptInitOpens(t, c);
    } else {
      ConfirmOpens(t, c);
    }
    hide Opening, ClientStep;
  }

  lemma ActionOpens(s: State, a: Action)
    requires Inv(s) && AllOpening(s) && Allowed(s, a)
    ensures AllOpening(Perform(s, a))
  {
    ActionKeepsInv(s, a);
    var s' := Perform(s, a);
    forall c | c in s'.clients
      ensures Opening(s'.tables, s'.clients[c])
    {
      if a == Step(c) {
        StepOpens(s.tables, s.clients[c]);
        hide Opening, Monotone, ClientStep, Inv;
        OpeningStays(s.tables, s'.tables, s'.clients[c]);
      } else if a == Throw(c) {
        CrashStaysOut(s.clients[c]);
      } else if !(a.Arrive? && a.client == c) {
        OpeningStays(s.tables, s'.tables, s.clients[c]);
      }
    }
  }

  lemma LastAction(states: seq<State>, actions: seq<Action>, k: nat)
    requires Run(states, actions) && k < |actions|
    ensures Allowed(states[k], actions[k]) && states[k + 1] == Perform(states[k], actions[k])
  {
    hide Allowed, Perform;
  }

  lemma {:induction false} RunOpens(states: seq<State>, actions: seq<Action>, k: nat)
    requires Run(states, actions) && Initial(states[0]) && k < |states|
    ensures AllOpening(states[k])
  {
    if k > 0 {
      hide Inv, AllOpening, Initial;
      LastAction(states, actions, k - 1);
      hide Run, Perform, Allowed;
      RunOpens(states, actions, k - 1);
      RunKeepsInv(states, actions, k - 1);
      ActionOpens(states[k - 1], actions[k - 1]);
    }
  }

  /** Over every run a new attempt names the session of the token, and repeats what binds that session. */
  lemma NewAttemptsAreBound(states: seq<State>, actions: seq<Action>, k: nat, id: Id)
    requires Run(states, actions) && Initial(states[0]) && k < |actions| && actions[k] == Step(id)
    requires id in states[k].clients && states[k].clients[id].pc.InitInsert?
    ensures var t, t', c := states[k].tables, states[k + 1].tables, states[k].clients[id];
            if c.newId in t.attempts then t' == t && states[k + 1].clients[id].pc == Done(ServerError)
            else
              && c.token.Some? && c.token.value in t.sessions
              && var s := t.sessions[c.token.value];
                 && t' == t.(attempts := t.attempts[c.newId := Attempt(c.token.value, s.order, s.account, s.buyer, Processing, "")])
                 && states[k + 1].clients[id].pc == Done(Issued(c.newId))
  {
    RunOpens(states, actions, k);
    var s := states[k];
    assert Allowed(s, actions[k]) && states[k + 1] == Perform(s, actions[k]);
    assert Opening(s.tables, s.clients[id]);
    AttemptInitDecides(s.tables, s.clients[id]);
    hide InitStep;
  }

  /** Over every run a new session is for an order of the user who confirms, with its account, and the only one for it. */
  lemma NewSessionsAreBound(states: seq<State>, actions: seq<Action>, k: nat, id: Id)
    requires Run(states, actions) && Initial(states[0]) && k < |actions| && actions[k] == Step(id)
    requires id in states[k].clients && states[k].clients[id].pc.ConfirmInsert?
    ensures var t, t', c := states[k].tables, states[k + 1].tables, states[k].clients[id];
            if c.newId in t.sessions || exists s :: s in t.sessions && t.sessions[s].order == c.orderSn
            then t' == t && states[k + 1].clients[id].pc == Done(ServerError)
            else
              && c.orderSn in t.orders && t.orders[c.orderSn].buyer == c.userId
              && t' == t.(sessions := t.sessions[c.newId := Session(c.orderSn, t.orders[c.orderSn].account, c.userId, WaitingPay)])
              && states[k + 1].clients[id].pc == Done(Issued(c.newId))
  {
    RunOpens(states, actions, k);
    var s := states[k];
    assert Allowed(s, actions[k]) && states[k + 1] == Perform(s, actions[k]);
    assert Opening(s.tables, s.clients[id]);
  }
}
