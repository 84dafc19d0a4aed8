/**
  Which payments may go through, said of the rows alone: their status, what
  binds them to each other, and the profile of the buyer.
 */
module PaymentEntitlement {
  import opened PaymentHistory
  import opened PaymentOutcomes
  import opened PaymentProtocol
  import opened PaymentSafety
  import opened PaymentTables
  import opened Results

  /** Run in one piece, the transaction commits exactly if the four rows and the profile are these, and leaves these rows. */
  lemma FinalizeCommitsExactly(t: Tables, i: Input, user: Option<User>)
    ensures Finalize(t, i, user).Committed? <==>
              && i.session in t.sessions && t.sessions[i.session] == Session(i.order, i.account, i.buyer, WaitingPay)
              && i.order in t.orders && t.orders[i.order] == Order(i.account, i.buyer, i.price, PendingPay)
              && i.account in t.accounts && t.accounts[i.account].status in {OnSale, Trading}
              && i.request in t.attempts
              && t.attempts[i.request].(reason := "") == Attempt(i.session, i.order, i.account, i.buyer, Processing, "")
              && user == Some(User(true, true, true, true))
    ensures Finalize(t, i, user).Committed? ==>
              Finalize(t, i, user).tables
              == Tables(t.sessions[i.session := Session(i.order, i.account, i.buyer, SessionStatus.Paid)],
                        t.orders[i.order := Order(i.account, i.buyer, i.price, OrderStatus.Paid)],
                        t.accounts[i.account := Account(Sold, t.accounts[i.account].version + 1)],
                        t.attempts[i.request := Attempt(i.session, i.order, i.account, i.buyer, Success, "")],
                        t.users)
  {}

  /** The mark left by a refusal names the first thing that is wrong. */
  lemma RefusalMarks(t: Tables, i: Input, user: Option<User>)
    ensures var outcome := Finalize(t, i, user);
            && (outcome == Rejected(Some("SESSION_NOT_FOUND")) <==> i.session !in t.sessions)
            && (outcome == Rejected(Some("SESSION_BINDING_MISMATCH")) <==>
                i.session in t.sessions && t.sessions[i.session].(status := WaitingPay) != Session(i.order, i.account, i.buyer, WaitingPay))
            && (outcome == Rejected(Some("SESSION_NOT_PAYABLE")) <==>
                i.session in t.sessions && t.sessions[i.session].status != WaitingPay
                && t.sessions[i.session].(status := WaitingPay) == Session(i.order, i.account, i.buyer, WaitingPay))
    ensures i.session in t.sessions && t.sessions[i.session] == Session(i.order, i.account, i.buyer, WaitingPay) ==>
              var outcome := Finalize(t, i, user);
              && (outcome == Rejected(Some("ORDER_NOT_FOUND")) <==> i.order !in t.orders)
              && (outcome == Rejected(Some("ORDER_ALREADY_PAID")) <==> i.order in t.orders && t.orders[i.order].status == OrderStatus.Paid)
              && (outcome == Rejected(Some("ORDER_NOT_PAYABLE")) <==>
                  i.order in t.orders && t.orders[i.order].status in {Cancelled, OrderStatus.Expired})
              && (outcome == Rejected(Some("ORDER_SNAPSHOT_MISMATCH")) <==>
                  i.order in t.orders && t.orders[i.order].status == PendingPay
                  && t.orders[i.order] != Order(i.account, i.buyer, i.price, PendingPay))
    ensures && i.session in t.sessions && t.sessions[i.session] == Session(i.order, i.account, i.buyer, WaitingPay)
            && i.order in t.orders && t.orders[i.order] == Order(i.account, i.buyer, i.price, PendingPay) ==>
              var outcome := Finalize(t, i, user);
              && (outcome == Rejected(Some("ACCOUNT_NOT_FOUND")) <==> i.account !in t.accounts)
              && (outcome == Rejected(Some("ACCOUNT_NOT_TRADABLE")) <==>
                  i.account in t.accounts && t.accounts[i.account].status in {Sold, Removed})
  {}

  /** With session, order and account in place, the attempt and then the profile decide. */
  lemma LaterRefusalMarks(t: Tables, i: Input, user: Option<User>)
    requires i.session in t.sessions && t.sessions[i.session] == Session(i.order, i.account, i.buyer, WaitingPay)
    requires i.order in t.orders && t.orders[i.order] == Order(i.account, i.buyer, i.price, PendingPay)
    requires i.account in t.accounts && t.accounts[i.account].status in {OnSale, Trading}
    ensures var outcome := Finalize(t, i, user);
            && (outcome == Rejected(None) <==> i.request !in t.attempts || t.attempts[i.request].result == Failed)
            && (outcome == Unchanged <==> i.request in t.attempts && t.attempts[i.request].result == Success)
            && (outcome == Rejected(Some("REQUEST_BINDING_MISMATCH")) <==>
                i.request in t.attempts && t.attempts[i.request].result == Processing
                && t.attempts[i.request].(reason := "") != Attempt(i.session, i.order, i.account, i.buyer, Processing, ""))
    ensures i.request in t.attempts
            && t.attempts[i.request].(reason := "") == Attempt(i.session, i.order, i.account, i.buyer, Processing, "") ==>
              var outcome := Finalize(t, i, user);
              && (outcome == Rejected(Some("USER_NOT_FOUND")) <==> user == None)
              && (outcome == Rejected(Some("USER_REAL_AUTH_INVALID")) <==> user.Some? && user.value != User(true, true, true, true))
  {}

  // ---- over every run ----

  /**
    In the state before a commit the account is on sale or in trade, the order
    awaits its payment, the session waits and the attempt is processing, all
    bound to each other; the profile, read earlier in the same transaction,
    had all its four marks.  Afterwards exactly these four rows have moved.
   */
  lemma CommitsAreEntitled(states: seq<State>, actions: seq<Action>, k: nat, id: Id) returns (j: nat)
    requires Run(states, actions) && Initial(states[0]) && k < |actions|
    requires actions[k] == Step(id) && id in states[k].clients && states[k].clients[id].pc.Commit?
    ensures AuthRead(states, actions, j, k, id)
    ensures var t, t', i := states[k].tables, states[k + 1].tables, states[k].clients[id].Payment();
            && i.session in t.sessions && t.sessions[i.session] == Session(i.order, i.account, i.buyer, WaitingPay)
            && i.order in t.orders && t.orders[i.order] == Order(i.account, i.buyer, i.price, PendingPay)
            && i.account in t.accounts && t.accounts[i.account].status in {OnSale, Trading}
            && i.request in t.attempts
            && t.attempts[i.request].(reason := "") == Attempt(i.session, i.order, i.account, i.buyer, Processing, "")
            && i.buyer in states[j].tables.users && states[j].tables.users[i.buyer] == User(true, true, true, true)
            && t' == Tables(t.sessions[i.session := Session(i.order, i.account, i.buyer, SessionStatus.Paid)],
                            t.orders[i.order := Order(i.account, i.buyer, i.price, OrderStatus.Paid)],
                            t.accounts[i.account := Account(Sold, t.accounts[i.account].version + 1)],
                            t.attempts[i.request := Attempt(i.session, i.order, i.account, i.buyer, Success, "")],
                            t.users)
  {
    j := CommitsAreFinalizes(states, actions, k, id);
    var i := states[k].clients[id].Payment();
    hide Finalize, AuthRead, Run, Initial;
    FinalizeCommitsExactly(states[k].tables, i, ReadUser(states[j].tables, i.buyer));
  }

  lemma OthersSellNothing(s: State, a: Action)
    requires Inv(s) && Allowed(s, a) && !(a.Step? && s.clients[a.client].pc.Commit?)
    ensures forall x | x in Perform(s, a).tables.accounts && Perform(s, a).tables.accounts[x].status == Sold ::
              x in s.tables.accounts && s.tables.accounts[x].status == Sold
  {
    if a.Step? {
      assert Knows(s.tables, s.clients[a.client]);
      hide ClientStep, LocksGuard, Remembers, Consistent, ExclusiveLocks;
      StepTouches(s.tables, s.clients[a.client]);
    } else {
      hide Crash, MayThrow, Inv, Locked;
    }
  }

  /** No account is sold but from sale or trade, by the commit of a payment for it. */
  lemma SoldFromSale(states: seq<State>, actions: seq<Action>, k: nat, account: Id)
    requires Run(states, actions) && Initial(states[0]) && k < |actions|
    requires account in states[k + 1].tables.accounts && states[k + 1].tables.accounts[account].status == Sold
    requires !(account in states[k].tables.accounts && states[k].tables.accounts[account].status == Sold)
    ensures account in states[k].tables.accounts && states[k].tables.accounts[account].status in {OnSale, Trading}
    ensures actions[k].Step? && actions[k].client in states[k].clients
            && states[k].clients[actions[k].client].pc.Commit?
            && states[k].clients[actions[k].client].session.account == account
  {
    var s, a := states[k], actions[k];
    RunKeepsInv(states, actions, k);
    assert Allowed(s, a) && states[k + 1] == Perform(s, a);
    if a.Step? && s.clients[a.client].pc.Commit? {
      hide Perform, Inv, Run, Initial, Allowed;
      var j := CommitsAreEntitled(states, actions, k, a.client);
    } else {
      hide Perform, Inv, Run, Initial;
      OthersSellNothing(s, a);
    }
  }
}
