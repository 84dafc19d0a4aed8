/**
  The four payment tables and the effect of `finalizePaymentSuccess` when it
  is run in one piece.
 */
module PaymentTables {
  import opened Results

  type Id = string

  datatype OrderStatus = PendingPay | Paid | Cancelled | Expired
  datatype AccountStatus = OnSale | Trading | Sold | Removed
  datatype SessionStatus = WaitingPay | Paid | Invalid | Expired
  datatype AttemptResult = Processing | Success | Failed

  datatype Order = Order(account: Id, buyer: Id, price: int, status: OrderStatus)
  datatype Account = Account(status: AccountStatus, version: nat)
  datatype Session = Session(order: Id, account: Id, buyer: Id, status: SessionStatus)
  datatype Attempt = Attempt(session: Id, order: Id, account: Id, buyer: Id, result: AttemptResult, reason: string)
  datatype User = User(normal: bool, realAuth: bool, hasEmailHash: bool, hasIdCardHash: bool)

  datatype Tables = Tables(
    sessions: map<Id, Session>,
    orders: map<Id, Order>,
    accounts: map<Id, Account>,
    attempts: map<Id, Attempt>,
    users: map<Id, User>)

  /** What `handlePay` hands to the final transaction. */
  datatype Input = Input(session: Id, order: Id, account: Id, buyer: Id, price: int, request: Id)

  predicate AccountPayable(a: Account) {
    a.status == OnSale || a.status == Trading
  }

  predicate UserMayPay(u: User) {
    u.normal && u.realAuth && u.hasEmailHash && u.hasIdCardHash
  }

  // ---- the checks made under the row locks, in the order of the program ----

  /** A check either passes or names what follows: a mark on the attempt, or none. */
  datatype Check = Pass | AlreadyPaid | Reject(mark: Option<string>)

  function CheckSession(t: Tables, i: Input): (r: Check)
    ensures r != AlreadyPaid
  {
    if i.session !in t.sessions then Reject(Some("SESSION_NOT_FOUND"))
    else
      var row := t.sessions[i.session];
      if row.order != i.order || row.account != i.account || row.buyer != i.buyer then
        Reject(Some("SESSION_BINDING_MISMATCH"))
      else if row.status != SessionStatus.WaitingPay then Reject(Some("SESSION_NOT_PAYABLE"))
      else Pass
  }

  function CheckOrder(t: Tables, i: Input): (r: Check)
    ensures r != AlreadyPaid
  {
    if i.order !in t.orders then Reject(Some("ORDER_NOT_FOUND"))
    else
      var row := t.orders[i.order];
      if row.status == OrderStatus.Paid then Reject(Some("ORDER_ALREADY_PAID"))
      else if row.status != PendingPay then Reject(Some("ORDER_NOT_PAYABLE"))
      else if row.account != i.account || row.buyer != i.buyer || row.price != i.price then
        Reject(Some("ORDER_SNAPSHOT_MISMATCH"))
      else Pass
  }

  function CheckAccount(t: Tables, i: Input): (r: Check)
    ensures r != AlreadyPaid
  {
    if i.account !in t.accounts then Reject(Some("ACCOUNT_NOT_FOUND"))
    else if !AccountPayable(t.accounts[i.account]) then Reject(Some("ACCOUNT_NOT_TRADABLE"))
    else Pass
  }

  function CheckAttempt(t: Tables, i: Input): Check {
    if i.request !in t.attempts then Reject(None)
    else
      var row := t.attempts[i.request];
      if row.result == Success then AlreadyPaid
      else if row.result == Failed then Reject(None)
      else if row.session != i.session || row.order != i.order || row.account != i.account || row.buyer != i.buyer then
        Reject(Some("REQUEST_BINDING_MISMATCH"))
      else Pass
  }

  function CheckUser(user: Option<User>): (r: Check)
    ensures r != AlreadyPaid
  {
    if user == None then Reject(Some("USER_NOT_FOUND"))
    else if !UserMayPay(user.value) then Reject(Some("USER_REAL_AUTH_INVALID"))
    else Pass
  }

  function ReadUser(t: Tables, id: Id): Option<User> {
    if id in t.users then Some(t.users[id]) else None
  }

  // ---- the transaction in one piece ----

  datatype Outcome = Committed(tables: Tables) | Unchanged | Rejected(mark: Option<string>)

  /** All four rows move together. */
  function Settle(t: Tables, i: Input): Tables
    requires i.session in t.sessions && i.order in t.orders && i.account in t.accounts && i.request in t.attempts
  {
    var account := t.accounts[i.account];
    t.(orders := t.orders[i.order := t.orders[i.order].(status := OrderStatus.Paid)],
       accounts := t.accounts[i.account := account.(status := Sold, version := account.version + 1)],
       sessions := t.sessions[i.session := t.sessions[i.session].(status := SessionStatus.Paid)],
       attempts := t.attempts[i.request := t.attempts[i.request].(result := Success, reason := "")])
  }

  /** The whole of `finalizePaymentSuccess` run without interruption. */
  function Finalize(t: Tables, i: Input, user: Option<User>): Outcome {
    if CheckSession(t, i).Reject? then Rejected(CheckSession(t, i).mark)
    else if CheckOrder(t, i).Reject? then Rejected(CheckOrder(t, i).mark)
    else if CheckAccount(t, i).Reject? then Rejected(CheckAccount(t, i).mark)
    else if CheckAttempt(t, i).Reject? then Rejected(CheckAttempt(t, i).mark)
    else if CheckAttempt(t, i) == AlreadyPaid then Unchanged
    else if CheckUser(user).Reject? then Rejected(CheckUser(user).mark)
    else Committed(Settle(t, i))
  }

  /** `updatePaymentAttemptResult`: no condition on the old result. */
  function SetResult(t: Tables, request: Id, result: AttemptResult, reason: string): Tables {
    if request in t.attempts then
      t.(attempts := t.attempts[request := t.attempts[request].(result := result, reason := reason)])
    else t
  }

  // ---- the promise between the tables ----

  ghost predicate SessionSettled(t: Tables, s: Session) {
    && s.order in t.orders && t.orders[s.order].status == OrderStatus.Paid
    && s.account in t.accounts && t.accounts[s.account].status == Sold
  }

  ghost predicate PaidSession(t: Tables, id: Id) {
    id in t.sessions && t.sessions[id].status == SessionStatus.Paid
  }

  /** A successful attempt has a paid session, whose order is paid and whose account is sold. */
  ghost predicate Consistent(t: Tables) {
    && (forall r | r in t.attempts && t.attempts[r].result == Success :: PaidSession(t, t.attempts[r].session))
    && (forall s | PaidSession(t, s) :: SessionSettled(t, t.sessions[s]))
  }

  /**
    What no step of the whole system takes back: rows stay, the identity of
    sessions, orders and attempts is fixed, payment is final, an attempt is
    never processing again.
   */
  ghost predicate Monotone(t: Tables, t': Tables) {
    && (forall s | s in t.sessions :: SessionKept(t, t', s))
    && (forall o | o in t.orders :: OrderKept(t, t', o))
    && (forall a | a in t.accounts :: AccountKept(t, t', a))
    && (forall r | r in t.attempts :: AttemptKept(t, t', r))
  }

  ghost predicate SessionKept(t: Tables, t': Tables, s: Id)
    requires s in t.sessions
  {
    && s in t'.sessions
    && t'.sessions[s].(status := t.sessions[s].status) == t.sessions[s]
    && (t.sessions[s].status == SessionStatus.Paid ==> t'.sessions[s].status == SessionStatus.Paid)
  }

  ghost predicate OrderKept(t: Tables, t': Tables, o: Id)
    requires o in t.orders
  {
    && o in t'.orders
    && t'.orders[o].(status := t.orders[o].status) == t.orders[o]
    && (t.orders[o].status == OrderStatus.Paid ==> t'.orders[o].status == OrderStatus.Paid)
  }

  ghost predicate AccountKept(t: Tables, t': Tables, a: Id)
    requires a in t.accounts
  {
    a in t'.accounts && (t.accounts[a].status == Sold ==> t'.accounts[a].status == Sold)
  }

  ghost predicate AttemptKept(t: Tables, t': Tables, r: Id)
    requires r in t.attempts
  {
    && r in t'.attempts
    && t'.attempts[r].(result := t.attempts[r].result, reason := t.attempts[r].reason) == t.attempts[r]
    && (t.attempts[r].result != Processing ==> t'.attempts[r].result != Processing)
  }
}
