/**
  The payment handlers as a state machine.  Every database call is one step;
  `finalizePaymentSuccess` is further divided into its locking reads, its
  updates and its commit or rollback.  Between any two steps of one client any
  other client, and the rest of the business system, may act.
 */
module PaymentProtocol {
  import opened PaymentTables
  import opened Results

  datatype Answer = PaidAnswer | Issued(id: Id) | Refused(code: nat) | ServerError

  datatype Pc =
    // handlePay: snapshots
    | ReadAttempt | ReadSession | ReadOrder | ReadAccount | ReadBuyer
    // finalizePaymentSuccess: locking reads
    | Acquire | Begin | LockSession | LockOrder | LockAccount | LockAttempt | ReadAuth
    // finalizePaymentSuccess: updates and end of the transaction
    | UpdateOrder | UpdateAccount | UpdateSession | UpdateAttempt | CheckAffected
    | Commit | CommitNothing | Rollback(mark: Option<string>) | MarkFailed(reason: string)
    // handlePay: after the transaction
    | HandlerMark(reason: string, code: nat) | MarkSuccess | Notify
    // handleAttemptInit and handleConfirm
    | InitSession | InitOrder | InitAccount | InitInsert
    | ConfirmUser | ConfirmOrder | ConfirmAccount | ConfirmFind | ConfirmInsert
    | Done(answer: Answer)

  /** Rows changed by the four updates of a transaction, as the database reported them. */
  datatype Affected = Affected(order: nat, account: nat, session: nat, attempt: nat)

  const NONE_AFFECTED := Affected(0, 0, 0, 0)

  /**
    A request being served, with the local variables of its handler.
    `token` is the session named by the QR token, when the token verifies;
    `newId` is the identifier generated for an insert; `alive` says whether
    the expiry time of a session found by order still lies ahead.
    `held` counts the tables in which the open transaction has locked its row,
    in the order sessions, orders, accounts, attempts.
   */
  datatype Client = Client(
    pc: Pc,
    request: Id, token: Option<Id>, passwordOk: bool,
    userId: Id, orderSn: Id, newId: Id, alive: bool,
    sid: Id, session: Session, attempt: Attempt, price: int,
    held: nat, auth: Option<User>, affected: Affected)
  {
    function Payment(): Input {
      Input(sid, session.order, session.account, session.buyer, price, request)
    }

    /** The row locked in table `level`. */
    function Key(level: nat): Id {
      if level == 0 then sid
      else if level == 1 then session.order
      else if level == 2 then session.account
      else request
    }

    function Goto(next: Pc): Client {
      this.(pc := next)
    }
  }

  predicate StartsFresh(c: Client) {
    && c.held == 0 && c.affected == NONE_AFFECTED && c.auth == None
    && (c.pc == ReadAttempt || c.pc == InitSession || c.pc == ConfirmUser)
  }

  datatype State = State(
    tables: Tables,
    clients: map<Id, Client>,
    commits: seq<Input>,
    notified: seq<Id>)

  /** The effect of one step of one client. */
  datatype Effect = Effect(tables: Tables, client: Client, commits: seq<Input>, notified: seq<Id>)

  function Local(t: Tables, c: Client): Effect {
    Effect(t, c, [], [])
  }

  function Fail(t: Tables, c: Client, reason: string, code: nat): Effect {
    Local(t, c.Goto(HandlerMark(reason, code)))
  }

  /** The outcome of a check made inside the transaction. */
  function Checked(t: Tables, c: Client, check: Check, next: Client): Effect {
    match check
    case Pass => Local(t, next)
    case AlreadyPaid => Local(t, next.Goto(CommitNothing))
    case Reject(mark) => Local(t, c.Goto(Rollback(mark)))
  }

  /** The rows that the updates of the transaction have changed become visible. */
  function ApplyUpdates(t: Tables, c: Client): Tables {
    var i := c.Payment();
    t.(orders := if c.affected.order > 0 && i.order in t.orders
                 then t.orders[i.order := t.orders[i.order].(status := OrderStatus.Paid)] else t.orders,
       accounts := if c.affected.account > 0 && i.account in t.accounts
                   then t.accounts[i.account := t.accounts[i.account].(status := Sold, version := t.accounts[i.account].version + 1)]
                   else t.accounts,
       sessions := if c.affected.session > 0 && i.session in t.sessions
                   then t.sessions[i.session := t.sessions[i.session].(status := SessionStatus.Paid)] else t.sessions,
       attempts := if c.affected.attempt > 0 && i.request in t.attempts
                   then t.attempts[i.request := t.attempts[i.request].(result := Success, reason := "")] else t.attempts)
  }

  /** `handlePay` up to the call of the transaction: plain reads. */
  function PayReads(t: Tables, c: Client): Effect
    requires c.pc.ReadAttempt? || c.pc.ReadSession? || c.pc.ReadOrder? || c.pc.ReadAccount? || c.pc.ReadBuyer?
  {
    match c.pc
    case ReadAttempt =>
      if c.request !in t.attempts then Local(t, c.Goto(Done(Refused(40404))))
      else
        var row := t.attempts[c.request];
        if row.result == Success then Local(t, c.Goto(Done(PaidAnswer)))
        else if row.result == Failed then Local(t, c.Goto(Done(Refused(40904))))
        else if c.token == None then Fail(t, c, "INVALID_QR_TOKEN", 40102)
        else Local(t, c.(attempt := row, pc := ReadSession))
    case ReadSession =>
      if c.token == None || c.token.value !in t.sessions
         || t.sessions[c.token.value].status != WaitingPay then Fail(t, c, "SESSION_INVALID", 40905)
      else if c.attempt.session != c.token.value then Fail(t, c, "SESSION_MISMATCH", 40905)
      else Local(t, c.(sid := c.token.value, session := t.sessions[c.token.value], pc := ReadOrder))
    case ReadOrder =>
      if c.session.order !in t.orders || t.orders[c.session.order].status != PendingPay then
        Fail(t, c, "ORDER_NOT_PAYABLE", 40901)
      else Local(t, c.(price := t.orders[c.session.order].price, pc := ReadAccount))
    case ReadAccount =>
      if c.session.account !in t.accounts || !AccountPayable(t.accounts[c.session.account]) then
        Fail(t, c, "ACCOUNT_NOT_PAYABLE", 40903)
      else Local(t, c.Goto(ReadBuyer))
    case ReadBuyer =>
      if c.session.buyer !in t.users || !t.users[c.session.buyer].normal then Fail(t, c, "USER_INVALID", 40301)
      else if !c.passwordOk then Fail(t, c, "PASSWORD_INVALID", 40104)
      else Local(t, c.Goto(Acquire))
  }

  predicate InTransaction(pc: Pc) {
    || pc.Begin? || pc.LockSession? || pc.LockOrder? || pc.LockAccount? || pc.LockAttempt? || pc.ReadAuth?
    || pc.UpdateOrder? || pc.UpdateAccount? || pc.UpdateSession? || pc.UpdateAttempt? || pc.CheckAffected?
    || pc.Commit? || pc.CommitNothing? || pc.Rollback?
  }

  /** `finalizePaymentSuccess` between BEGIN and the end of the transaction. */
  function TransactionStep(t: Tables, c: Client): Effect
    requires InTransaction(c.pc)
  {
    var i := c.Payment();
    match c.pc
    case Begin => Local(t, c.Goto(LockSession))
    case LockSession => Checked(t, c, CheckSession(t, i), c.(held := 1, pc := LockOrder))
    case LockOrder => Checked(t, c, CheckOrder(t, i), c.(held := 2, pc := LockAccount))
    case LockAccount => Checked(t, c, CheckAccount(t, i), c.(held := 3, pc := LockAttempt))
    case LockAttempt => Checked(t, c, CheckAttempt(t, i), c.(held := 4, pc := ReadAuth))
    case ReadAuth =>
      var user := ReadUser(t, i.buyer);
      Checked(t, c, CheckUser(user), c.(auth := user, pc := UpdateOrder))
    case UpdateOrder =>
      var n := if i.order in t.orders && t.orders[i.order].status == PendingPay then 1 else 0;
      Local(t, c.(affected := c.affected.(order := n), pc := UpdateAccount))
    case UpdateAccount =>
      var n := if i.account in t.accounts && AccountPayable(t.accounts[i.account]) then 1 else 0;
      Local(t, c.(affected := c.affected.(account := n), pc := UpdateSession))
    case UpdateSession =>
      var n := if i.session in t.sessions && t.sessions[i.session].status == WaitingPay then 1 else 0;
      Local(t, c.(affected := c.affected.(session := n), pc := UpdateAttempt))
    case UpdateAttempt =>
      var n := if i.request in t.attempts && t.attempts[i.request].result == Processing then 1 else 0;
      Local(t, c.(affected := c.affected.(attempt := n), pc := CheckAffected))
    case CheckAffected =>
      if c.affected != Affected(1, 1, 1, 1) then Local(t, c.Goto(Rollback(Some("PAYMENT_STATE_UPDATE_FAILED"))))
      else Local(t, c.Goto(Commit))
    case Commit =>
      Effect(ApplyUpdates(t, c), c.(held := 0, affected := NONE_AFFECTED, pc := MarkSuccess), [i], [])
    case CommitNothing =>
      Local(t, c.(held := 0, pc := MarkSuccess))
    case Rollback(mark) =>
      var next := if mark == None then HandlerMark("FINALIZE_TXN_FAILED", 40904) else MarkFailed(mark.value);
      Local(t, c.(held := 0, affected := NONE_AFFECTED, pc := next))
  }

  /** The single statements that follow the transaction, and its start. */
  function PayWrites(t: Tables, c: Client): Effect
    requires c.pc.Acquire? || c.pc.MarkFailed? || c.pc.HandlerMark? || c.pc.MarkSuccess? || c.pc.Notify?
  {
    match c.pc
    case Acquire => Local(t, c.Goto(Begin))
    case MarkFailed(reason) =>
      Local(SetResult(t, c.request, Failed, reason), c.Goto(HandlerMark("FINALIZE_TXN_FAILED", 40904)))
    case HandlerMark(reason, code) =>
      Local(SetResult(t, c.request, Failed, reason), c.Goto(Done(Refused(code))))
    case MarkSuccess => Local(SetResult(t, c.request, Success, ""), c.Goto(Notify))
    case Notify => Effect(t, c.Goto(Done(PaidAnswer)), [], [c.sid])
  }

  predicate Initialising(pc: Pc) {
    || pc.InitSession? || pc.InitOrder? || pc.InitAccount? || pc.InitInsert?
    || pc.ConfirmUser? || pc.ConfirmOrder? || pc.ConfirmAccount? || pc.ConfirmFind? || pc.ConfirmInsert?
  }

  /** The session of an order; the order number is a unique key of the table. */
  ghost function SessionOf(t: Tables, orderSn: Id): (r: Option<Id>)
    ensures r.Some? ==> r.value in t.sessions && t.sessions[r.value].order == orderSn
    ensures r == None ==> forall s | s in t.sessions :: t.sessions[s].order != orderSn
  {
    if exists s :: s in t.sessions && t.sessions[s].order == orderSn then
      var s :| s in t.sessions && t.sessions[s].order == orderSn;
      Some(s)
    else None
  }

  /** `handleAttemptInit` and `handleConfirm`. */
  ghost function InitStep(t: Tables, c: Client): Effect
    requires Initialising(c.pc)
  {
    match c.pc
    case InitSession =>
      if c.token == None then Local(t, c.Goto(Done(Refused(40102))))
      else if c.token.value !in t.sessions || t.sessions[c.token.value].status != WaitingPay then
        Local(t, c.Goto(Done(Refused(40911))))
      else Local(t, c.(sid := c.token.value, session := t.sessions[c.token.value], pc := InitOrder))
    case InitOrder =>
      if c.session.order !in t.orders || t.orders[c.session.order].status != PendingPay then
        Local(t, c.Goto(Done(Refused(40901))))
      else Local(t, c.Goto(InitAccount))
    case InitAccount =>
      if c.session.account !in t.accounts || !AccountPayable(t.accounts[c.session.account]) then
        Local(t, c.Goto(Done(Refused(40903))))
      else Local(t, c.Goto(InitInsert))
    case InitInsert =>
      if c.newId in t.attempts then Local(t, c.Goto(Done(ServerError)))
      else
        var row := Attempt(c.sid, c.session.order, c.session.account, c.session.buyer, Processing, "");
        Local(t.(attempts := t.attempts[c.newId := row]), c.Goto(Done(Issued(c.newId))))
    case ConfirmUser =>
      if c.userId !in t.users || !t.users[c.userId].normal then Local(t, c.Goto(Done(Refused(40301))))
      else
        var u := t.users[c.userId];
        if !(u.realAuth && u.hasEmailHash && u.hasIdCardHash) then Local(t, c.Goto(Done(Refused(40910))))
        else Local(t, c.Goto(ConfirmOrder))
    case ConfirmOrder =>
      if c.orderSn !in t.orders || t.orders[c.orderSn].buyer != c.userId then Local(t, c.Goto(Done(Refused(40401))))
      else if t.orders[c.orderSn].status != PendingPay then Local(t, c.Goto(Done(Refused(40901))))
      else
        var order := t.orders[c.orderSn];
        Local(t, c.(session := Session(c.orderSn, order.account, c.userId, WaitingPay), pc := ConfirmAccount))
    case ConfirmAccount =>
      if c.session.account !in t.accounts || !AccountPayable(t.accounts[c.session.account]) then
        Local(t, c.Goto(Done(Refused(40903))))
      else Local(t, c.Goto(ConfirmFind))
    case ConfirmFind =>
      // a session of the order is reused while it waits for payment and has not run out
      var found := SessionOf(t, c.orderSn);
      if found.Some? && t.sessions[found.value].status == WaitingPay && c.alive then
        Local(t, c.Goto(Done(Issued(found.value))))
      else Local(t, c.Goto(ConfirmInsert))
    case ConfirmInsert =>
      // both the session id and the order number are unique keys
      if c.newId in t.sessions || SessionOf(t, c.orderSn).Some? then
        Local(t, c.Goto(Done(ServerError)))
      else Local(t.(sessions := t.sessions[c.newId := c.session]), c.Goto(Done(Issued(c.newId))))
  }

  ghost function ClientStep(t: Tables, c: Client): Effect
    requires !c.pc.Done?
  {
    if c.pc.ReadAttempt? || c.pc.ReadSession? || c.pc.ReadOrder? || c.pc.ReadAccount? || c.pc.ReadBuyer? then PayReads(t, c)
    else if InTransaction(c.pc) then TransactionStep(t, c)
    else if Initialising(c.pc) then InitStep(t, c)
    else PayWrites(t, c)
  }

  /**
    A database call that throws.  Inside the transaction it ends in a rollback
    and a mark, the mark after a rollback swallows it, everywhere else the
    handler answers with a server error.  The rollback itself never throws.
   */
  function Crash(c: Client): Client
    requires MayThrow(c)
  {
    if InTransaction(c.pc) then c.Goto(Rollback(Some("PAYMENT_INTERNAL_ERROR")))
    else if c.pc.MarkFailed? then c.Goto(HandlerMark("FINALIZE_TXN_FAILED", 40904))
    else c.Goto(Done(ServerError))
  }

  predicate MayThrow(c: Client) {
    !c.pc.Done? && !c.pc.Rollback?
  }

  // ---- row locks ----

  /** Some open transaction has locked row `id` of table `level`. */
  ghost predicate Locked(s: State, level: nat, id: Id) {
    exists d | d in s.clients :: Holds(s.clients[d], level, id)
  }

  predicate Holds(c: Client, level: nat, id: Id) {
    level < 4 && c.held > level && c.Key(level) == id
  }

  /** The row a client must be able to lock to go on. */
  function Wants(c: Client): Option<(nat, Id)> {
    match c.pc
    case LockSession => Some((0, c.sid))
    case LockOrder => Some((1, c.session.order))
    case LockAccount => Some((2, c.session.account))
    case LockAttempt => Some((3, c.request))
    case MarkFailed(_) => Some((3, c.request))
    case HandlerMark(_, _) => Some((3, c.request))
    case MarkSuccess => Some((3, c.request))
    case _ => None
  }

  ghost predicate Enabled(s: State, c: Id) {
    && c in s.clients && !s.clients[c].pc.Done?
    && (Wants(s.clients[c]).Some? ==> !Locked(s, Wants(s.clients[c]).value.0, Wants(s.clients[c]).value.1))
  }

  // ---- the steps of the whole system ----

  ghost function Advance(s: State, c: Id): State
    requires c in s.clients && !s.clients[c].pc.Done?
  {
    var e := ClientStep(s.tables, s.clients[c]);
    State(e.tables, s.clients[c := e.client], s.commits + e.commits, s.notified + e.notified)
  }

  datatype Environment =
    | CloseSession(sid: Id, sessionStatus: SessionStatus)
    | MoveOrder(orderSn: Id, orderStatus: OrderStatus)
    | MoveAccount(account: Id, accountStatus: AccountStatus)
    | NewOrder(orderSn: Id, order: Order)
    | NewAccount(account: Id, row: Account)
    | SetUser(user: Id, profile: User)

  /** What the rest of the business system may do to the tables. */
  ghost predicate EnvironmentAllowed(s: State, e: Environment) {
    var t := s.tables;
    match e
    case CloseSession(id, status) =>
      && id in t.sessions && t.sessions[id].status == WaitingPay && !Locked(s, 0, id)
      && (status == SessionStatus.Invalid || status == SessionStatus.Expired)
    case MoveOrder(id, status) =>
      && id in t.orders && t.orders[id].status == PendingPay && !Locked(s, 1, id)
      && (status == Cancelled || status == OrderStatus.Expired)
    case MoveAccount(id, status) =>
      && id in t.accounts && t.accounts[id].status != Sold && !Locked(s, 2, id) && status != Sold
    case NewOrder(id, row) => id !in t.orders && row.status == PendingPay
    case NewAccount(id, row) => id !in t.accounts && row.status != Sold && row.version == 0
    case SetUser(_, _) => true
  }

  function EnvironmentEffect(t: Tables, e: Environment): Tables {
    match e
    case CloseSession(id, status) =>
      if id in t.sessions then t.(sessions := t.sessions[id := t.sessions[id].(status := status)]) else t
    case MoveOrder(id, status) =>
      if id in t.orders then t.(orders := t.orders[id := t.orders[id].(status := status)]) else t
    case MoveAccount(id, status) =>
      if id in t.accounts then t.(accounts := t.accounts[id := t.accounts[id].(status := status)]) else t
    case NewOrder(id, row) => t.(orders := t.orders[id := row])
    case NewAccount(id, row) => t.(accounts := t.accounts[id := row])
    case SetUser(id, row) => t.(users := t.users[id := row])
  }

  datatype Action =
    | Step(client: Id)
    | Throw(client: Id)
    | Arrive(client: Id, arrival: Client)
    | Outside(change: Environment)

  ghost predicate Allowed(s: State, a: Action) {
    match a
    case Step(c) => Enabled(s, c)
    case Throw(c) => c in s.clients && MayThrow(s.clients[c])
    case Arrive(c, client) => c !in s.clients && StartsFresh(client)
    case Outside(e) => EnvironmentAllowed(s, e)
  }

  ghost function Perform(s: State, a: Action): State {
    match a
    case Step(c) => if c in s.clients && !s.clients[c].pc.Done? then Advance(s, c) else s
    case Throw(c) =>
      if c in s.clients && MayThrow(s.clients[c]) then s.(clients := s.clients[c := Crash(s.clients[c])]) else s
    case Arrive(c, client) => s.(clients := s.clients[c := client])
    case Outside(e) => s.(tables := EnvironmentEffect(s.tables, e))
  }

  /** A run: every state follows from the one before by an allowed action. */
  ghost predicate Run(states: seq<State>, actions: seq<Action>) {
    && |states| == |actions| + 1
    && (forall k | 0 <= k < |actions| :: Allowed(states[k], actions[k]) && states[k + 1] == Perform(states[k], actions[k]))
  }

  /** Any consistent tables, no request being served yet. */
  ghost predicate Initial(s: State) {
    Consistent(s.tables) && s.clients == map[] && s.commits == [] && s.notified == []
  }
}
