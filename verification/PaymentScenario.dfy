/**
  One payment followed step by step.  Its buyer loses the right to pay after
  the transaction has read the profile, and the payment commits all the same;
  and an exception after the commit hides the payment from the client.
 */
module PaymentScenario {
  import opened PaymentTables
  import opened PaymentProtocol
  import opened PaymentSafety
  import opened PaymentHistory
  import opened PaymentOutcomes
  import opened Results

  // ---- reachable states ----

  ghost predicate ReachedBy(states: seq<State>, actions: seq<Action>, s: State) {
    Run(states, actions) && Initial(states[0]) && states[|actions|] == s
  }

  ghost predicate Reachable(s: State) {
    exists states, actions :: ReachedBy(states, actions, s)
  }

  lemma StartIsReachable(s: State)
    requires Initial(s)
    ensures Reachable(s)
  {
    assert ReachedBy([s], [], s);
  }

  lemma Onward(s: State, a: Action)
    requires Reachable(s) && Allowed(s, a)
    ensures Reachable(Perform(s, a))
  {
    hide Allowed, Perform, Initial;
    var states, actions :| ReachedBy(states, actions, s);
    var next, more := states + [Perform(s, a)], actions + [a];
    forall k | 0 <= k < |more|
      ensures Allowed(next[k], more[k]) && next[k + 1] == Perform(next[k], more[k])
    {
      if k < |actions| {
        assert Allowed(states[k], actions[k]) && states[k + 1] == Perform(states[k], actions[k]);
      }
    }
    assert ReachedBy(next, more, Perform(s, a));
  }

  /** The state with one request and nothing logged. */
  function Single(t: Tables, c: Client): State {
    State(t, map["c" := c], [], [])
  }

  /** The only client is never kept waiting, since it waits for no lock of its own. */
  lemma MoveOn(t: Tables, c: Client, next: Client)
    requires Reachable(Single(t, c)) && LeadsTo(t, c, next)
    ensures Reachable(Single(t, next))
  {
    hide ClientStep, Reachable, Wants;
    var s := Single(t, c);
    assert Enabled(s, "c");
    Onward(s, Step("c"));
    assert Perform(s, Step("c")) == Single(t, next);
  }

  // ---- one payment ----

  function Rows(profile: User): Tables {
    Tables(map["s" := Session("o", "a", "b", WaitingPay)], map["o" := Order("a", "b", 1, PendingPay)],
           map["a" := Account(OnSale, 0)], map["r" := Attempt("s", "o", "a", "b", Processing, "")], map["b" := profile])
  }

  const VERIFIED := User(true, true, true, true)
  const SUSPENDED := User(false, true, true, true)

  /** The request on arrival. */
  function Arrived(): Client {
    Client(ReadAttempt, "r", Some("s"), true, "", "", "", true, "", Session("", "", "", WaitingPay),
           Attempt("", "", "", "", Processing, ""), 0, 0, None, NONE_AFFECTED)
  }

  /** The request with all its reads done, `held` rows locked. */
  function Serving(pc: Pc, held: nat): Client {
    Client(pc, "r", Some("s"), true, "", "", "", true, "s", Session("o", "a", "b", WaitingPay),
           Attempt("s", "o", "a", "b", Processing, ""), 1, held, None, NONE_AFFECTED)
  }

  /** The request authorised, with some of its updates made. */
  function Paying(pc: Pc, affected: Affected): Client {
    Serving(pc, 4).(auth := Some(VERIFIED), affected := affected)
  }

  function AttemptRead(): Client {
    Arrived().(attempt := Attempt("s", "o", "a", "b", Processing, ""), pc := ReadSession)
  }

  /** One step of the request leads to `next`, and waits for nobody. */
  ghost predicate LeadsTo(t: Tables, c: Client, next: Client) {
    && !c.pc.Done? && ClientStep(t, c) == Local(t, next)
    && (Wants(c).Some? ==> c.held <= Wants(c).value.0)
  }

  lemma FirstRead()
    ensures LeadsTo(Rows(VERIFIED), Arrived(), AttemptRead())
  {
    hide TransactionStep, InitStep, PayWrites;
  }

  lemma SecondRead()
    ensures LeadsTo(Rows(VERIFIED), AttemptRead(), Serving(ReadOrder, 0).(price := 0))
  {
    hide TransactionStep, InitStep, PayWrites;
  }

  lemma OrderRead()
    ensures LeadsTo(Rows(VERIFIED), Serving(ReadOrder, 0).(price := 0), Serving(ReadAccount, 0))
  {
    hide TransactionStep, InitStep, PayWrites;
  }

  lemma LastReads()
    ensures LeadsTo(Rows(VERIFIED), Serving(ReadAccount, 0), Serving(ReadBuyer, 0))
    ensures LeadsTo(Rows(VERIFIED), Serving(ReadBuyer, 0), Serving(Acquire, 0))
  {
    hide TransactionStep, InitStep, PayWrites;
  }

  lemma TransactionStarts()
    ensures LeadsTo(Rows(VERIFIED), Serving(Acquire, 0), Serving(Begin, 0))
    ensures LeadsTo(Rows(VERIFIED), Serving(Begin, 0), Serving(LockSession, 0))
  {}

  lemma FirstLocks()
    ensures LeadsTo(Rows(VERIFIED), Serving(LockSession, 0), Serving(LockOrder, 1))
    ensures LeadsTo(Rows(VERIFIED), Serving(LockOrder, 1), Serving(LockAccount, 2))
  {
    hide PayReads, InitStep, PayWrites;
  }

  lemma LastLocks()
    ensures LeadsTo(Rows(VERIFIED), Serving(LockAccount, 2), Serving(LockAttempt, 3))
    ensures LeadsTo(Rows(VERIFIED), Serving(LockAttempt, 3), Serving(ReadAuth, 4))
  {
    hide PayReads, InitStep, PayWrites;
  }

  lemma ProfileRead()
    ensures LeadsTo(Rows(VERIFIED), Serving(ReadAuth, 4), Paying(UpdateOrder, NONE_AFFECTED))
  {
    hide PayReads, InitStep, PayWrites;
  }

  lemma FirstUpdates()
    ensures LeadsTo(Rows(SUSPENDED), Paying(UpdateOrder, NONE_AFFECTED), Paying(UpdateAccount, Affected(1, 0, 0, 0)))
    ensures LeadsTo(Rows(SUSPENDED), Paying(UpdateAccount, Affected(1, 0, 0, 0)), Paying(UpdateSession, Affected(1, 1, 0, 0)))
  {
    hide PayReads, InitStep, PayWrites, CheckSession, CheckOrder, CheckAccount, CheckAttempt, CheckUser, ApplyUpdates;
  }

  lemma SessionUpdate()
    ensures LeadsTo(Rows(SUSPENDED), Paying(UpdateSession, Affected(1, 1, 0, 0)), Paying(UpdateAttempt, Affected(1, 1, 1, 0)))
  {
    hide PayReads, InitStep, PayWrites, CheckSession, CheckOrder, CheckAccount, CheckAttempt, CheckUser, ApplyUpdates;
  }

  lemma AttemptUpdate()
    ensures LeadsTo(Rows(SUSPENDED), Paying(UpdateAttempt, Affected(1, 1, 1, 0)), Paying(CheckAffected, Affected(1, 1, 1, 1)))
  {
    hide PayReads, InitStep, PayWrites, CheckSession, CheckOrder, CheckAccount, CheckAttempt, CheckUser, ApplyUpdates;
  }

  lemma AllAffected()
    ensures LeadsTo(Rows(SUSPENDED), Paying(CheckAffected, Affected(1, 1, 1, 1)), Paying(Commit, Affected(1, 1, 1, 1)))
  {
    hide PayReads, InitStep, PayWrites, CheckSession, CheckOrder, CheckAccount, CheckAttempt, CheckUser, ApplyUpdates;
  }

  /** From the arrival to the last step before the locks. */
  lemma ReadsReach()
    ensures Reachable(Single(Rows(VERIFIED), Serving(LockSession, 0)))
  {
    hide Reachable, LeadsTo;
    var t := Rows(VERIFIED);
    var start := State(t, map[], [], []);
    assert Consistent(t);
    StartIsReachable(start);
    Onward(start, Arrive("c", Arrived()));
    assert Perform(start, Arrive("c", Arrived())) == Single(t, Arrived());
    FirstRead();
    SecondRead();
    OrderRead();
    LastReads();
    TransactionStarts();
    hide *;
    MoveOn(t, Arrived(), AttemptRead());
    MoveOn(t, AttemptRead(), Serving(ReadOrder, 0).(price := 0));
    MoveOn(t, Serving(ReadOrder, 0).(price := 0), Serving(ReadAccount, 0));
    MoveOn(t, Serving(ReadAccount, 0), Serving(ReadBuyer, 0));
    MoveOn(t, Serving(ReadBuyer, 0), Serving(Acquire, 0));
    MoveOn(t, Serving(Acquire, 0), Serving(Begin, 0));
    MoveOn(t, Serving(Begin, 0), Serving(LockSession, 0));
  }

  lemma LocksReach()
    ensures Reachable(Single(Rows(VERIFIED), Paying(UpdateOrder, NONE_AFFECTED)))
  {
    hide *;
    var t := Rows(VERIFIED);
    ReadsReach();
    FirstLocks();
    LastLocks();
    ProfileRead();
    MoveOn(t, Serving(LockSession, 0), Serving(LockOrder, 1));
    MoveOn(t, Serving(LockOrder, 1), Serving(LockAccount, 2));
    MoveOn(t, Serving(LockAccount, 2), Serving(LockAttempt, 3));
    MoveOn(t, Serving(LockAttempt, 3), Serving(ReadAuth, 4));
    MoveOn(t, Serving(ReadAuth, 4), Paying(UpdateOrder, NONE_AFFECTED));
  }

  lemma Suspend()
    requires Reachable(Single(Rows(VERIFIED), Paying(UpdateOrder, NONE_AFFECTED)))
    ensures Reachable(Single(Rows(SUSPENDED), Paying(UpdateOrder, NONE_AFFECTED)))
  {
    hide Reachable, Paying;
    var s := Single(Rows(VERIFIED), Paying(UpdateOrder, NONE_AFFECTED));
    Onward(s, Outside(SetUser("b", SUSPENDED)));
    assert Perform(s, Outside(SetUser("b", SUSPENDED))) == Single(Rows(SUSPENDED), Paying(UpdateOrder, NONE_AFFECTED));
  }

  /** The business system suspends the buyer after the profile was read, and the transaction does not notice. */
  lemma UpdatesReach()
    ensures Reachable(Single(Rows(SUSPENDED), Paying(Commit, Affected(1, 1, 1, 1))))
  {
    hide *;
    var t := Rows(SUSPENDED);
    LocksReach();
    Suspend();
    FirstUpdates();
    SessionUpdate();
    AttemptUpdate();
    AllAffected();
    MoveOn(t, Paying(UpdateOrder, NONE_AFFECTED), Paying(UpdateAccount, Affected(1, 0, 0, 0)));
    MoveOn(t, Paying(UpdateAccount, Affected(1, 0, 0, 0)), Paying(UpdateSession, Affected(1, 1, 0, 0)));
    MoveOn(t, Paying(UpdateSession, Affected(1, 1, 0, 0)), Paying(UpdateAttempt, Affected(1, 1, 1, 0)));
    MoveOn(t, Paying(UpdateAttempt, Affected(1, 1, 1, 0)), Paying(CheckAffected, Affected(1, 1, 1, 1)));
    MoveOn(t, Paying(CheckAffected, Affected(1, 1, 1, 1)), Paying(Commit, Affected(1, 1, 1, 1)));
  }

  /**
    The transaction run in one piece at its commit would refuse: the profile
    is read without a lock.
   */
  lemma ProfileMayChange()
    ensures exists s, id ::
              && Reachable(s) && Enabled(s, id) && s.clients[id].pc.Commit?
              && var i := s.clients[id].Payment();
                 Finalize(s.tables, i, ReadUser(s.tables, i.buyer)) == Rejected(Some("USER_REAL_AUTH_INVALID"))
  {
    hide Reachable;
    UpdatesReach();
    var s := Single(Rows(SUSPENDED), Paying(Commit, Affected(1, 1, 1, 1)));
    assert Enabled(s, "c");
    var i := s.clients["c"].Payment();
    assert Finalize(s.tables, i, ReadUser(s.tables, i.buyer)) == Rejected(Some("USER_REAL_AUTH_INVALID"));
  }

  lemma CommitLeads()
    ensures var c := Paying(Commit, Affected(1, 1, 1, 1));
            var e := ClientStep(Rows(SUSPENDED), c);
            && c.pc == Commit && e.client == c.(held := 0, affected := NONE_AFFECTED, pc := MarkSuccess)
            && e.commits == [c.Payment()]
  {
    hide PayReads, InitStep, PayWrites;
  }

  lemma PaidReach() returns (s: State)
    ensures Reachable(s) && "c" in s.clients && s.clients["c"].pc == MarkSuccess && s.commits == [s.clients["c"].Payment()]
  {
    UpdatesReach();
    CommitLeads();
    hide Reachable, Rows, ClientStep, Paying;
    var before := Single(Rows(SUSPENDED), Paying(Commit, Affected(1, 1, 1, 1)));
    assert Enabled(before, "c");
    Onward(before, Step("c"));
    s := Perform(before, Step("c"));
  }

  /** A server error after the commit: the order is paid although the client is not told so. */
  lemma ErrorAfterCommit()
    ensures exists s, id ::
              && Reachable(s) && id in s.clients && s.clients[id].pc == Done(ServerError)
              && s.commits == [s.clients[id].Payment()]
  {
    hide Reachable;
    var paid := PaidReach();
    Onward(paid, Throw("c"));
    var last := Perform(paid, Throw("c"));
    assert last.clients["c"].pc == Done(ServerError) && last.commits == [last.clients["c"].Payment()];
  }
}
