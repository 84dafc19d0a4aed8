/**
  What a request has done by the time it is answered, and which user profile
  a committed payment was authorised with.
 */
module PaymentOutcomes {
  import opened PaymentTables
  import opened PaymentProtocol
  import opened PaymentSafety
  import opened PaymentHistory

  // ---- the profile behind a commit ----

  /**
    At state `j` the client read the profile with which it has authorised its
    payment ever since; it has been in the same transaction up to state `k`.
   */
  ghost predicate AuthRead(states: seq<State>, actions: seq<Action>, j: nat, k: nat, id: Id) {
    && j < k < |states| && j < |actions| && actions[j] == Step(id)
    && id in states[j].clients && states[j].clients[id].pc.ReadAuth?
    && forall m | j < m <= k :: AuthorisedAt(states, j, m, id)
  }

  ghost predicate AuthorisedAt(states: seq<State>, j: nat, m: nat, id: Id)
    requires j < |states| && m < |states| && id in states[j].clients
  {
    var c := states[j].clients[id];
    && id in states[m].clients && Authorised(states[m].clients[id].pc)
    && states[m].clients[id].Payment() == c.Payment() && states[m].clients[id].auth == ReadUser(states[j].tables, c.Payment().buyer)
  }

  /** A client is authorised by reading the profile, and keeps what it read. */
  lemma AuthorisedStep(t: Tables, c: Client)
    requires !c.pc.Done?
    ensures var c' := ClientStep(t, c).client;
            Authorised(c'.pc) ==>
              && c'.Payment() == c.Payment()
              && if c.pc.ReadAuth? then c'.auth == ReadUser(t, c.Payment().buyer) else Authorised(c.pc) && c'.auth == c.auth
  {
    hide PayReads, InitStep;
    if Initialising(c.pc) {
      InitShape(t, c);
    } else if c.pc.ReadAttempt? || c.pc.ReadSession? || c.pc.ReadOrder? || c.pc.ReadAccount? || c.pc.ReadBuyer? {
      ReadsDoNotAuthorise(t, c);
    } else if InTransaction(c.pc) {
      hide TransactionStep;
      TransactionAuthorises(t, c);
    }
  }

  lemma TransactionAuthorises(t: Tables, c: Client)
    requires InTransaction(c.pc)
    ensures var c' := TransactionStep(t, c).client;
            Authorised(c'.pc) ==>
              && c'.Payment() == c.Payment()
              && if c.pc.ReadAuth? then c'.auth == ReadUser(t, c.Payment().buyer) else Authorised(c.pc) && c'.auth == c.auth
  {
    if Updating(c.pc) {
      UpdatesAuthorise(t, c);
      hide TransactionStep;
    } else if c.pc.LockSession? || c.pc.LockOrder? || c.pc.LockAccount? || c.pc.LockAttempt? {
      LocksDoNotAuthorise(t, c);
      hide TransactionStep;
    }
    hide CheckUser, ReadUser, ApplyUpdates;
  }

  lemma UpdatesAuthorise(t: Tables, c: Client)
    requires Updating(c.pc)
    ensures var c' := TransactionStep(t, c).client;
            c'.Payment() == c.Payment() && c'.auth == c.auth
  {
    hide AccountPayable;
  }

  lemma LocksDoNotAuthorise(t: Tables, c: Client)
    requires c.pc.LockSession? || c.pc.LockOrder? || c.pc.LockAccount? || c.pc.LockAttempt?
    ensures !Authorised(TransactionStep(t, c).client.pc)
  {
    hide CheckSession, CheckOrder, CheckAccount, CheckAttempt;
  }

  lemma ReadsDoNotAuthorise(t: Tables, c: Client)
    requires c.pc.ReadAttempt? || c.pc.ReadSession? || c.pc.ReadOrder? || c.pc.ReadAccount? || c.pc.ReadBuyer?
    ensures !Authorised(PayReads(t, c).client.pc)
  {}

  /** In every run an authorised client has read its profile earlier in the same transaction. */
  lemma {:induction false} AuthWasRead(states: seq<State>, actions: seq<Action>, k: nat, id: Id) returns (j: nat)
    requires Run(states, actions) && Initial(states[0]) && k < |states|
    requires id in states[k].clients && Authorised(states[k].clients[id].pc)
    ensures AuthRead(states, actions, j, k, id)
  {
    hide ClientStep, Authorised, ReadUser;
    var s := states[k - 1];
    assert Allowed(s, actions[k - 1]) && states[k] == Perform(s, actions[k - 1]);
    FreshIsNotAuthorised(actions[k - 1], id);
    assert id in s.clients;
    if actions[k - 1] == Step(id) {
      AuthorisedStep(s.tables, s.clients[id]);
    }
    if actions[k - 1] == Throw(id) {
      CrashIsNotAuthorised(s.clients[id]);
    }
    if actions[k - 1] == Step(id) && s.clients[id].pc.ReadAuth? {
      j := k - 1;
    } else {
      j := AuthWasRead(states, actions, k - 1, id);
      assert AuthorisedAt(states, j, k - 1, id);
    }
  }

  lemma CrashIsNotAuthorised(c: Client)
    requires MayThrow(c)
    ensures !Authorised(Crash(c).pc)
  {}

  lemma FreshIsNotAuthorised(a: Action, id: Id)
    ensures a.Arrive? && StartsFresh(a.arrival) ==> !Authorised(a.arrival.pc)
  {}

  /**
    Run in one piece at the commit, with the profile as it is then, the
    transaction would commit exactly if that profile may still pay, and then
    with the same effect.
   */
  lemma CommitWouldPass(t: Tables, c: Client)
    requires Knows(t, c) && c.pc.Commit?
    ensures var whole := Finalize(t, c.Payment(), ReadUser(t, c.Payment().buyer));
            && (whole.Committed? <==> CheckUser(ReadUser(t, c.Payment().buyer)) == Pass)
            && (whole.Committed? ==> ClientStep(t, c).tables == whole.tables)
            && (!whole.Committed? ==> whole == Rejected(CheckUser(ReadUser(t, c.Payment().buyer)).mark))
  {
    CommitEffect(t, c);
    hide ClientStep, Knows, CheckUser, CheckSession, CheckOrder, CheckAccount, CheckAttempt, Settle;
  }

  /** Over every run each commit acts like the whole transaction run then, with the profile of an earlier moment of it. */
  lemma CommitsAreFinalizes(states: seq<State>, actions: seq<Action>, k: nat, id: Id) returns (j: nat)
    requires Run(states, actions) && Initial(states[0]) && k < |actions|
    requires actions[k] == Step(id) && id in states[k].clients && states[k].clients[id].pc.Commit?
    ensures AuthRead(states, actions, j, k, id)
    ensures var i := states[k].clients[id].Payment();
            Finalize(states[k].tables, i, ReadUser(states[j].tables, i.buyer)) == Committed(states[k + 1].tables)
  {
    RunKeepsInv(states, actions, k);
    assert Allowed(states[k], actions[k]) && states[k + 1] == Perform(states[k], actions[k]);
    j := AuthWasRead(states, actions, k, id);
    assert AuthorisedAt(states, j, k, id);
    var c := states[k].clients[id];
    CommitIsSettle(states[k].tables, c);
    CommitEffect(states[k].tables, c);
    hide ClientStep, Knows, Consistent, ExclusiveLocks, Finalize, Settle, ReadUser;
  }

  /**
    The step has exactly the effect of an atomic action; if that is a whole
    finalize, its profile is the one found at an earlier moment of the same
    transaction.
   */
  ghost predicate ActsAtomically(states: seq<State>, actions: seq<Action>, k: nat)
    requires k < |actions| && |states| == |actions| + 1
  {
    && Allowed(states[k], actions[k])
    && var a := AtomicOf(states[k], actions[k]);
       && AtomicAllowed(states[k], a)
       && states[k + 1].tables == AtomicEffect(states[k].tables, a)
       && (a.RunFinalize? ==> actions[k].Step? && exists j: nat ::
             AuthRead(states, actions, j, k, actions[k].client) && a.user == ReadUser(states[j].tables, a.input.buyer))
  }

  lemma FinalizeIsCommit(s: State, a: Action)
    requires Allowed(s, a) && AtomicOf(s, a).RunFinalize?
    ensures a.Step? && a.client in s.clients && s.clients[a.client].pc.Commit?
    ensures AtomicOf(s, a) == RunFinalize(s.clients[a.client].Payment(), s.clients[a.client].auth)
  {
    hide ClientStep;
  }

  /** Over every run the tables move by atomic actions only. */
  lemma RunIsAtomic(states: seq<State>, actions: seq<Action>, k: nat)
    requires Run(states, actions) && Initial(states[0]) && k < |actions|
    ensures ActsAtomically(states, actions, k)
  {
    RunKeepsInv(states, actions, k);
    assert Allowed(states[k], actions[k]) && states[k + 1] == Perform(states[k], actions[k]);
    ActionIsAtomic(states[k], actions[k]);
    if AtomicOf(states[k], actions[k]).RunFinalize? {
      FinalizeIsCommit(states[k], actions[k]);
      var j := AuthWasRead(states, actions, k, actions[k].client);
      assert AuthorisedAt(states, j, k, actions[k].client);
      hide AtomicOf;
    }
    hide AtomicAllowed, AtomicEffect, Allowed, Perform, Inv, Initial, ReadUser;
  }

  predicate ChangesUser(a: Action) {
    a.Outside? && a.change.SetUser?
  }

  lemma UsersKept(s: State, a: Action)
    requires Inv(s) && Allowed(s, a) && !ChangesUser(a)
    ensures Perform(s, a).tables.users == s.tables.users
  {
    if a.Step? {
      var c := s.clients[a.client];
      assert Knows(s.tables, c);
      if c.pc.Commit? {
        CommitEffect(s.tables, c);
      } else {
        StepTouches(s.tables, c);
      }
      hide ClientStep;
    }
  }

  lemma {:induction false} UsersStay(states: seq<State>, actions: seq<Action>, j: nat, k: nat)
    requires Run(states, actions) && Initial(states[0]) && j <= k < |states|
    requires forall m | j <= m < k :: !ChangesUser(actions[m])
    ensures states[k].tables.users == states[j].tables.users
  {
    hide Perform;
    if j < k {
      UsersStay(states, actions, j, k - 1);
      RunKeepsInv(states, actions, k - 1);
      assert Allowed(states[k - 1], actions[k - 1]);
      UsersKept(states[k - 1], actions[k - 1]);
    }
  }

  /**
    If nobody changes profiles between the moment at which the transaction
    reads its profile and the commit, the commit acts exactly like the whole
    transaction run at that moment.
   */
  lemma FullyAtomic(states: seq<State>, actions: seq<Action>, j: nat, k: nat, id: Id)
    requires Run(states, actions) && Initial(states[0]) && k < |actions|
    requires actions[k] == Step(id) && id in states[k].clients && states[k].clients[id].pc.Commit?
    requires AuthRead(states, actions, j, k, id) && forall m | j <= m < k :: !ChangesUser(actions[m])
    ensures var i := states[k].clients[id].Payment();
            Finalize(states[k].tables, i, ReadUser(states[k].tables, i.buyer)) == Committed(states[k + 1].tables)
  {
    var i := CommitsAreFinalizes(states, actions, k, id);
    assert AuthorisedAt(states, i, k, id) && AuthorisedAt(states, j, k, id);
    UsersStay(states, actions, j, k);
    hide Finalize;
  }

  // ---- a refusal changes nothing ----

  /** The request has committed a payment before state `k`. */
  ghost predicate CommittedBy(states: seq<State>, actions: seq<Action>, k: nat, id: Id)
    requires |states| == |actions| + 1 && k < |states|
  {
    exists j | 0 <= j < k :: CommitsAt(states, actions, j, id)
  }

  ghost predicate CommitsAt(states: seq<State>, actions: seq<Action>, j: nat, id: Id)
    requires |states| == |actions| + 1 && j < |actions|
  {
    actions[j] == Step(id) && id in states[j].clients && states[j].clients[id].pc.Commit?
  }

  predicate AfterCommit(pc: Pc) {
    pc.MarkSuccess? || pc.Notify? || pc == Done(PaidAnswer) || pc == Done(ServerError)
  }

  predicate ActsFor(a: Action, id: Id) {
    a == Step(id) || a == Throw(id)
  }

  /** Sessions, orders, accounts and the log of commits are as before. */
  ghost predicate Unmoved(s: State, s': State) {
    && s'.tables.sessions == s.tables.sessions && s'.tables.orders == s.tables.orders
    && s'.tables.accounts == s.tables.accounts && s'.commits == s.commits
  }

  lemma AfterCommitStays(t: Tables, c: Client)
    requires !c.pc.Done?
    ensures AfterCommit(c.pc) || c.pc.Commit? ==> AfterCommit(ClientStep(t, c).client.pc)
    ensures AfterCommit(c.pc) && MayThrow(c) ==> AfterCommit(Crash(c).pc)
  {
    if c.pc.Commit? {
      CommitClient(t, c);
    }
  }

  lemma ActionKeepsCommitted(s: State, a: Action, id: Id)
    requires id in s.clients && Allowed(s, a)
    requires AfterCommit(s.clients[id].pc) || (a == Step(id) && s.clients[id].pc.Commit?)
    ensures id in Perform(s, a).clients && AfterCommit(Perform(s, a).clients[id].pc)
  {
    hide ClientStep, AfterCommit, Crash, EnvironmentAllowed, EnvironmentEffect, Wants, Locked;
    if ActsFor(a, id) {
      AfterCommitStays(s.tables, s.clients[id]);
    }
  }

  /** Once committed, a request can only be answered that it was paid, or with a server error. */
  lemma {:induction false} CommittedIsAnswered(states: seq<State>, actions: seq<Action>, k: nat, id: Id)
    requires Run(states, actions) && k < |states| && CommittedBy(states, actions, k, id)
    ensures id in states[k].clients && AfterCommit(states[k].clients[id].pc)
  {
    hide AfterCommit, Perform, Allowed;
    var j :| 0 <= j < k && CommitsAt(states, actions, j, id);
    if j < k - 1 {
      CommittedIsAnswered(states, actions, k - 1, id);
    }
    assert Allowed(states[k - 1], actions[k - 1]) && states[k] == Perform(states[k - 1], actions[k - 1]);
    ActionKeepsCommitted(states[k - 1], actions[k - 1], id);
  }

  /** The call that marks the attempt, or the announcement, threw for the request. */
  ghost predicate ThrowsLate(states: seq<State>, actions: seq<Action>, j: nat, id: Id)
    requires |states| == |actions| + 1 && j < |actions|
  {
    actions[j] == Throw(id) && id in states[j].clients && Announcing(states[j].clients[id])
  }

  ghost predicate ThrewLate(states: seq<State>, actions: seq<Action>, k: nat, id: Id)
    requires |states| == |actions| + 1 && k < |states|
  {
    exists j | 0 <= j < k :: ThrowsLate(states, actions, j, id)
  }

  /** One action before, a request that announces has committed or announced already. */
  lemma AnnouncingBefore(s: State, a: Action, id: Id)
    requires Inv(s) && Allowed(s, a) && id in Perform(s, a).clients && Announcing(Perform(s, a).clients[id])
    ensures id in s.clients
    ensures Announcing(s.clients[id]) || (a == Step(id) && s.clients[id].pc.Commit?)
  {
    if a == Step(id) {
      var c := s.clients[id];
      assert Knows(s.tables, c);
      NeverCommitsNothing(s.tables, c);
      AnnouncingStep(s.tables, c);
    } else if a == Throw(id) {
      CrashIsSilent(s.clients[id]);
    }
    hide ClientStep, Crash, Knows, Consistent, ExclusiveLocks, EnvironmentAllowed, EnvironmentEffect, Wants, Locked;
  }

  lemma CrashIsSilent(c: Client)
    requires MayThrow(c)
    ensures !Announcing(Crash(c))
  {}

  /** Whoever announces a payment has committed it. */
  lemma {:induction false} AnnouncingHasCommitted(states: seq<State>, actions: seq<Action>, k: nat, id: Id)
    requires Run(states, actions) && Initial(states[0]) && k < |states|
    requires id in states[k].clients && Announcing(states[k].clients[id])
    ensures CommittedBy(states, actions, k, id)
  {
    hide Perform, Allowed, Announcing, Inv;
    assert k > 0;
    RunKeepsInv(states, actions, k - 1);
    assert Allowed(states[k - 1], actions[k - 1]) && states[k] == Perform(states[k - 1], actions[k - 1]);
    AnnouncingBefore(states[k - 1], actions[k - 1], id);
    if Announcing(states[k - 1].clients[id]) {
      AnnouncingHasCommitted(states, actions, k - 1, id);
      var j :| 0 <= j < k - 1 && CommitsAt(states, actions, j, id);
    } else {
      assert CommitsAt(states, actions, k - 1, id);
    }
  }

  /** A committed request comes to a server error only by an exception at one of the two calls behind the commit. */
  lemma ErrorBefore(s: State, a: Action, id: Id)
    requires Allowed(s, a) && id in s.clients && (AfterCommit(s.clients[id].pc) || s.clients[id].pc.Commit?)
    requires Perform(s, a).clients[id].pc == Done(ServerError)
    ensures s.clients[id].pc != Done(ServerError) ==>
              (a == Throw(id) && Announcing(s.clients[id])) || (s.clients[id].pc.Commit? && a != Step(id))
  {
    if a == Step(id) {
      LateStep(s.tables, s.clients[id]);
    }
    hide ClientStep, Crash, EnvironmentAllowed, EnvironmentEffect, Wants, Locked;
  }

  lemma LateStep(t: Tables, c: Client)
    requires c.pc.MarkSuccess? || c.pc.Notify? || c.pc.Commit?
    ensures ClientStep(t, c).client.pc != Done(ServerError)
  {
    if c.pc.Commit? {
      CommitClient(t, c);
    }
  }

  lemma {:induction false} CommittedErrorThrewLate(states: seq<State>, actions: seq<Action>, k: nat, id: Id)
    requires Run(states, actions) && k < |states| && CommittedBy(states, actions, k, id)
    requires id in states[k].clients && states[k].clients[id].pc == Done(ServerError)
    ensures ThrewLate(states, actions, k, id)
  {
    hide AfterCommit, Perform, Allowed;
    var s := states[k - 1];
    assert Allowed(s, actions[k - 1]) && states[k] == Perform(s, actions[k - 1]);
    var j :| 0 <= j < k && CommitsAt(states, actions, j, id);
    if j < k - 1 {
      CommittedIsAnswered(states, actions, k - 1, id);
      NotAtCommit(s.clients[id].pc);
    }
    ErrorBefore(s, actions[k - 1], id);
    if s.clients[id].pc == Done(ServerError) {
      CommittedErrorThrewLate(states, actions, k - 1, id);
      var i :| 0 <= i < k - 1 && ThrowsLate(states, actions, i, id);
    } else {
      assert ThrowsLate(states, actions, k - 1, id);
    }
  }

  lemma NotAtCommit(pc: Pc)
    requires AfterCommit(pc)
    ensures !pc.Commit?
  {}

  /**
    Over every run: a request that ended in a server error has committed its
    payment exactly if the exception came from one of the two calls behind the
    commit.
   */
  lemma ServerErrorHasCommitted(states: seq<State>, actions: seq<Action>, k: nat, id: Id)
    requires Run(states, actions) && Initial(states[0]) && k < |states|
    requires id in states[k].clients && states[k].clients[id].pc == Done(ServerError)
    ensures CommittedBy(states, actions, k, id) <==> ThrewLate(states, actions, k, id)
  {
    if CommittedBy(states, actions, k, id) {
      CommittedErrorThrewLate(states, actions, k, id);
    }
    if ThrewLate(states, actions, k, id) {
      var j :| 0 <= j < k && ThrowsLate(states, actions, j, id);
      AnnouncingHasCommitted(states, actions, j, id);
      var i :| 0 <= i < j && CommitsAt(states, actions, i, id);
      assert CommitsAt(states, actions, i, id);
    }
  }

  /** A request that has issued a new session is answered with it. */
  lemma StepMoves(s: State, id: Id)
    requires Inv(s) && Enabled(s, id)
    ensures var c := s.clients[id];
            Unmoved(s, Advance(s, id)) || c.pc.Commit? || Advance(s, id).clients[id].pc == Done(Issued(c.newId))
  {
    var c := s.clients[id];
    assert Knows(s.tables, c);
    StepLogs(s.tables, c);
    if !c.pc.Commit? {
      StepTouches(s.tables, c);
      hide PayReads, TransactionStep, PayWrites;
      if c.pc.ConfirmInsert? {
        InsertMoves(s.tables, c);
      }
    }
  }

  lemma InsertMoves(t: Tables, c: Client)
    requires c.pc.ConfirmInsert?
    ensures ClientStep(t, c).tables == t || ClientStep(t, c).client.pc == Done(Issued(c.newId))
  {}

  lemma {:induction false} DoneStays(states: seq<State>, actions: seq<Action>, j: nat, k: nat, id: Id)
    requires Run(states, actions) && j <= k < |states| && id in states[j].clients && states[j].clients[id].pc.Done?
    ensures id in states[k].clients && states[k].clients[id].pc == states[j].clients[id].pc
  {
    if j < k {
      DoneStays(states, actions, j, k - 1, id);
      assert Allowed(states[k - 1], actions[k - 1]) && states[k] == Perform(states[k - 1], actions[k - 1]);
      hide ClientStep, Crash;
    }
  }

  /**
    Over every run: a request that is refused, or that ends in a server error
    that does not come from the two calls behind the commit, never changed a
    session, an order or an account, and never added to the log of commits.
   */
  lemma RefusedChangedNothing(states: seq<State>, actions: seq<Action>, k: nat, id: Id)
    requires Run(states, actions) && Initial(states[0]) && k < |states|
    requires id in states[k].clients && states[k].clients[id].pc.Done?
    requires var answer := states[k].clients[id].pc.answer;
             answer.Refused? || (answer.ServerError? && !ThrewLate(states, actions, k, id))
    ensures !CommittedBy(states, actions, k, id)
    ensures forall j | 0 <= j < k && ActsFor(actions[j], id) :: Unmoved(states[j], states[j + 1])
  {
    if CommittedBy(states, actions, k, id) {
      CommittedIsAnswered(states, actions, k, id);
      ServerErrorHasCommitted(states, actions, k, id);
    }
    forall j | 0 <= j < k && ActsFor(actions[j], id)
      ensures Unmoved(states[j], states[j + 1])
    {
      RunKeepsInv(states, actions, j);
      assert Allowed(states[j], actions[j]) && states[j + 1] == Perform(states[j], actions[j]);
      if actions[j] == Step(id) {
        StepMoves(states[j], id);
        assert !CommitsAt(states, actions, j, id);
        if !Unmoved(states[j], states[j + 1]) {
          DoneStays(states, actions, j + 1, k, id);
        }
      }
      hide ClientStep, Crash, Unmoved;
    }
  }
}
