/**
 The locks of the refresh-token protocol never deadlock, and the calls under way can always finish.

 Rotations and revocations take the family lock first and rows after it; a link takes the row of its
 user first and tokens after it. A link and a revocation may therefore hold what the other wants, but
 never both at once: a family has at most one live token, so a revocation that holds a row of its
 family waits for no other.
 */
module TokenProgress {
  import opened Collections
  import opened Options
  import opened RefreshTokens
  import opened Sums
  import opened TokenProtocol
  import opened TokenRuns

  /** A new call comes in. */
  ghost predicate Begins(a: Action) {
    a.CallRefresh? || a.CallLogout? || a.CallSession? || a.CallLink?
  }

  /** A call under way takes its next step, without failing, giving up or losing the answer of its commit. */
  ghost predicate Proceeds(a: Action) {
    !Begins(a) && !a.Abort? && (a.Commit? ==> a.reported)
  }

  ghost predicate CanProceed(l: Locking, s: State) {
    exists a :: Proceeds(a) && Enabled(l, s, a)
  }

  ghost predicate AllReturned(s: State) {
    forall p | p in s.calls :: s.calls[p].Returned?
  }

  // ---------------------------------------------------------------- who holds a row

  /** A committed row in somebody's write set is live, and its holder also holds its family or its user. */
  lemma HolderOfRow(l: Locking, s: State, q: CallId, id: TokenId)
    requires Inv(l, s) && q in s.calls && id in s.rows
    ensures var c := s.calls[q];
            id in Writes(c) ==>
              && !s.rows[id].revoked
              && (|| (c.Linking? && HoldsUser(c) == Some(s.rows[id].user))
                  || (!c.Linking? && HeldKey(l, c) == Key(l, s.rows[id].family)))
              && (c.Revoking? ==> c.step.Marking?)
  {
    var c := s.calls[q];
    assert CallOk(s.rows, c);
    if c.Linking? && id in c.writes { assert id in c.writes.Keys; }
    if c.Revoking? && id in c.writes { assert id in c.writes.Keys; }
  }

  /** While a call holds the family of a row, only a link can hold the row against it. */
  lemma OnlyLinksBlock(l: Locking, s: State, p: CallId, q: CallId, id: TokenId)
    requires Inv(l, s) && p in s.calls && q in s.calls && p != q && id in s.rows
    requires HeldKey(l, s.calls[p]) == Key(l, s.rows[id].family)
    ensures id in Writes(s.calls[q]) ==> s.calls[q].Linking? && !s.rows[id].revoked
  {
    assert Apart(l, s.calls[p], s.calls[q]);
    HolderOfRow(l, s, q, id);
  }

  /** A rotation that has inserted its successor waits for nobody. */
  lemma UpdateWaitsForNobody(l: Locking, s: State, p: CallId)
    requires Inv(l, s) && p in s.calls && s.calls[p].Rotating? && s.calls[p].stage == Inserted
    ensures Enabled(l, s, Update(p))
  {
    var c := s.calls[p];
    assert CallOk(s.rows, c);
    forall q | q in s.calls
      ensures c.token !in Writes(s.calls[q])
    {
      if q != p {
        assert Apart(l, c, s.calls[q]);
        HolderOfRow(l, s, q, c.token);
      }
    }
  }

  /** A revocation that holds a row of its family waits for nobody: that row is the only live one. */
  lemma HoldingRevocationWaitsForNobody(l: Locking, s: State, p: CallId, held: TokenId)
    requires Inv(l, s) && p in s.calls && s.calls[p].Revoking? && s.calls[p].step.Marking?
    requires held in s.calls[p].writes
    ensures CanProceed(l, s)
  {
    var c := s.calls[p];
    var todo := c.step.todo;
    assert CallOk(s.rows, c);
    assert held in c.writes.Keys;
    if todo == {} {
      assert Enabled(l, s, Commit(p, true));
    } else {
      var id := Pick(todo);
      assert s.rows[id].family == c.family;
      forall q | q in s.calls
        ensures id !in Writes(s.calls[q])
      {
        if q != p {
          OnlyLinksBlock(l, s, p, q, id);
          if !s.rows[id].revoked { AtMostOneLive(s.rows, s.chains, id, held); }
        }
      }
      assert Enabled(l, s, Mark(p, id));
    }
  }

  // ---------------------------------------------------------------- no deadlock

  /** A link waits only for a revocation that holds a row, and that one waits for nobody. */
  lemma LinkMoves(l: Locking, s: State, p: CallId)
    requires Inv(l, s) && p in s.calls && HoldsUser(s.calls[p]).Some?
    ensures CanProceed(l, s)
  {
    var c := s.calls[p];
    assert CallOk(s.rows, c);
    if c.LinkLocked? {
      assert Enabled(l, s, Scan(p));
    } else if c.todo == {} {
      assert Enabled(l, s, Commit(p, true));
    } else {
      var id := Pick(c.todo);
      if q :| q in s.calls && id in Writes(s.calls[q]) {
        LinkIsBlockedByRevocation(l, s, p, q, id);
        HoldingRevocationWaitsForNobody(l, s, q, id);
      } else {
        assert Enabled(l, s, Mark(p, id));
      }
    }
  }

  lemma LinkIsBlockedByRevocation(l: Locking, s: State, p: CallId, q: CallId, id: TokenId)
    requires Inv(l, s) && p in s.calls && s.calls[p].Linking? && id in s.calls[p].todo
    requires q in s.calls && id in Writes(s.calls[q])
    ensures s.calls[q].Revoking? && s.calls[q].step.Marking?
  {
    var c, d := s.calls[p], s.calls[q];
    assert CallOk(s.rows, c) && CallOk(s.rows, d);
    assert id in d.writes.Keys;
    assert q != p && Apart(l, c, d);
    HolderOfRow(l, s, q, id);
  }

  /** A revocation at work waits only for a link. */
  lemma RevocationMoves(l: Locking, s: State, p: CallId)
    requires Inv(l, s) && p in s.calls && s.calls[p].Revoking? && s.calls[p].step != Begin
    ensures CanProceed(l, s)
  {
    var c := s.calls[p];
    assert CallOk(s.rows, c);
    if c.step == Holding {
      assert Enabled(l, s, Scan(p));
    } else if c.step.todo == {} {
      assert Enabled(l, s, Commit(p, true));
    } else {
      var id := Pick(c.step.todo);
      if q :| q in s.calls && id in Writes(s.calls[q]) {
        assert id in Writes(s.calls[q]).Keys && id !in Writes(c).Keys;
        OnlyLinksBlock(l, s, p, q, id);
        LinkMoves(l, s, q);
      } else {
        assert Enabled(l, s, Mark(p, id));
      }
    }
  }

  /** A login, and a rotation that wants to insert, wait only for a link. */
  lemma UserOpensOrLinkMoves(l: Locking, s: State, user: UserId)
    requires Inv(l, s)
    ensures UserOpen(s, user) || CanProceed(l, s)
  {
    if q :| q in s.calls && HoldsUser(s.calls[q]) == Some(user) {
      LinkMoves(l, s, q);
    }
  }

  /** Whoever holds a family lock can go on, or a link can. */
  lemma KeyHolderMoves(l: Locking, s: State, p: CallId)
    requires Inv(l, s) && p in s.calls && HeldKey(l, s.calls[p]).Some?
    ensures CanProceed(l, s)
  {
    var c := s.calls[p];
    if c.Revoking? {
      RevocationMoves(l, s, p);
    } else {
      match c.stage
      case Locked =>
        UserOpensOrLinkMoves(l, s, c.stored.user);
        assert UserOpen(s, c.stored.user) ==> Enabled(l, s, Insert(p));
      case Inserted => UpdateWaitsForNobody(l, s, p);
      case Updated => assert Enabled(l, s, Commit(p, true));
    }
  }

  lemma LockerMoves(l: Locking, s: State, p: CallId, family: FamilyId)
    requires Inv(l, s) && p in s.calls
    requires KeyFree(l, s, family) ==> Enabled(l, s, Lock(p))
    ensures CanProceed(l, s)
  {
    if q :| q in s.calls && HeldKey(l, s.calls[q]).Some? && HeldKey(l, s.calls[q]) == Key(l, family) {
      KeyHolderMoves(l, s, q);
    } else {
      assert Enabled(l, s, Lock(p));
    }
  }

  lemma LinkBegins(l: Locking, s: State, p: CallId)
    requires Inv(l, s) && p in s.calls && s.calls[p].LinkBegun?
    ensures CanProceed(l, s)
  {
    var user := s.calls[p].user;
    UserOpensOrLinkMoves(l, s, user);
    if q :| q in s.calls && SharesUser(s.calls[q]) == Some(user) {
      KeyHolderMoves(l, s, q);
    } else if UserOpen(s, user) {
      assert Enabled(l, s, Lock(p));
    }
  }

  lemma LoginMoves(l: Locking, s: State, p: CallId)
    requires Inv(l, s) && p in s.calls && s.calls[p].StartingSession?
    ensures CanProceed(l, s)
  {
    var user := s.calls[p].user;
    UserOpensOrLinkMoves(l, s, user);
    if UserOpen(s, user) {
      assert Enabled(l, s, Create(p, Unused(s.used), Unused(s.chains.Keys), 0));
    }
  }

  /** Reading and judging wait for nobody. */
  lemma ReaderMoves(l: Locking, s: State, p: CallId)
    requires p in s.calls && (s.calls[p].Refreshing? || s.calls[p].SigningOut? || s.calls[p].Judging?)
    ensures CanProceed(l, s)
  {
    if s.calls[p].Judging? {
      assert Enabled(l, s, Judge(p, 0, true, Unused(s.used), 0));
    } else {
      assert Enabled(l, s, Read(p));
    }
  }

  /** A rotation or a revocation waits for its family, or holds it. */
  lemma WorkerMoves(l: Locking, s: State, p: CallId)
    requires Inv(l, s) && p in s.calls && (s.calls[p].Rotating? || s.calls[p].Revoking?)
    ensures CanProceed(l, s)
  {
    var c := s.calls[p];
    if HeldKey(l, c).Some? {
      KeyHolderMoves(l, s, p);
    } else {
      LockerMoves(l, s, p, if c.Rotating? then c.stored.family else c.family);
    }
  }

  /** As long as a call is unfinished, some call can take its next step. */
  lemma NoDeadlock(l: Locking, s: State, p: CallId)
    requires Inv(l, s) && p in s.calls && !s.calls[p].Returned?
    ensures CanProceed(l, s)
  {
    match s.calls[p]
    case StartingSession(_) => LoginMoves(l, s, p);
    case LinkBegun(_) => LinkBegins(l, s, p);
    case LinkLocked(_) => LinkMoves(l, s, p);
    case Linking(_, _, _) => LinkMoves(l, s, p);
    case Rotating(_, _, _, _, _, _) => WorkerMoves(l, s, p);
    case Revoking(_, _, _, _) => WorkerMoves(l, s, p);
    case _ => ReaderMoves(l, s, p);
  }

  // ---------------------------------------------------------------- no livelock

  /** Statements a call still has before it, but for those on single rows. */
  function StagesOf(c: Call): nat {
    match c
    case Refreshing(_) => 8
    case Judging(_, _) => 7
    case Rotating(_, _, _, _, stage, _) =>
      (match stage case Begun => 6 case Locked => 5 case Inserted => 4 case Updated => 1)
    case SigningOut(_) => 4
    case Revoking(_, _, step, _) => (match step case Begin => 3 case Holding => 2 case Marking(_) => 1)
    case StartingSession(_) => 1
    case LinkBegun(_) => 3
    case LinkLocked(_) => 2
    case Linking(_, _, _) => 1
    case Returned(_) => 0
  }

  /** Rows a call has yet to mark. */
  function RowsOf(c: Call): nat {
    match c
    case Revoking(_, _, Marking(todo), _) => |todo|
    case Linking(_, todo, _) => |todo|
    case _ => 0
  }

  ghost function Of(calls: map<CallId, Call>, f: Call -> nat): CallId -> int {
    p => if p in calls then f(calls[p]) else 0
  }

  ghost function Total(calls: map<CallId, Call>, f: Call -> nat): nat {
    SumIsNatural(calls.Keys, Of(calls, f));
    Sum(calls.Keys, Of(calls, f))
  }

  lemma TotalMoves(calls: map<CallId, Call>, p: CallId, c: Call, f: Call -> nat)
    requires p in calls
    ensures Total(calls[p := c], f) == Total(calls, f) - f(calls[p]) + f(c)
  {
    var calls' := calls[p := c];
    var rest := calls.Keys - {p};
    SameSet(calls'.Keys, calls.Keys);
    SumTakes(calls.Keys, Of(calls, f), p);
    SumTakes(calls.Keys, Of(calls', f), p);
    SumAgrees(rest, Of(calls, f), Of(calls', f));
  }

  /** One step of one call brings it closer to its end. */
  lemma MoverCountsDown(l: Locking, s: State, s': State, a: Action)
    requires Enabled(l, s, a) && !Begins(a) && s' == Apply(l, s, a)
    ensures a.p in s.calls && s'.calls == s.calls[a.p := s'.calls[a.p]]
    ensures var c, c' := s.calls[a.p], s'.calls[a.p];
            StagesOf(c') < StagesOf(c) || (StagesOf(c') == StagesOf(c) && RowsOf(c') < RowsOf(c))
  {
    if a.Mark? { MarkCountsDown(l, s, s', a); } else { StageCountsDown(l, s, s', a); }
  }

  lemma StageCountsDown(l: Locking, s: State, s': State, a: Action)
    requires Enabled(l, s, a) && !Begins(a) && !a.Mark? && s' == Apply(l, s, a)
    ensures StagesOf(s'.calls[a.p]) < StagesOf(s.calls[a.p])
  {
  }

  lemma MarkCountsDown(l: Locking, s: State, s': State, a: Action)
    requires Enabled(l, s, a) && a.Mark? && s' == Apply(l, s, a)
    ensures StagesOf(s'.calls[a.p]) == StagesOf(s.calls[a.p]) && RowsOf(s'.calls[a.p]) < RowsOf(s.calls[a.p])
  {
  }

  ghost predicate CloserToTheEnd(s: State, s': State) {
    || Total(s'.calls, StagesOf) < Total(s.calls, StagesOf)
    || (Total(s'.calls, StagesOf) == Total(s.calls, StagesOf) && Total(s'.calls, RowsOf) < Total(s.calls, RowsOf))
  }

  /**
   Without new calls only finitely many steps are left: each counts the stages down, or keeps them and marks
   a row.
   */
  lemma EveryStepCountsDown(l: Locking, s: State, a: Action)
    requires Enabled(l, s, a) && !Begins(a)
    ensures CloserToTheEnd(s, Apply(l, s, a))
  {
    var s' := Apply(l, s, a);
    MoverCountsDown(l, s, s', a);
    TotalMoves(s.calls, a.p, s'.calls[a.p], StagesOf);
    TotalMoves(s.calls, a.p, s'.calls[a.p], RowsOf);
  }

  // ---------------------------------------------------------------- every call can finish

  predicate FailsAt(s: State, p: CallId) {
    p in s.calls && s.calls[p].Returned? && (s.calls[p].outcome.Failed? || s.calls[p].outcome.RevocationFailed?)
  }

  /** No step that proceeds answers with a failure. */
  lemma ProceedingAnswers(l: Locking, s: State, s': State, a: Action, p: CallId)
    requires Enabled(l, s, a) && Proceeds(a) && s' == Apply(l, s, a)
    ensures s'.calls.Keys == s.calls.Keys && (FailsAt(s', p) ==> FailsAt(s, p))
  {
    SameSet(s'.calls.Keys, s.calls.Keys);
  }

  /**
   A run from `s`, with no new call, no failure and no lost answer, that ends with every call
   returned, and none with a failure that had not failed before.
   */
  ghost predicate Finishes(l: Locking, s: State, run: Run) {
    && Steps(l, run) && run.states[0] == s && AllReturned(run.states[|run.actions|])
    && (forall a | a in run.actions :: Proceeds(a))
    && run.states[|run.actions|].calls.Keys == s.calls.Keys
    && forall p | FailsAt(run.states[|run.actions|], p) :: FailsAt(s, p)
  }

  ghost predicate CanFinish(l: Locking, s: State) {
    exists run :: Finishes(l, s, run)
  }

  lemma FinishesFromHere(l: Locking, s: State, a: Action, rest: Run)
    requires Enabled(l, s, a) && Proceeds(a) && Finishes(l, Apply(l, s, a), rest)
    ensures Finishes(l, s, Run([s] + rest.states, [a] + rest.actions))
  {
    var run := Run([s] + rest.states, [a] + rest.actions);
    forall i | 0 <= i < |run.actions|
      ensures Enabled(l, run.states[i], run.actions[i]) && run.states[i + 1] == Apply(l, run.states[i], run.actions[i])
    {
      if i > 0 {
        assert run.actions[i] == rest.actions[i - 1] && run.states[i] == rest.states[i - 1];
      }
    }
    assert run.states[|run.actions|] == rest.states[|rest.actions|];
    forall p | FailsAt(run.states[|run.actions|], p)
      ensures FailsAt(s, p)
    {
      ProceedingAnswers(l, s, Apply(l, s, a), a, p);
    }
    ProceedingAnswers(l, s, Apply(l, s, a), a, 0);
  }

  lemma CanFinishFromHere(l: Locking, s: State, a: Action, s': State)
    requires Enabled(l, s, a) && Proceeds(a) && s' == Apply(l, s, a) && CanFinish(l, s')
    ensures CanFinish(l, s)
  {
    var rest :| Finishes(l, s', rest);
    FinishesFromHere(l, s, a, rest);
  }

  lemma OneStep(l: Locking, s: State, p: CallId) returns (a: Action, s': State)
    requires Inv(l, s) && p in s.calls && !s.calls[p].Returned?
    ensures Enabled(l, s, a) && Proceeds(a) && s' == Apply(l, s, a) && Inv(l, s') && CloserToTheEnd(s, s')
  {
    NoDeadlock(l, s, p);
    a :| Proceeds(a) && Enabled(l, s, a);
    s' := Apply(l, s, a);
    InvStep(l, s, a);
    EveryStepCountsDown(l, s, a);
  }

  lemma {:induction false} CallsCanFinish(l: Locking, s: State)
    requires Inv(l, s)
    ensures CanFinish(l, s)
    decreases Total(s.calls, StagesOf), Total(s.calls, RowsOf)
  {
    if p :| p in s.calls && !s.calls[p].Returned? {
      var a, s' := OneStep(l, s, p);
      CallsCanFinish(l, s');
      CanFinishFromHere(l, s, a, s');
    } else {
      assert Finishes(l, s, Run([s], []));
    }
  }

  /** In every reachable state the calls under way can all finish, without a failure and without a new call. */
  lemma NoCallIsEverStuck(l: Locking, run: Run, i: nat)
    requires l.FamilyLock? && Valid(l, run) && i < |run.states|
    ensures AllReturned(run.states[i]) || CanProceed(l, run.states[i])
    ensures CanFinish(l, run.states[i])
  {
    InvAlways(l, run, i);
    if p :| p in run.states[i].calls && !run.states[i].calls[p].Returned? {
      NoDeadlock(l, run.states[i], p);
    }
    CallsCanFinish(l, run.states[i]);
  }
}
