/** What holds over every run of the refresh-token protocol. */
module TokenRuns {
  import opened Options
  import opened RefreshTokens
  import opened TokenProtocol

  /** States `0..n` of a run and the actions between them; it may start anywhere. */
  datatype Run = Run(states: seq<State>, actions: seq<Action>)

  const EMPTY := State(map[], map[], {}, map[])

  ghost predicate Steps(l: Locking, run: Run) {
    && |run.states| == |run.actions| + 1
    && forall i {:trigger run.actions[i]} | 0 <= i < |run.actions| ::
         Enabled(l, run.states[i], run.actions[i]) && run.states[i + 1] == Apply(l, run.states[i], run.actions[i])
  }

  /** A run of the protocol from the empty table. */
  ghost predicate Valid(l: Locking, run: Run) {
    Steps(l, run) && run.states[0] == EMPTY
  }

  lemma InvStep(l: Locking, s: State, a: Action)
    requires Inv(l, s) && Enabled(l, s, a)
    ensures Inv(l, Apply(l, s, a))
  {
    if Publishes(a) { PublishStep(l, s, a); } else { QuietStep(l, s, a); }
  }

  lemma {:induction false} InvAlways(l: Locking, run: Run, i: nat)
    requires l.FamilyLock? && Valid(l, run) && i < |run.states|
    ensures Inv(l, run.states[i])
  {
    if i > 0 {
      InvAlways(l, run, i - 1);
      InvStep(l, run.states[i - 1], run.actions[i - 1]);
    }
  }

  // ---------------------------------------------------------------- families

  /**
   In every reachable state each family is one acyclic chain of replacements, every token but the
   last is revoked, and so at most one is live.
   */
  lemma FamiliesAreChains(l: Locking, run: Run, i: nat, family: FamilyId)
    requires l.FamilyLock? && Valid(l, run) && i < |run.states|
    requires exists id :: id in run.states[i].rows && run.states[i].rows[id].family == family
    ensures var s := run.states[i];
            && family in s.chains && IsChain(s.rows, family, s.chains[family])
            && |LiveOf(s.rows, family)| <= 1
            && (forall id | id in LiveOf(s.rows, family) :: id == s.chains[family][|s.chains[family]| - 1])
            && (forall id, n: nat | id in s.rows && n > 0 :: Follow(s.rows, id, n) != Some(id))
  {
    InvAlways(l, run, i);
    var s := run.states[i];
    var live := LiveOf(s.rows, family);
    var last := s.chains[family][|s.chains[family]| - 1];
    forall id | id in live
      ensures id == last
    {
      AtMostOneLive(s.rows, s.chains, id, id);
    }
    if live != {} {
      assert live == {last};
    }
    forall id, n: nat | id in s.rows && n > 0
      ensures Follow(s.rows, id, n) != Some(id)
    {
      NoTokenIsItsOwnSuccessor(s.rows, s.chains, id, n);
    }
  }

  lemma ChainStep(l: Locking, s: State, a: Action, family: FamilyId)
    requires Inv(l, s) && Enabled(l, s, a) && family in s.chains
    ensures var s' := Apply(l, s, a); family in s'.chains && s.chains[family] <= s'.chains[family]
  {
  }

  /** A chain only grows at its end: its first token stays the one the login created. */
  lemma {:induction false} ChainsGrow(l: Locking, run: Run, i: nat, j: nat, family: FamilyId)
    requires l.FamilyLock? && Valid(l, run) && i <= j < |run.states| && family in run.states[i].chains
    ensures family in run.states[j].chains && run.states[i].chains[family] <= run.states[j].chains[family]
    decreases j
  {
    if i < j {
      ChainsGrow(l, run, i, j - 1, family);
      ChainStepAt(l, run, j - 1, family);
    }
  }

  lemma ChainStepAt(l: Locking, run: Run, i: nat, family: FamilyId)
    requires l.FamilyLock? && Valid(l, run) && i + 1 < |run.states| && family in run.states[i].chains
    ensures family in run.states[i + 1].chains && run.states[i].chains[family] <= run.states[i + 1].chains[family]
  {
    InvAlways(l, run, i);
    ChainStep(l, run.states[i], run.actions[i], family);
  }

  lemma LoginStartsTheChain(l: Locking, run: Run, i: nat, j: nat)
    requires l.FamilyLock? && Valid(l, run) && i < j < |run.states| && run.actions[i].Create?
    ensures var a := run.actions[i];
            a.family in run.states[j].chains && [a.id] <= run.states[j].chains[a.family]
  {
    var a := run.actions[i];
    assert run.states[i + 1] == Apply(l, run.states[i], a);
    assert run.states[i + 1].chains[a.family] == [a.id];
    ChainsGrow(l, run, i + 1, j, a.family);
  }

  // ---------------------------------------------------------------- revocation is final

  lemma DeadStep(l: Locking, s: State, a: Action, family: FamilyId)
    requires Inv(l, s) && Enabled(l, s, a) && family in s.chains && FamilyDead(s.rows, family)
    ensures FamilyDead(Apply(l, s, a).rows, family)
  {
    if Publishes(a) { PublishKeepsDead(l, s, a, family); }
  }

  lemma {:induction false} DeadFamiliesStayDead(l: Locking, run: Run, i: nat, j: nat, family: FamilyId)
    requires l.FamilyLock? && Valid(l, run) && i <= j < |run.states|
    requires family in run.states[i].chains && FamilyDead(run.states[i].rows, family)
    ensures FamilyDead(run.states[j].rows, family)
    decreases j
  {
    if i < j {
      DeadFamiliesStayDead(l, run, i, j - 1, family);
      ChainsGrow(l, run, i, j - 1, family);
      DeadStepAt(l, run, j - 1, family);
    }
  }

  lemma DeadStepAt(l: Locking, run: Run, i: nat, family: FamilyId)
    requires l.FamilyLock? && Valid(l, run) && i + 1 < |run.states|
    requires family in run.states[i].chains && FamilyDead(run.states[i].rows, family)
    ensures FamilyDead(run.states[i + 1].rows, family)
  {
    InvAlways(l, run, i);
    DeadStep(l, run.states[i], run.actions[i], family);
  }

  /**
   Once the revocation of a family commits, no later state of the run has a live token of that
   family, whatever rotations were in flight then or start later.
   */
  lemma RevokedFamilyNeverLivesAgain(l: Locking, run: Run, i: nat, j: nat)
    requires l.FamilyLock? && Valid(l, run) && i < j < |run.states|
    requires run.actions[i].Commit? && run.states[i].calls[run.actions[i].p].Revoking?
    ensures var family := run.states[i].calls[run.actions[i].p].family;
            && (exists id :: id in run.states[i].rows && run.states[i].rows[id].family == family)
            && LiveOf(run.states[j].rows, family) == {}
  {
    var s, a := run.states[i], run.actions[i];
    var c := s.calls[a.p];
    InvAlways(l, run, i);
    CommitIsAtomic(l, s, a);
    assert CallOk(s.rows, c);
    assert c.cause.token in s.rows && s.rows[c.cause.token].family == c.family;
    assert run.states[i + 1] == Apply(l, s, a);
    assert FamilyDead(run.states[i + 1].rows, c.family);
    DeadFamiliesStayDead(l, run, i + 1, j, c.family);
    DeadHasNoLive(run.states[j].rows, c.family);
  }

  // ---------------------------------------------------------------- sessions

  /** Of all calls that ever present one token, at most one comes back with a session. */
  lemma OneSessionPerToken(l: Locking, run: Run, i: nat, p: CallId, q: CallId)
    requires l.FamilyLock? && Valid(l, run) && i < |run.states|
    requires var calls := run.states[i].calls;
             && p in calls && calls[p].Returned? && calls[p].outcome.Session?
             && q in calls && calls[q].Returned? && calls[q].outcome.Session?
             && calls[p].outcome.presented == calls[q].outcome.presented
    ensures p == q
  {
    InvAlways(l, run, i);
    var s := run.states[i];
    assert CallOk(s.rows, s.calls[p]) && CallOk(s.rows, s.calls[q]);
    assert p == q || Apart(l, s.calls[p], s.calls[q]);
  }

  /**
   When one call got a session for a token and another call that presented the same token revoked
   the family, neither the token nor its successor nor any other token of the family is live.
   */
  lemma ReuseLeavesNothingAlive(l: Locking, run: Run, i: nat, p: CallId, q: CallId)
    requires l.FamilyLock? && Valid(l, run) && i < |run.states|
    requires var calls := run.states[i].calls;
             && p in calls && calls[p].Returned? && calls[p].outcome.Session?
             && q in calls && calls[q].Returned? && calls[q].outcome.RevokedFor?
             && calls[q].outcome.cause.token == calls[p].outcome.presented
    ensures var s := run.states[i];
            var o := s.calls[p].outcome;
            && o.presented in s.rows && s.rows[o.presented].replacedBy == Some(o.next)
            && o.next in s.rows && s.rows[o.next].family == s.rows[o.presented].family
            && LiveOf(s.rows, s.rows[o.presented].family) == {}
  {
    InvAlways(l, run, i);
    var s := run.states[i];
    assert CallOk(s.rows, s.calls[p]) && CallOk(s.rows, s.calls[q]);
    var presented := s.calls[p].outcome.presented;
    SuccessorSharesFamily(s.rows, s.chains, presented);
    DeadHasNoLive(s.rows, s.rows[presented].family);
  }

  lemma SuccessorSharesFamily(rows: Table, chains: Chains, id: TokenId)
    requires Chained(rows, chains) && id in rows && rows[id].replacedBy.Some?
    ensures rows[id].replacedBy.value in rows && rows[rows[id].replacedBy.value].family == rows[id].family
  {
    var chain := chains[rows[id].family];
    assert IsChain(rows, rows[id].family, chain);
    var k :| 0 <= k < |chain| && chain[k] == id;
    assert k < |chain| - 1;
    assert chain[k + 1] in rows;
  }

  ghost predicate HasSession(s: State, p: CallId, token: TokenId) {
    p in s.calls && s.calls[p].Returned? && s.calls[p].outcome.Session? && s.calls[p].outcome.presented == token
  }

  ghost predicate Spent(s: State, token: TokenId) {
    token in s.rows && s.rows[token].revoked
  }

  lemma SpentStep(l: Locking, s: State, a: Action, token: TokenId, p: CallId)
    requires Inv(l, s) && Enabled(l, s, a) && Spent(s, token)
    ensures Spent(Apply(l, s, a), token)
    ensures HasSession(Apply(l, s, a), p, token) ==> HasSession(s, p, token) && Apply(l, s, a).calls[p] == s.calls[p]
  {
    if a.p in s.calls { assert CallOk(s.rows, s.calls[a.p]); }
    if Publishes(a) { PublishGrows(l, s, a); }
  }

  /** A token once revoked buys no further session: whoever has one for it had it already. */
  lemma {:induction false} RevokedTokenBuysNothing(l: Locking, run: Run, i: nat, j: nat, token: TokenId, p: CallId)
    requires l.FamilyLock? && Valid(l, run) && i <= j < |run.states|
    requires Spent(run.states[i], token)
    ensures Spent(run.states[j], token)
    ensures HasSession(run.states[j], p, token) ==>
              HasSession(run.states[i], p, token) && run.states[i].calls[p] == run.states[j].calls[p]
    decreases j
  {
    if i < j {
      RevokedTokenBuysNothing(l, run, i, j - 1, token, p);
      SpentStepAt(l, run, j - 1, token, p);
    }
  }

  lemma SpentStepAt(l: Locking, run: Run, i: nat, token: TokenId, p: CallId)
    requires l.FamilyLock? && Valid(l, run) && i + 1 < |run.states| && Spent(run.states[i], token)
    ensures Spent(run.states[i + 1], token)
    ensures HasSession(run.states[i + 1], p, token) ==>
              HasSession(run.states[i], p, token) && run.states[i].calls[p] == run.states[i + 1].calls[p]
  {
    InvAlways(l, run, i);
    SpentStep(l, run.states[i], run.actions[i], token, p);
  }

  // ---------------------------------------------------------------- refinement

  /** Every step leaves the committed rows alone or makes one atomic change to them. */
  ghost predicate AtomicChange(rows: Table, rows': Table) {
    || rows' == rows
    || (exists id, family, user, expires :: id !in rows && rows' == Issue(rows, id, family, user, expires))
    || (exists token, next, expires ::
          token in rows && !rows[token].revoked && next !in rows && rows' == Rotation(rows, token, next, expires))
    || (exists family :: rows' == Revocation(rows, LiveOf(rows, family)))
    || (exists user :: rows' == Revocation(rows, LiveOfUser(rows, user)))
  }

  lemma EveryStepIsAtomic(l: Locking, run: Run, i: nat)
    requires l.FamilyLock? && Valid(l, run) && i < |run.actions|
    ensures AtomicChange(run.states[i].rows, run.states[i + 1].rows)
  {
    InvAlways(l, run, i);
    var s, a := run.states[i], run.actions[i];
    assert run.states[i + 1] == Apply(l, s, a);
    if a.Commit? {
      CommitIsAtomic(l, s, a);
    }
  }

  // ---------------------------------------------------------------- linking an account

  /**
   When the linking of an unverified account commits, no token of the user is live, whatever
   rotations and logins overlapped it; and any token of the user that is live later belongs to a
   family that a login started after that commit.
   */
  lemma LinkLeavesNothingAlive(l: Locking, run: Run, i: nat, j: nat)
    requires l.FamilyLock? && Valid(l, run) && i < j < |run.states|
    requires run.actions[i].Commit? && run.states[i].calls[run.actions[i].p].Linking?
    ensures var user := run.states[i].calls[run.actions[i].p].user;
            && UserDead(run.states[i + 1].rows, user)
            && forall id | id in LiveOfUser(run.states[j].rows, user) ::
                 run.states[j].rows[id].family !in run.states[i + 1].chains
  {
    var s, s', a := run.states[i], run.states[i + 1], run.actions[i];
    var user := s.calls[a.p].user;
    InvAlways(l, run, i);
    CommitIsAtomic(l, s, a);
    assert s' == Apply(l, s, a);
    InvAlways(l, run, i + 1);
    forall id | id in LiveOfUser(run.states[j].rows, user)
      ensures run.states[j].rows[id].family !in s'.chains
    {
      FamiliesOfTheUserStayDead(l, run, i + 1, j, id);
    }
  }

  lemma {:induction false} RowsGrow(l: Locking, run: Run, i: nat, j: nat)
    requires l.FamilyLock? && Valid(l, run) && i <= j < |run.states|
    ensures Grows(run.states[i].rows, run.states[j].rows)
    decreases j
  {
    if i < j {
      RowsGrow(l, run, i, j - 1);
      GrowStepAt(l, run, j - 1);
    }
  }

  lemma GrowStepAt(l: Locking, run: Run, i: nat)
    requires l.FamilyLock? && Valid(l, run) && i + 1 < |run.states|
    ensures Grows(run.states[i].rows, run.states[i + 1].rows)
  {
    InvAlways(l, run, i);
    var s, a := run.states[i], run.actions[i];
    if Publishes(a) { PublishGrows(l, s, a); } else { QuietStepKeepsCall(l, s, a); }
  }

  /** A family that was there when its user had no live token has none later. */
  lemma FamiliesOfTheUserStayDead(l: Locking, run: Run, i: nat, j: nat, id: TokenId)
    requires l.FamilyLock? && Valid(l, run) && i <= j < |run.states| && id in run.states[j].rows
    requires UserDead(run.states[i].rows, run.states[j].rows[id].user)
    ensures run.states[j].rows[id].family in run.states[i].chains ==> run.states[j].rows[id].revoked
  {
    var s, s' := run.states[i], run.states[j];
    var family := s'.rows[id].family;
    InvAlways(l, run, i);
    InvAlways(l, run, j);
    if family in s.chains {
      ChainsGrow(l, run, i, j, family);
      RowsGrow(l, run, i, j);
      assert IsChain(s.rows, family, s.chains[family]) && IsChain(s'.rows, family, s'.chains[family]);
      assert s.chains[family][0] == s'.chains[family][0];
      assert FamilyDead(s.rows, family);
      DeadFamiliesStayDead(l, run, i, j, family);
    }
  }

  // ---------------------------------------------------------------- what the family lock is for

  ghost predicate Reachable(l: Locking, s: State) {
    exists run :: Valid(l, run) && run.states[|run.actions|] == s
  }

  lemma ReachNext(l: Locking, s: State, a: Action, s': State)
    requires Reachable(l, s) && Enabled(l, s, a) && s' == Apply(l, s, a)
    ensures Reachable(l, s')
  {
    var run :| Valid(l, run) && run.states[|run.actions|] == s;
    var longer := Run(run.states + [s'], run.actions + [a]);
    forall i | 0 <= i < |longer.actions|
      ensures Enabled(l, longer.states[i], longer.actions[i])
      ensures longer.states[i + 1] == Apply(l, longer.states[i], longer.actions[i])
    {
    }
    assert Valid(l, longer) && longer.states[|longer.actions|] == s';
  }

  const FIRST := Token(7, 9, 100, false, None)
  const SPENT := Token(7, 9, 100, true, Some(2))
  const SECOND := Token(7, 9, 200, false, None)
  const SIGNED_IN := Returned(SignedIn(1))

  /** Family 7 of user 9 holds token 1; call 1 created it, call 2 presents it, call 3 is `third`. */
  ghost function Before(used: set<TokenId>, second: Call, third: Call): State {
    State(map[1 := FIRST], map[7 := [1]], used, map[1 := SIGNED_IN, 2 := second, 3 := third])
  }

  /** The same once call 2 has committed its rotation to token 2. */
  ghost function After(third: Call): State {
    State(map[1 := SPENT, 2 := SECOND], map[7 := [1, 2]], {1, 2},
          map[1 := SIGNED_IN, 2 := Returned(Session(1, 2)), 3 := third])
  }

  ghost function RotatingAt(stage: RotateStage, writes: Table): Call {
    Rotating(1, FIRST, 2, 200, stage, writes)
  }

  const WRITES: Table := map[2 := SECOND, 1 := SPENT]

  lemma LoggedIn(l: Locking, third: Call)
    requires third.SigningOut?
    ensures Reachable(l, Before({1}, Refreshing(1), third))
  {
    var empty := Run([EMPTY], []);
    assert Valid(l, empty) && empty.states[|empty.actions|] == EMPTY;
    var s1 := State(map[], map[], {}, map[1 := StartingSession(9)]);
    ReachNext(l, EMPTY, CallSession(1, 9), s1);
    var s2 := State(map[1 := FIRST], map[7 := [1]], {1}, map[1 := SIGNED_IN]);
    ReachNext(l, s1, Create(1, 1, 7, 100), s2);
    var s3 := State(map[1 := FIRST], map[7 := [1]], {1}, map[1 := SIGNED_IN, 2 := Refreshing(1)]);
    ReachNext(l, s2, CallRefresh(2, 1), s3);
    ReachNext(l, s3, CallLogout(3, third.token), Before({1}, Refreshing(1), third));
  }

  lemma SecondMoves(l: Locking, used: set<TokenId>, second: Call, third: Call, a: Action,
                    used': set<TokenId>, next: Call)
    requires Reachable(l, Before(used, second, third)) && Enabled(l, Before(used, second, third), a)
    requires Apply(l, Before(used, second, third), a) == To(Before(used, second, third), 2, next).(used := used')
    ensures Reachable(l, Before(used', next, third))
  {
    var s, s' := Before(used, second, third), Before(used', next, third);
    assert s.calls[2 := next] == s'.calls;
    ReachNext(l, s, a, s');
  }

  lemma RotationHasItsLock(l: Locking, third: Call)
    requires third.SigningOut?
    ensures Reachable(l, Before({1, 2}, RotatingAt(Locked, map[]), third))
  {
    LoggedIn(l, third);
    SecondMoves(l, {1}, Refreshing(1), third, Read(2), {1}, Judging(1, FIRST));
    SecondMoves(l, {1}, Judging(1, FIRST), third, Judge(2, 50, true, 2, 200), {1, 2}, RotatingAt(Begun, map[]));
    SecondMoves(l, {1, 2}, RotatingAt(Begun, map[]), third, Lock(2), {1, 2}, RotatingAt(Locked, map[]));
  }

  /** Call 2 has inserted its successor and updated the row it replaces, and has not yet committed. */
  lemma HalfRotated(l: Locking, third: Call)
    requires third.SigningOut?
    ensures Reachable(l, Before({1, 2}, RotatingAt(Updated, WRITES), third))
  {
    RotationHasItsLock(l, third);
    SecondMoves(l, {1, 2}, RotatingAt(Locked, map[]), third, Insert(2), {1, 2}, RotatingAt(Inserted, map[2 := SECOND]));
    SecondMoves(l, {1, 2}, RotatingAt(Inserted, map[2 := SECOND]), third, Update(2), {1, 2},
                RotatingAt(Updated, WRITES));
  }

  lemma RotationCommits(l: Locking, third: Call)
    requires Reachable(l, Before({1, 2}, RotatingAt(Updated, WRITES), third))
    ensures Reachable(l, After(third))
  {
    var s := Before({1, 2}, RotatingAt(Updated, WRITES), third);
    var s' := After(third);
    assert s'.calls == s.calls[2 := Returned(Session(1, 2))];
    assert s'.rows == s.rows + WRITES;
    assert s.chains[7] == [1] && [1] + [2] == [1, 2];
    assert s'.chains == s.chains[7 := s.chains[7] + [2]];
    ReachNext(l, s, Commit(2, true), s');
  }

  lemma ThirdMoves(l: Locking, s: State, a: Action, next: Call)
    requires Reachable(l, s) && Enabled(l, s, a) && Apply(l, s, a) == To(s, 3, next)
    ensures Reachable(l, To(s, 3, next))
  {
    ReachNext(l, s, a, To(s, 3, next));
  }

  lemma LogoutScans()
    ensures Reachable(RowLocksOnly,
                      Before({1, 2}, RotatingAt(Updated, WRITES), Revoking(SignedOut(1), 7, Marking({1}), map[])))
  {
    var l := RowLocksOnly;
    var second := RotatingAt(Updated, WRITES);
    HalfRotated(l, SigningOut(1));
    var s0 := Before({1, 2}, second, SigningOut(1));
    var c1 := Revoking(SignedOut(1), 7, Begin, map[]);
    ThirdMoves(l, s0, Read(3), c1);
    assert To(s0, 3, c1) == Before({1, 2}, second, c1);
    var c2 := c1.(step := Holding);
    ThirdMoves(l, Before({1, 2}, second, c1), Lock(3), c2);
    var s2 := Before({1, 2}, second, c2);
    assert To(Before({1, 2}, second, c1), 3, c2) == s2;
    assert LiveOf(s2.rows, 7) == {1};
    var c3 := c1.(step := Marking({1}));
    ThirdMoves(l, s2, Scan(3), c3);
    assert To(s2, 3, c3) == Before({1, 2}, second, c3);
  }

  /**
   Why the family lock is there: with row locks alone a logout can commit its revocation, report
   it, and leave the successor of an overlapping rotation alive.
   */
  lemma RowLocksAreNotEnough()
    ensures exists s :: Reachable(RowLocksOnly, s)
              && 3 in s.calls && s.calls[3] == Returned(RevokedFor(SignedOut(1)))
              && 1 in s.rows && s.rows[1].family == 7 && LiveOf(s.rows, 7) == {2}
  {
    var l := RowLocksOnly;
    var c := Revoking(SignedOut(1), 7, Marking({1}), map[]);
    LogoutScans();
    RotationCommits(l, c);
    var s := After(c);
    assert RowFree(s, 1) && {1} - {1} == {};
    ThirdMoves(l, s, Mark(3, 1), c.(step := Marking({})));
    var s' := To(s, 3, c.(step := Marking({})));
    ThirdMoves(l, s', Commit(3, true), Returned(RevokedFor(SignedOut(1))));
    assert LiveOf(s'.rows, 7) == {2};
  }
}
