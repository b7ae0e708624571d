/**
 What the answers of the refresh-token calls say: a call that met a revoked token, or a family to
 sign out of, revokes it or fails; and every answer has its reason among the call's own steps.
 */
module TokenAnswers {
  import opened Options
  import opened RefreshTokens
  import opened TokenProtocol
  import opened TokenRuns

  // ---------------------------------------------------------------- what a call met decides its answer

  /** The call has to revoke the family for this cause, or has tried to. */
  ghost predicate MustRevoke(c: Call, cause: Cause) {
    match c
    case Judging(token, stored) => stored.revoked && cause == Reuse(token)
    case Revoking(why, _, _, _) => why == cause
    case Returned(outcome) => outcome == RevokedFor(cause) || outcome == RevocationFailed(cause) || outcome == Failed
    case _ => false
  }

  lemma MustRevokeStep(l: Locking, s: State, s': State, a: Action, p: CallId, cause: Cause)
    requires Enabled(l, s, a) && s' == Apply(l, s, a) && p in s.calls && MustRevoke(s.calls[p], cause)
    ensures p in s'.calls && MustRevoke(s'.calls[p], cause)
  {
  }

  lemma {:induction false} MustRevokeStays(l: Locking, run: Run, i: nat, j: nat, p: CallId, cause: Cause)
    requires Steps(l, run) && i <= j < |run.states|
    requires p in run.states[i].calls && MustRevoke(run.states[i].calls[p], cause)
    ensures p in run.states[j].calls && MustRevoke(run.states[j].calls[p], cause)
    decreases j
  {
    if i < j {
      MustRevokeStays(l, run, i, j - 1, p, cause);
      MustRevokeStep(l, run.states[j - 1], run.states[j], run.actions[j - 1], p, cause);
    }
  }

  /** Presenting a token whose row is found revoked revokes its family, unless the call fails. */
  lemma ReuseRevokes(l: Locking, run: Run, i: nat, j: nat, p: CallId, token: TokenId)
    requires l.FamilyLock? && Valid(l, run) && i < j < |run.states|
    requires run.actions[i] == Read(p) && run.states[i].calls[p] == Refreshing(token) && Spent(run.states[i], token)
    requires p in run.states[j].calls && run.states[j].calls[p].Returned?
    ensures var s := run.states[j]; var outcome := s.calls[p].outcome;
            && (outcome == RevokedFor(Reuse(token)) || outcome == RevocationFailed(Reuse(token)) || outcome == Failed)
            && (outcome.RevokedFor? ==> token in s.rows && LiveOf(s.rows, s.rows[token].family) == {})
  {
    assert run.states[i + 1] == Apply(l, run.states[i], run.actions[i]);
    MustRevokeStays(l, run, i + 1, j, p, Reuse(token));
    RevokedIsDead(l, run, j, p);
  }

  /** A rotation that finds its token replaced meanwhile revokes the family, unless it fails. */
  lemma LateLoserRevokes(l: Locking, run: Run, i: nat, j: nat, p: CallId, token: TokenId)
    requires l.FamilyLock? && Valid(l, run) && i < j < |run.states|
    requires run.actions[i] == Update(p) && run.states[i].calls[p].token == token && Spent(run.states[i], token)
    requires p in run.states[j].calls && run.states[j].calls[p].Returned?
    ensures var s := run.states[j]; var outcome := s.calls[p].outcome;
            && (outcome == RevokedFor(Raced(token)) || outcome == RevocationFailed(Raced(token)) || outcome == Failed)
            && (outcome.RevokedFor? ==> token in s.rows && LiveOf(s.rows, s.rows[token].family) == {})
  {
    assert run.states[i + 1] == Apply(l, run.states[i], run.actions[i]);
    MustRevokeStays(l, run, i + 1, j, p, Raced(token));
    RevokedIsDead(l, run, j, p);
  }

  /** Signing out with a stored token, live or not, revokes its family, unless the call fails. */
  lemma LogoutRevokes(l: Locking, run: Run, i: nat, j: nat, p: CallId, token: TokenId)
    requires l.FamilyLock? && Valid(l, run) && i < j < |run.states|
    requires run.actions[i] == Read(p) && run.states[i].calls[p] == SigningOut(token) && token in run.states[i].rows
    requires p in run.states[j].calls && run.states[j].calls[p].Returned?
    ensures var s := run.states[j]; var outcome := s.calls[p].outcome;
            && (outcome == RevokedFor(SignedOut(token)) || outcome == RevocationFailed(SignedOut(token))
                || outcome == Failed)
            && (outcome.RevokedFor? ==> token in s.rows && LiveOf(s.rows, s.rows[token].family) == {})
  {
    assert run.states[i + 1] == Apply(l, run.states[i], run.actions[i]);
    MustRevokeStays(l, run, i + 1, j, p, SignedOut(token));
    RevokedIsDead(l, run, j, p);
  }

  lemma RevokedIsDead(l: Locking, run: Run, j: nat, p: CallId)
    requires l.FamilyLock? && Valid(l, run) && j < |run.states|
    requires p in run.states[j].calls && run.states[j].calls[p].Returned?
    ensures var s := run.states[j]; var outcome := s.calls[p].outcome;
            outcome.RevokedFor? ==>
              outcome.cause.token in s.rows && LiveOf(s.rows, s.rows[outcome.cause.token].family) == {}
  {
    InvAlways(l, run, j);
    var s := run.states[j];
    assert CallOk(s.rows, s.calls[p]);
    if s.calls[p].outcome.RevokedFor? { DeadHasNoLive(s.rows, s.rows[s.calls[p].outcome.cause.token].family); }
  }

  // ---------------------------------------------------------------- the history of a call

  ghost predicate Did(run: Run, j: nat, a: Action) {
    exists k: nat :: k < j && k < |run.actions| && run.actions[k] == a
  }

  ghost predicate ReadsAt(run: Run, k: nat, p: CallId, token: TokenId, found: Option<Token>) {
    && k < |run.actions| && k < |run.states| && run.actions[k] == Read(p) && p in run.states[k].calls
    && (run.states[k].calls[p] == Refreshing(token) || run.states[k].calls[p] == SigningOut(token))
    && found == if token in run.states[k].rows then Some(run.states[k].rows[token]) else None
  }

  /** Before state `j` the call looked its token up and found this row, or none. */
  ghost predicate Saw(run: Run, j: nat, p: CallId, token: TokenId, found: Option<Token>) {
    exists k: nat :: k < j && ReadsAt(run, k, p, token, found)
  }

  ghost predicate LosesAt(run: Run, k: nat, p: CallId, token: TokenId) {
    k < |run.actions| && k < |run.states| && run.actions[k] == Update(p) && Spent(run.states[k], token)
  }

  /** Before state `j` the call tried to replace its token, which was revoked. */
  ghost predicate Lost(run: Run, j: nat, p: CallId, token: TokenId) {
    exists k: nat :: k < j && LosesAt(run, k, p, token)
  }

  lemma HistoryGrows(run: Run, j: nat)
    requires j < |run.actions|
    ensures Did(run, j + 1, run.actions[j])
    ensures forall a | Did(run, j, a) :: Did(run, j + 1, a)
    ensures forall p, t, found | Saw(run, j, p, t, found) :: Saw(run, j + 1, p, t, found)
    ensures forall p, t | Lost(run, j, p, t) :: Lost(run, j + 1, p, t)
  {
  }

  // ---------------------------------------------------------------- what an answer says

  /** The call was asked with this token, found its row live, and judged it before its expiry for a known user. */
  ghost predicate Granted(run: Run, j: nat, p: CallId, token: TokenId, stored: Token, next: TokenId, expires: int) {
    && Did(run, j, CallRefresh(p, token)) && Saw(run, j, p, token, Some(stored)) && !stored.revoked
    && exists now :: Did(run, j, Judge(p, now, true, next, expires)) && now < stored.expires
  }

  /** The call found its row live, but expired, or its user gone. */
  ghost predicate Denied(run: Run, j: nat, p: CallId, token: TokenId, stored: Token) {
    && Saw(run, j, p, token, Some(stored)) && !stored.revoked
    && exists now, known, next, expires ::
         Did(run, j, Judge(p, now, known, next, expires)) && (stored.expires <= now || !known)
  }

  ghost predicate Caused(run: Run, j: nat, p: CallId, cause: Cause) {
    match cause
    case Reuse(token) =>
      Did(run, j, CallRefresh(p, token)) && exists stored :: Saw(run, j, p, token, Some(stored)) && stored.revoked
    case Raced(token) => Did(run, j, CallRefresh(p, token)) && Lost(run, j, p, token)
    case SignedOut(token) =>
      Did(run, j, CallLogout(p, token)) && exists stored :: Saw(run, j, p, token, Some(stored))
  }

  ghost predicate IsRow(rows: Table, id: TokenId, family: FamilyId, user: UserId, expires: int) {
    id in rows && rows[id].family == family && rows[id].user == user && rows[id].expires == expires
  }

  ghost predicate Earned(run: Run, j: nat, p: CallId, token: TokenId, next: TokenId)
    requires j < |run.states|
  {
    && Did(run, j, Commit(p, true))
    && exists stored, expires :: Granted(run, j, p, token, stored, next, expires)
                              && IsRow(run.states[j].rows, next, stored.family, stored.user, expires)
  }

  ghost predicate LoggedIn(run: Run, j: nat, p: CallId, first: TokenId)
    requires j < |run.states|
  {
    exists user, family, expires ::
      && Did(run, j, CallSession(p, user)) && Did(run, j, Create(p, first, family, expires))
      && IsRow(run.states[j].rows, first, family, user, expires)
  }

  ghost predicate TurnedAway(run: Run, j: nat, p: CallId) {
    exists token :: Did(run, j, CallRefresh(p, token))
                 && (Saw(run, j, p, token, None) || exists stored :: Denied(run, j, p, token, stored))
  }

  /** The answer has its reason among the steps of the call before state `j`. */
  ghost predicate Justified(run: Run, j: nat, p: CallId, outcome: Outcome)
    requires j < |run.states|
  {
    match outcome
    case Session(token, next) => Earned(run, j, p, token, next)
    case SignedIn(first) => LoggedIn(run, j, p, first)
    case Refused => TurnedAway(run, j, p)
    case RevokedFor(cause) => Caused(run, j, p, cause) && Did(run, j, Commit(p, true))
    case RevocationFailed(cause) => Caused(run, j, p, cause) && Did(run, j, Abort(p))
    case NothingToSignOut => exists token :: Did(run, j, CallLogout(p, token)) && Saw(run, j, p, token, None)
    case Linked(user) => Did(run, j, CallLink(p, user)) && Did(run, j, Commit(p, true))
    case Failed => Did(run, j, Abort(p)) || Did(run, j, Commit(p, false))
  }

  /** How far the call has come, and why. */
  ghost predicate Story(run: Run, j: nat, p: CallId)
    requires j < |run.states| && p in run.states[j].calls
  {
    match run.states[j].calls[p]
    case Refreshing(token) => Did(run, j, CallRefresh(p, token))
    case Judging(token, stored) => Did(run, j, CallRefresh(p, token)) && Saw(run, j, p, token, Some(stored))
    case Rotating(token, stored, next, expires, _, _) => Granted(run, j, p, token, stored, next, expires)
    case SigningOut(token) => Did(run, j, CallLogout(p, token))
    case Revoking(cause, _, _, _) => Caused(run, j, p, cause)
    case StartingSession(user) => Did(run, j, CallSession(p, user))
    case LinkBegun(user) => Did(run, j, CallLink(p, user))
    case LinkLocked(user) => Did(run, j, CallLink(p, user))
    case Linking(user, _, _) => Did(run, j, CallLink(p, user))
    case Returned(outcome) => Justified(run, j, p, outcome)
  }

  lemma GrantedStays(run: Run, j: nat, p: CallId, token: TokenId, stored: Token, next: TokenId, expires: int)
    requires j < |run.actions| && Granted(run, j, p, token, stored, next, expires)
    ensures Granted(run, j + 1, p, token, stored, next, expires)
  {
    HistoryGrows(run, j);
    var now :| Did(run, j, Judge(p, now, true, next, expires)) && now < stored.expires;
    assert Did(run, j + 1, Judge(p, now, true, next, expires));
  }

  lemma DeniedStays(run: Run, j: nat, p: CallId, token: TokenId, stored: Token)
    requires j < |run.actions| && Denied(run, j, p, token, stored)
    ensures Denied(run, j + 1, p, token, stored)
  {
    HistoryGrows(run, j);
    var now, known, next, expires :|
      Did(run, j, Judge(p, now, known, next, expires)) && (stored.expires <= now || !known);
    assert Did(run, j + 1, Judge(p, now, known, next, expires));
  }

  lemma CausedStays(run: Run, j: nat, p: CallId, cause: Cause)
    requires j < |run.actions| && Caused(run, j, p, cause)
    ensures Caused(run, j + 1, p, cause)
  {
    HistoryGrows(run, j);
    if !cause.Raced? {
      var stored :| Saw(run, j, p, cause.token, Some(stored)) && (cause.Reuse? ==> stored.revoked);
      assert Saw(run, j + 1, p, cause.token, Some(stored));
    }
  }

  lemma EarnedStays(run: Run, j: nat, p: CallId, token: TokenId, next: TokenId)
    requires j + 1 < |run.states| && j < |run.actions| && Grows(run.states[j].rows, run.states[j + 1].rows)
    requires Earned(run, j, p, token, next)
    ensures Earned(run, j + 1, p, token, next)
  {
    var stored, expires :| Granted(run, j, p, token, stored, next, expires)
                        && IsRow(run.states[j].rows, next, stored.family, stored.user, expires);
    HistoryGrows(run, j);
    GrantedStays(run, j, p, token, stored, next, expires);
    assert IsRow(run.states[j + 1].rows, next, stored.family, stored.user, expires);
  }

  lemma LoggedInStays(run: Run, j: nat, p: CallId, first: TokenId)
    requires j + 1 < |run.states| && j < |run.actions| && Grows(run.states[j].rows, run.states[j + 1].rows)
    requires LoggedIn(run, j, p, first)
    ensures LoggedIn(run, j + 1, p, first)
  {
    HistoryGrows(run, j);
    var user, family, expires :|
      && Did(run, j, CallSession(p, user)) && Did(run, j, Create(p, first, family, expires))
      && IsRow(run.states[j].rows, first, family, user, expires);
    assert Did(run, j + 1, CallSession(p, user)) && Did(run, j + 1, Create(p, first, family, expires));
    assert IsRow(run.states[j + 1].rows, first, family, user, expires);
  }

  lemma TurnedAwayStays(run: Run, j: nat, p: CallId)
    requires j < |run.actions| && TurnedAway(run, j, p)
    ensures TurnedAway(run, j + 1, p)
  {
    HistoryGrows(run, j);
    var token :| Did(run, j, CallRefresh(p, token))
              && (Saw(run, j, p, token, None) || exists stored :: Denied(run, j, p, token, stored));
    assert Did(run, j + 1, CallRefresh(p, token));
    if stored :| Denied(run, j, p, token, stored) { DeniedStays(run, j, p, token, stored); }
  }

  lemma JustifiedStays(run: Run, j: nat, p: CallId, outcome: Outcome)
    requires j + 1 < |run.states| && j < |run.actions| && Grows(run.states[j].rows, run.states[j + 1].rows)
    requires Justified(run, j, p, outcome)
    ensures Justified(run, j + 1, p, outcome)
  {
    HistoryGrows(run, j);
    match outcome
    case Session(token, next) => EarnedStays(run, j, p, token, next);
    case SignedIn(first) => LoggedInStays(run, j, p, first);
    case Refused => TurnedAwayStays(run, j, p);
    case RevokedFor(cause) => CausedStays(run, j, p, cause);
    case RevocationFailed(cause) => CausedStays(run, j, p, cause);
    case NothingToSignOut =>
      var token :| Did(run, j, CallLogout(p, token)) && Saw(run, j, p, token, None);
      assert Did(run, j + 1, CallLogout(p, token));
    case _ =>
  }

  lemma OtherStoryStep(run: Run, j: nat, p: CallId)
    requires j + 1 < |run.states| && j < |run.actions| && Grows(run.states[j].rows, run.states[j + 1].rows)
    requires p in run.states[j].calls && Story(run, j, p)
    requires p in run.states[j + 1].calls && run.states[j + 1].calls[p] == run.states[j].calls[p]
    ensures Story(run, j + 1, p)
  {
    HistoryGrows(run, j);
    match run.states[j].calls[p]
    case Rotating(token, stored, next, expires, _, _) => GrantedStays(run, j, p, token, stored, next, expires);
    case Revoking(cause, _, _, _) => CausedStays(run, j, p, cause);
    case Returned(outcome) => JustifiedStays(run, j, p, outcome);
    case _ =>
  }

  ghost predicate StepsAt(l: Locking, run: Run, j: nat) {
    && j < |run.actions| && j + 1 < |run.states|
    && Enabled(l, run.states[j], run.actions[j])
    && run.states[j + 1] == Apply(l, run.states[j], run.actions[j])
    && var s, p := run.states[j], run.actions[j].p; p in s.calls ==> CallOk(s.rows, s.calls[p])
  }

  lemma CalledStory(l: Locking, run: Run, j: nat)
    requires StepsAt(l, run, j) && run.actions[j].p !in run.states[j].calls
    ensures run.actions[j].p in run.states[j + 1].calls && Story(run, j + 1, run.actions[j].p)
  {
    HistoryGrows(run, j);
  }

  lemma ReadStory(l: Locking, run: Run, j: nat, p: CallId)
    requires StepsAt(l, run, j) && run.actions[j] == Read(p) && Story(run, j, p)
    ensures Story(run, j + 1, p)
  {
    HistoryGrows(run, j);
    var s := run.states[j];
    var token := s.calls[p].token;
    var found := if token in s.rows then Some(s.rows[token]) else None;
    assert ReadsAt(run, j, p, token, found);
    assert Saw(run, j + 1, p, token, found);
    if s.calls[p].Refreshing? { assert Did(run, j + 1, CallRefresh(p, token)); }
    else { assert Did(run, j + 1, CallLogout(p, token)); }
  }

  lemma JudgeStory(l: Locking, run: Run, j: nat, p: CallId)
    requires StepsAt(l, run, j) && run.actions[j].Judge? && run.actions[j].p == p && Story(run, j, p)
    ensures Story(run, j + 1, p)
  {
    HistoryGrows(run, j);
    var a, c := run.actions[j], run.states[j].calls[p];
    assert Did(run, j + 1, Judge(p, a.now, a.userKnown, a.next, a.expires));
    assert Did(run, j + 1, CallRefresh(p, c.token)) && Saw(run, j + 1, p, c.token, Some(c.stored));
    if run.states[j + 1].calls[p].Returned? { assert Denied(run, j + 1, p, c.token, c.stored); }
  }

  lemma UpdateStory(l: Locking, run: Run, j: nat, p: CallId)
    requires StepsAt(l, run, j) && run.actions[j] == Update(p) && Story(run, j, p)
    ensures Story(run, j + 1, p)
  {
    HistoryGrows(run, j);
    var s, c := run.states[j], run.states[j].calls[p];
    assert CallOk(s.rows, c);
    GrantedStays(run, j, p, c.token, c.stored, c.next, c.expires);
    if Spent(s, c.token) { assert LosesAt(run, j, p, c.token); }
  }

  lemma CommitStory(l: Locking, run: Run, j: nat, p: CallId)
    requires StepsAt(l, run, j) && run.actions[j].Commit? && run.actions[j].p == p && Story(run, j, p)
    ensures Story(run, j + 1, p)
  {
    CommitAnswers(l, run.states[j], run.states[j + 1], run.actions[j]);
    if run.states[j].calls[p].Rotating? && run.actions[j].reported { RotationStory(l, run, j, p); }
    CommitJustifies(run, j, p);
  }

  lemma CommitJustifies(run: Run, j: nat, p: CallId)
    requires j + 1 < |run.states| && j < |run.actions| && run.actions[j].Commit? && run.actions[j].p == p
    requires p in run.states[j].calls && Story(run, j, p) && p in run.states[j + 1].calls
    requires var c := run.states[j].calls[p];
             && (c.Rotating? || c.Revoking? || c.Linking?)
             && (c.Rotating? && run.actions[j].reported ==> Earned(run, j + 1, p, c.token, c.next))
             && run.states[j + 1].calls[p] == Returned(if !run.actions[j].reported then Failed else AfterCommit(c))
    ensures Story(run, j + 1, p)
  {
    HistoryGrows(run, j);
    var c := run.states[j].calls[p];
    if c.Revoking? { CausedStays(run, j, p, c.cause); }
  }

  lemma CommitAnswers(l: Locking, s: State, s': State, a: Action)
    requires Enabled(l, s, a) && a.Commit? && s' == Apply(l, s, a)
    ensures var c := s.calls[a.p];
            && a.p in s'.calls && (c.Rotating? || c.Revoking? || c.Linking?)
            && s'.calls[a.p] == Returned(if !a.reported then Failed else AfterCommit(c))
  {
  }

  lemma RotationStory(l: Locking, run: Run, j: nat, p: CallId)
    requires StepsAt(l, run, j) && run.actions[j].Commit? && run.actions[j].p == p
    requires run.states[j].calls[p].Rotating? && Story(run, j, p) && run.actions[j].reported
    ensures var c := run.states[j].calls[p]; Earned(run, j + 1, p, c.token, c.next)
  {
    var s, c := run.states[j], run.states[j].calls[p];
    assert CallOk(s.rows, c);
    HistoryGrows(run, j);
    assert c.next in c.writes && c.writes[c.next] == Successor(c);
    GrantedStays(run, j, p, c.token, c.stored, c.next, c.expires);
    assert IsRow(run.states[j + 1].rows, c.next, c.stored.family, c.stored.user, c.expires);
  }

  lemma LockStory(l: Locking, run: Run, j: nat, p: CallId)
    requires StepsAt(l, run, j) && run.actions[j].p == p && p in run.states[j].calls && Story(run, j, p)
    requires var a := run.actions[j]; a.Lock? || a.Insert? || a.Scan? || a.Mark?
    ensures p in run.states[j + 1].calls && Story(run, j + 1, p)
  {
    HistoryGrows(run, j);
    match run.states[j].calls[p]
    case Rotating(token, stored, next, expires, _, _) => GrantedStays(run, j, p, token, stored, next, expires);
    case Revoking(cause, _, _, _) => CausedStays(run, j, p, cause);
    case _ =>
  }

  lemma EndStory(l: Locking, run: Run, j: nat, p: CallId)
    requires StepsAt(l, run, j) && run.actions[j].p == p && (run.actions[j].Create? || run.actions[j].Abort?)
    requires p in run.states[j].calls && Story(run, j, p)
    ensures p in run.states[j + 1].calls && Story(run, j + 1, p)
  {
    HistoryGrows(run, j);
    var a, c := run.actions[j], run.states[j].calls[p];
    if a.Create? {
      assert Did(run, j + 1, CallSession(p, c.user)) && Did(run, j + 1, Create(p, a.id, a.family, a.expires));
      assert IsRow(run.states[j + 1].rows, a.id, a.family, c.user, a.expires);
    } else if c.Revoking? {
      CausedStays(run, j, p, c.cause);
    }
  }

  lemma MoverStory(l: Locking, run: Run, j: nat)
    requires StepsAt(l, run, j) && (run.actions[j].p in run.states[j].calls ==> Story(run, j, run.actions[j].p))
    ensures run.actions[j].p in run.states[j + 1].calls && Story(run, j + 1, run.actions[j].p)
  {
    var a := run.actions[j];
    if a.p !in run.states[j].calls { CalledStory(l, run, j); }
    else {
      match a
      case Read(p) => ReadStory(l, run, j, p);
      case Judge(p, _, _, _, _) => JudgeStory(l, run, j, p);
      case Update(p) => UpdateStory(l, run, j, p);
      case Commit(p, _) => CommitStory(l, run, j, p);
      case Create(p, _, _, _) => EndStory(l, run, j, p);
      case Abort(p) => EndStory(l, run, j, p);
      case _ => LockStory(l, run, j, a.p);
    }
  }

  lemma {:induction false} StoriesAreTrue(l: Locking, run: Run, j: nat, p: CallId)
    requires l.FamilyLock? && Valid(l, run) && j < |run.states| && p in run.states[j].calls
    ensures Story(run, j, p)
  {
    if j > 0 {
      var i := j - 1;
      InvAlways(l, run, i);
      GrowStepAt(l, run, i);
      if p in run.states[i].calls { StoriesAreTrue(l, run, i, p); }
      assert StepsAt(l, run, i);
      if p == run.actions[i].p { MoverStory(l, run, i); } else { OtherStoryStep(run, i, p); }
    }
  }

  /**
   Every answer has its reason. A session was asked for with its token, whose row was found live
   and judged before its expiry for a known user, and its successor is stored for that family and
   user; a refusal had no row, or one that had expired or whose user was gone; a revocation met a
   reused, a raced or a signed-out token; nothing to sign out of was an unknown token; and only a
   call that broke off, or whose commit went unreported, says that it failed.
   */
  lemma AnswersHaveReasons(l: Locking, run: Run, j: nat, p: CallId)
    requires l.FamilyLock? && Valid(l, run) && j < |run.states|
    requires p in run.states[j].calls && run.states[j].calls[p].Returned?
    ensures Justified(run, j, p, run.states[j].calls[p].outcome)
  {
    StoriesAreTrue(l, run, j, p);
  }

  lemma {:induction false} AnswersStay(l: Locking, run: Run, i: nat, j: nat, p: CallId)
    requires Steps(l, run) && i <= j < |run.states| && p in run.states[i].calls && run.states[i].calls[p].Returned?
    ensures p in run.states[j].calls && run.states[j].calls[p] == run.states[i].calls[p]
    decreases j
  {
    if i < j {
      AnswersStay(l, run, i, j - 1, p);
      AnswerStays(l, run.states[j - 1], run.states[j], run.actions[j - 1], p);
    }
  }

  lemma AnswerStays(l: Locking, s: State, s': State, a: Action, p: CallId)
    requires Enabled(l, s, a) && s' == Apply(l, s, a) && p in s.calls && s.calls[p].Returned?
    ensures p in s'.calls && s'.calls[p] == s.calls[p]
  {
  }

  /**
   A call that breaks off fails, one that was revoking a family says for what; one whose commit goes
   unreported fails too.
   */
  lemma BrokenCallsFail(l: Locking, run: Run, i: nat, j: nat, p: CallId)
    requires Steps(l, run) && i < j < |run.states| && (run.actions[i] == Abort(p) || run.actions[i] == Commit(p, false))
    ensures p in run.states[j].calls && p in run.states[i].calls
    ensures var c := run.states[i].calls[p];
            run.states[j].calls[p] == Returned(if run.actions[i].Abort? && c.Revoking? then RevocationFailed(c.cause)
                                               else Failed)
  {
    assert run.states[i + 1] == Apply(l, run.states[i], run.actions[i]);
    AnswersStay(l, run, i + 1, j, p);
  }

  /** An unknown token is refused at once, or there is nothing to sign out of, for good. */
  lemma UnknownTokens(l: Locking, run: Run, i: nat, j: nat, p: CallId, token: TokenId)
    requires Steps(l, run) && i < j < |run.states| && run.actions[i] == Read(p) && token !in run.states[i].rows
    requires run.states[i].calls[p] == Refreshing(token) || run.states[i].calls[p] == SigningOut(token)
    ensures p in run.states[j].calls
    ensures run.states[j].calls[p] == Returned(if run.states[i].calls[p].Refreshing? then Refused else NothingToSignOut)
  {
    assert run.states[i + 1] == Apply(l, run.states[i], run.actions[i]);
    AnswersStay(l, run, i + 1, j, p);
  }

  /**
   A session comes only from a judgement before the expiry of the presented row, live when it was
   read, for a known user.
   */
  lemma SessionsAreEarned(l: Locking, run: Run, j: nat, p: CallId, token: TokenId, next: TokenId)
    requires l.FamilyLock? && Valid(l, run) && j < |run.states|
    requires p in run.states[j].calls && run.states[j].calls[p] == Returned(Session(token, next))
    ensures exists now, expires ::
              && Did(run, j, Judge(p, now, true, next, expires)) && token in run.states[j].rows
              && now < run.states[j].rows[token].expires && next in run.states[j].rows
              && run.states[j].rows[next].expires == expires
              && run.states[j].rows[next].user == run.states[j].rows[token].user
              && run.states[j].rows[next].family == run.states[j].rows[token].family
    ensures exists k: nat :: k < j && run.actions[k] == Read(p) && token in run.states[k].rows
                          && !run.states[k].rows[token].revoked
  {
    AnswersHaveReasons(l, run, j, p);
    assert Earned(run, j, p, token, next);
    var stored, expires :| Granted(run, j, p, token, stored, next, expires)
                        && IsRow(run.states[j].rows, next, stored.family, stored.user, expires);
    var now :| Did(run, j, Judge(p, now, true, next, expires)) && now < stored.expires;
    var k := RowWasRead(l, run, j, p, token, stored);
  }

  lemma RowWasRead(l: Locking, run: Run, j: nat, p: CallId, token: TokenId, stored: Token) returns (k: nat)
    requires l.FamilyLock? && Valid(l, run) && j < |run.states| && Saw(run, j, p, token, Some(stored))
    ensures k < j && run.actions[k] == Read(p) && token in run.states[k].rows && run.states[k].rows[token] == stored
    ensures IsRow(run.states[j].rows, token, stored.family, stored.user, stored.expires)
  {
    k :| k < j && ReadsAt(run, k, p, token, Some(stored));
    RowsGrow(l, run, k, j);
  }
}
