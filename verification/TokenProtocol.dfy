/**
 Calls on the refresh-token table, interleaved statement by statement.

 A transaction writes to a private write set that others cannot see; a commit publishes the set.
 Each statement sees the rows committed before it started. A row in the write set of an open
 transaction is locked: another statement that wants to update it waits, then looks again at the
 committed row. The family lock is an advisory lock on a hash of the family id, which may collide,
 and is held until the transaction ends. An inserted token keeps the row of its user locked through
 its foreign key until its transaction ends; linking an unverified account locks that row against
 them before it looks for tokens to revoke. Any call can fail or crash before any statement, and a
 commit can take effect without its caller learning so.
 */
module TokenProtocol {
  import opened Options
  import opened RefreshTokens

  type CallId = int
  type LockKey = int

  /** The protocol takes the family lock; `RowLocksOnly` is the same protocol without it. */
  datatype Locking = FamilyLock(hash: FamilyId -> LockKey) | RowLocksOnly

  datatype Cause = Reuse(token: TokenId) | Raced(token: TokenId) | SignedOut(token: TokenId)

  datatype Outcome =
    | Session(presented: TokenId, next: TokenId)
    | SignedIn(first: TokenId)
    | Refused
    | RevokedFor(cause: Cause)
    | RevocationFailed(cause: Cause)
    | NothingToSignOut
    | Linked(user: UserId)
    | Failed

  datatype RotateStage = Begun | Locked | Inserted | Updated

  datatype RevokeStage = Begin | Holding | Marking(todo: set<TokenId>)

  datatype Call =
    | Refreshing(token: TokenId)
    | Judging(token: TokenId, stored: Token)
    | Rotating(token: TokenId, stored: Token, next: TokenId, expires: int, stage: RotateStage, writes: Table)
    | SigningOut(token: TokenId)
    | Revoking(cause: Cause, family: FamilyId, step: RevokeStage, writes: Table)
    | StartingSession(user: UserId)
    | LinkBegun(user: UserId)
    | LinkLocked(user: UserId)
    | Linking(user: UserId, todo: set<TokenId>, writes: Table)
    | Returned(outcome: Outcome)

  /** `chains` and `used` are history: the order of rotation in each family, and every id drawn so far. */
  datatype State = State(rows: Table, chains: Chains, used: set<TokenId>, calls: map<CallId, Call>)

  datatype Action =
    | CallRefresh(p: CallId, token: TokenId)
    | CallLogout(p: CallId, token: TokenId)
    | CallSession(p: CallId, user: UserId)
    | CallLink(p: CallId, user: UserId)
    | Read(p: CallId)
    | Judge(p: CallId, now: int, userKnown: bool, next: TokenId, expires: int)
    | Create(p: CallId, id: TokenId, family: FamilyId, expires: int)
    | Lock(p: CallId)
    | Insert(p: CallId)
    | Update(p: CallId)
    | Scan(p: CallId)
    | Mark(p: CallId, id: TokenId)
    | Commit(p: CallId, reported: bool)
    | Abort(p: CallId)

  // ---------------------------------------------------------------- locks and write sets

  function Writes(c: Call): Table {
    if c.Rotating? || c.Revoking? || c.Linking? then c.writes else map[]
  }

  function Key(l: Locking, family: FamilyId): Option<LockKey> {
    if l.FamilyLock? then Some(l.hash(family)) else None
  }

  function HeldKey(l: Locking, c: Call): Option<LockKey> {
    match c
    case Rotating(_, stored, _, _, stage, _) => if stage == Begun then None else Key(l, stored.family)
    case Revoking(_, family, step, _) => if step == Begin then None else Key(l, family)
    case _ => None
  }

  ghost predicate KeyFree(l: Locking, s: State, family: FamilyId) {
    forall q | q in s.calls :: HeldKey(l, s.calls[q]).None? || HeldKey(l, s.calls[q]) != Key(l, family)
  }

  /** The user whose row is locked for a link: nobody may insert a token of that user. */
  function HoldsUser(c: Call): Option<UserId> {
    match c
    case LinkLocked(user) => Some(user)
    case Linking(user, _, _) => Some(user)
    case _ => None
  }

  /** The user whose row an inserted token keeps locked, through its foreign key, until the transaction ends. */
  function SharesUser(c: Call): Option<UserId> {
    if c.Rotating? && (c.stage == Inserted || c.stage == Updated) then Some(c.stored.user) else None
  }

  ghost predicate UserOpen(s: State, user: UserId) {
    forall q | q in s.calls :: HoldsUser(s.calls[q]) != Some(user)
  }

  ghost predicate UserUnshared(s: State, user: UserId) {
    forall q | q in s.calls :: HoldsUser(s.calls[q]) != Some(user) && SharesUser(s.calls[q]) != Some(user)
  }

  ghost predicate RowFree(s: State, id: TokenId) {
    forall q | q in s.calls :: id !in Writes(s.calls[q])
  }

  function Successor(c: Call): Token
    requires c.Rotating?
  {
    Token(c.stored.family, c.stored.user, c.expires, false, None)
  }

  // ---------------------------------------------------------------- the steps

  ghost predicate Enabled(l: Locking, s: State, a: Action) {
    match a
    case CallRefresh(p, _) => p !in s.calls
    case CallLogout(p, _) => p !in s.calls
    case CallSession(p, _) => p !in s.calls
    case CallLink(p, _) => p !in s.calls
    case Read(p) => p in s.calls && (s.calls[p].Refreshing? || s.calls[p].SigningOut?)
    case Judge(p, _, _, next, _) => p in s.calls && s.calls[p].Judging? && next !in s.used
    case Create(p, id, family, _) =>
      p in s.calls && s.calls[p].StartingSession? && id !in s.used && family !in s.chains
      && UserOpen(s, s.calls[p].user)
    case Lock(p) =>
      && p in s.calls
      && (match s.calls[p]
          case Rotating(_, stored, _, _, Begun, _) => KeyFree(l, s, stored.family)
          case Revoking(_, family, Begin, _) => KeyFree(l, s, family)
          case LinkBegun(user) => UserUnshared(s, user)
          case _ => false)
    case Insert(p) =>
      p in s.calls && s.calls[p].Rotating? && s.calls[p].stage == Locked && UserOpen(s, s.calls[p].stored.user)
    case Update(p) =>
      && p in s.calls && s.calls[p].Rotating? && s.calls[p].stage == Inserted
      && (RowFree(s, s.calls[p].token) || (s.calls[p].token in s.rows && s.rows[s.calls[p].token].revoked))
    case Scan(p) =>
      && p in s.calls
      && (s.calls[p].LinkLocked? || (s.calls[p].Revoking? && s.calls[p].step == Holding))
    case Mark(p, id) =>
      && p in s.calls && id in s.rows && RowFree(s, id)
      && (match s.calls[p]
          case Revoking(_, _, Marking(todo), _) => id in todo
          case Linking(_, todo, _) => id in todo
          case _ => false)
    case Commit(p, _) =>
      && p in s.calls
      && (match s.calls[p]
          case Rotating(_, _, _, _, Updated, _) => true
          case Revoking(_, _, Marking(todo), _) => todo == {}
          case Linking(_, todo, _) => todo == {}
          case _ => false)
    case Abort(p) => p in s.calls && !s.calls[p].Returned?
  }

  function To(s: State, p: CallId, c: Call): State {
    s.(calls := s.calls[p := c])
  }

  function AfterRead(s: State, c: Call): Call
    requires c.Refreshing? || c.SigningOut?
  {
    match c
    case Refreshing(token) => if token in s.rows then Judging(token, s.rows[token]) else Returned(Refused)
    case SigningOut(token) =>
      if token in s.rows then Revoking(SignedOut(token), s.rows[token].family, Begin, map[])
      else Returned(NothingToSignOut)
  }

  function AfterJudge(c: Call, now: int, userKnown: bool, next: TokenId, expires: int): Call
    requires c.Judging?
  {
    if c.stored.revoked then Revoking(Reuse(c.token), c.stored.family, Begin, map[])
    else if now >= c.stored.expires then Returned(Refused)
    else if !userKnown then Returned(Refused)
    else Rotating(c.token, c.stored, next, expires, Begun, map[])
  }

  function AfterLock(c: Call): Call
    requires c.Rotating? || c.Revoking? || c.LinkBegun?
  {
    match c
    case Rotating(_, _, _, _, _, _) => c.(stage := Locked)
    case Revoking(_, _, _, _) => c.(step := Holding)
    case LinkBegun(user) => LinkLocked(user)
  }

  function AfterUpdate(s: State, c: Call): Call
    requires c.Rotating?
  {
    if c.token in s.rows && !s.rows[c.token].revoked
    then c.(stage := Updated,
            writes := c.writes[c.token := s.rows[c.token].(revoked := true, replacedBy := Some(c.next))])
    else Revoking(Raced(c.token), c.stored.family, Begin, map[])
  }

  function AfterScan(s: State, c: Call): Call
    requires c.LinkLocked? || c.Revoking?
  {
    match c
    case LinkLocked(user) => Linking(user, LiveOfUser(s.rows, user), map[])
    case Revoking(_, family, _, _) => c.(step := Marking(LiveOf(s.rows, family)))
  }

  /** A locked row is updated only if the committed version still matches. */
  function AfterMark(s: State, c: Call, id: TokenId): Call
    requires id in s.rows
    requires c.Linking? || (c.Revoking? && c.step.Marking?)
  {
    var writes := if s.rows[id].revoked then c.writes else c.writes[id := s.rows[id].(revoked := true)];
    match c
    case Revoking(_, _, step, _) => c.(step := Marking(step.todo - {id}), writes := writes)
    case Linking(_, todo, _) => c.(todo := todo - {id}, writes := writes)
  }

  function AfterCommit(c: Call): Outcome
    requires c.Rotating? || c.Revoking? || c.Linking?
  {
    match c
    case Rotating(token, _, next, _, _, _) => Session(token, next)
    case Revoking(cause, _, _, _) => RevokedFor(cause)
    case Linking(user, _, _) => Linked(user)
  }

  function AfterAbort(c: Call): Outcome {
    if c.Revoking? then RevocationFailed(c.cause) else Failed
  }

  ghost function Apply(l: Locking, s: State, a: Action): State
    requires Enabled(l, s, a)
  {
    match a
    case CallRefresh(p, token) => To(s, p, Refreshing(token))
    case CallLogout(p, token) => To(s, p, SigningOut(token))
    case CallSession(p, user) => To(s, p, StartingSession(user))
    case CallLink(p, user) => To(s, p, LinkBegun(user))
    case Read(p) => To(s, p, AfterRead(s, s.calls[p]))
    case Judge(p, now, userKnown, next, expires) =>
      To(s, p, AfterJudge(s.calls[p], now, userKnown, next, expires)).(used := s.used + {next})
    case Create(p, id, family, expires) =>
      State(Issue(s.rows, id, family, s.calls[p].user, expires), s.chains[family := [id]], s.used + {id},
            s.calls[p := Returned(SignedIn(id))])
    case Lock(p) =>
      To(s, p, AfterLock(s.calls[p]))
    case Insert(p) =>
      To(s, p, s.calls[p].(stage := Inserted, writes := map[s.calls[p].next := Successor(s.calls[p])]))
    case Update(p) => To(s, p, AfterUpdate(s, s.calls[p]))
    case Scan(p) => To(s, p, AfterScan(s, s.calls[p]))
    case Mark(p, id) => To(s, p, AfterMark(s, s.calls[p], id))
    case Commit(p, reported) =>
      var c := s.calls[p];
      To(s, p, Returned(if reported then AfterCommit(c) else Failed))
        .(rows := s.rows + c.writes,
          chains := if c.Rotating? && c.stored.family in s.chains
                    then s.chains[c.stored.family := s.chains[c.stored.family] + [c.next]] else s.chains)
    case Abort(p) => To(s, p, Returned(AfterAbort(s.calls[p])))
  }

  // ---------------------------------------------------------------- the invariant

  /** The row is the one that was read, perhaps revoked since. */
  ghost predicate ReadFrom(rows: Table, token: TokenId, stored: Token) {
    && token in rows && rows[token].family == stored.family && rows[token].user == stored.user
    && rows[token].expires == stored.expires && (stored.revoked ==> rows[token].revoked)
  }

  ghost predicate RevokingWrites(rows: Table, writes: Table) {
    forall id | id in writes :: id in rows && !rows[id].revoked && writes[id] == rows[id].(revoked := true)
  }

  ghost predicate RotatingOk(rows: Table, c: Call)
    requires c.Rotating?
  {
    && ReadFrom(rows, c.token, c.stored) && c.next !in rows
    && (match c.stage
        case Begun => c.writes == map[]
        case Locked => c.writes == map[]
        case Inserted => c.writes == map[c.next := Successor(c)]
        case Updated =>
          && !rows[c.token].revoked
          && c.writes == map[c.next := Successor(c),
                             c.token := rows[c.token].(revoked := true, replacedBy := Some(c.next))])
  }

  ghost predicate RevokingOk(rows: Table, c: Call)
    requires c.Revoking?
  {
    && c.cause.token in rows && rows[c.cause.token].family == c.family
    && RevokingWrites(rows, c.writes)
    && (if c.step.Marking?
        then && LiveOf(rows, c.family) <= c.step.todo + c.writes.Keys && c.writes.Keys <= LiveOf(rows, c.family)
             && c.step.todo !! c.writes.Keys
             && (forall id | id in c.step.todo :: id in rows && rows[id].family == c.family)
        else c.writes == map[])
  }

  ghost predicate LinkingOk(rows: Table, c: Call)
    requires c.Linking?
  {
    && RevokingWrites(rows, c.writes)
    && LiveOfUser(rows, c.user) <= c.todo + c.writes.Keys && c.writes.Keys <= LiveOfUser(rows, c.user)
    && c.todo !! c.writes.Keys
    && (forall id | id in c.todo :: id in rows && rows[id].user == c.user)
  }

  ghost predicate OutcomeOk(rows: Table, o: Outcome) {
    match o
    case Session(presented, next) => presented in rows && rows[presented].replacedBy == Some(next) && next in rows
    case RevokedFor(cause) => cause.token in rows && FamilyDead(rows, rows[cause.token].family)
    case _ => true
  }

  ghost predicate CallOk(rows: Table, c: Call) {
    match c
    case Judging(token, stored) => ReadFrom(rows, token, stored)
    case Rotating(_, _, _, _, _, _) => RotatingOk(rows, c)
    case Revoking(_, _, _, _) => RevokingOk(rows, c)
    case Linking(_, _, _) => LinkingOk(rows, c)
    case Returned(outcome) => OutcomeOk(rows, outcome)
    case _ => true
  }

  /** The successor id a rotation has drawn. */
  function Drawn(c: Call): Option<TokenId> {
    match c
    case Rotating(_, _, next, _, _, _) => Some(next)
    case Returned(Session(_, next)) => Some(next)
    case _ => None
  }

  /**
   Two calls never hold one key, never lock one row, and never draw one id; while one holds a user,
   no other holds that user or has inserted a token of that user.
   */
  ghost predicate Apart(l: Locking, c: Call, d: Call) {
    && (HeldKey(l, c).Some? ==> HeldKey(l, c) != HeldKey(l, d))
    && RowsApart(c, d) && UsersApart(c, d)
  }

  ghost predicate RowsApart(c: Call, d: Call) {
    Writes(c).Keys !! Writes(d).Keys && (Drawn(c).Some? ==> Drawn(c) != Drawn(d))
  }

  ghost predicate UsersApart(c: Call, d: Call) {
    && (HoldsUser(c).Some? ==> HoldsUser(c) != HoldsUser(d) && HoldsUser(c) != SharesUser(d))
    && (HoldsUser(d).Some? ==> HoldsUser(d) != SharesUser(c))
  }

  ghost predicate Inv(l: Locking, s: State) {
    && l.FamilyLock?
    && s.rows.Keys <= s.used
    && Chained(s.rows, s.chains)
    && (forall p | p in s.calls :: CallOk(s.rows, s.calls[p]))
    && (forall p | p in s.calls && Drawn(s.calls[p]).Some? :: Drawn(s.calls[p]).value in s.used)
    && (forall p, q | p in s.calls && q in s.calls && p != q :: Apart(l, s.calls[p], s.calls[q]))
  }

  // ---------------------------------------------------------------- steps that publish nothing

  ghost predicate Publishes(a: Action) {
    a.Create? || a.Commit?
  }

  lemma QuietStepKeepsCall(l: Locking, s: State, a: Action)
    requires Inv(l, s) && Enabled(l, s, a) && !Publishes(a)
    ensures var s' := Apply(l, s, a);
            && s'.rows == s.rows && s'.chains == s.chains && s.used <= s'.used
            && a.p in s'.calls && s'.calls == s.calls[a.p := s'.calls[a.p]]
            && CallOk(s.rows, s'.calls[a.p])
            && (Drawn(s'.calls[a.p]).Some? ==> Drawn(s'.calls[a.p]).value in s'.used)
  {
    if a.p in s.calls { assert CallOk(s.rows, s.calls[a.p]); }
    QuietMoverIsOk(l, s, Apply(l, s, a), a);
  }

  lemma QuietMoverIsOk(l: Locking, s: State, s': State, a: Action)
    requires Enabled(l, s, a) && !Publishes(a) && s' == Apply(l, s, a) && s.rows.Keys <= s.used
    requires a.p in s.calls ==> CallOk(s.rows, s.calls[a.p])
    ensures a.p in s'.calls && CallOk(s.rows, s'.calls[a.p])
  {
  }

  lemma ApartIsMutual(l: Locking, c: Call, d: Call)
    requires Apart(l, c, d)
    ensures Apart(l, d, c)
  {
  }

  /** Only what concerns the two calls: the one that moves and any other. */
  lemma MoverStaysApart(l: Locking, s: State, s': State, a: Action, q: CallId)
    requires Enabled(l, s, a) && !Publishes(a) && s' == Apply(l, s, a) && a.p in s'.calls && q in s.calls
    requires a.p in s.calls ==> Apart(l, s.calls[a.p], s.calls[q]) && CallOk(s.rows, s.calls[a.p])
    requires CallOk(s.rows, s.calls[q]) && s.rows.Keys <= s.used
    requires Drawn(s.calls[q]).Some? ==> Drawn(s.calls[q]).value in s.used
    ensures Apart(l, s'.calls[a.p], s.calls[q])
  {
    MoverKeepsItsRows(l, s, s', a, q);
  }

  lemma MoverKeepsItsRows(l: Locking, s: State, s': State, a: Action, q: CallId)
    requires Enabled(l, s, a) && !Publishes(a) && s' == Apply(l, s, a) && a.p in s'.calls && q in s.calls
    requires a.p in s.calls ==> RowsApart(s.calls[a.p], s.calls[q]) && CallOk(s.rows, s.calls[a.p])
    requires CallOk(s.rows, s.calls[q]) && s.rows.Keys <= s.used
    requires Drawn(s.calls[q]).Some? ==> Drawn(s.calls[q]).value in s.used
    ensures RowsApart(s'.calls[a.p], s.calls[q])
  {
  }

  lemma QuietStepStaysApart(l: Locking, s: State, a: Action, q: CallId)
    requires Inv(l, s) && Enabled(l, s, a) && !Publishes(a)
    requires q in s.calls && q != a.p
    ensures Apart(l, Apply(l, s, a).calls[a.p], s.calls[q])
    ensures Apart(l, s.calls[q], Apply(l, s, a).calls[a.p])
  {
    var s' := Apply(l, s, a);
    MoverStaysApart(l, s, s', a, q);
    ApartIsMutual(l, s'.calls[a.p], s.calls[q]);
  }

  lemma QuietStep(l: Locking, s: State, a: Action)
    requires Inv(l, s) && Enabled(l, s, a) && !Publishes(a)
    ensures Inv(l, Apply(l, s, a))
  {
    var s' := Apply(l, s, a);
    QuietStepKeepsCall(l, s, a);
    forall p, q | p in s'.calls && q in s'.calls && p != q
      ensures Apart(l, s'.calls[p], s'.calls[q])
    {
      if p == a.p { QuietStepStaysApart(l, s, a, q); }
      else if q == a.p { QuietStepStaysApart(l, s, a, p); }
    }
  }

  // ---------------------------------------------------------------- steps that publish

  /** Committing publishes exactly one of the atomic changes of the table, computed on the rows of that instant. */
  lemma CommitIsAtomic(l: Locking, s: State, a: Action)
    requires Inv(l, s) && Enabled(l, s, a) && a.Commit?
    ensures var c := s.calls[a.p];
            var s' := Apply(l, s, a);
            match c
            case Rotating(token, _, next, expires, _, _) =>
              && token in s.rows && !s.rows[token].revoked && next !in s.rows
              && s'.rows == Rotation(s.rows, token, next, expires)
            case Revoking(_, family, _, _) => s'.rows == Revocation(s.rows, LiveOf(s.rows, family))
            case Linking(user, _, _) => s'.rows == Revocation(s.rows, LiveOfUser(s.rows, user))
  {
    var c := s.calls[a.p];
    assert CallOk(s.rows, c);
    if !c.Rotating? { RevokingWritesRevoke(s.rows, c.writes); }
    match c
    case Rotating(token, _, next, expires, _, _) => assert s.rows + c.writes == Rotation(s.rows, token, next, expires);
    case Revoking(_, family, _, _) => assert c.writes.Keys == LiveOf(s.rows, family);
    case Linking(user, todo, _) => assert c.writes.Keys == LiveOfUser(s.rows, user);
  }

  lemma RevokingWritesRevoke(rows: Table, writes: Table)
    requires RevokingWrites(rows, writes)
    ensures rows + writes == Revocation(rows, writes.Keys)
  {
    var revoked := Revocation(rows, writes.Keys);
    forall id | id in writes.Keys
      ensures id in rows
    {
      assert id in writes;
    }
    assert (rows + writes).Keys == revoked.Keys;
    assert forall id | id in revoked :: (rows + writes)[id] == revoked[id];
  }

  lemma PublishKeepsChains(l: Locking, s: State, a: Action)
    requires Inv(l, s) && Enabled(l, s, a) && Publishes(a)
    ensures var s' := Apply(l, s, a); Chained(s'.rows, s'.chains) && s'.rows.Keys <= s'.used
  {
    var c := s.calls[a.p];
    match a
    case Create(p, id, family, expires) => IssueKeepsChains(s.rows, s.chains, id, family, c.user, expires);
    case Commit(p, _) =>
      CommitIsAtomic(l, s, a);
      assert CallOk(s.rows, c);
      match c {
        case Rotating(token, stored, next, expires, _, _) =>
          RotationKeepsChains(s.rows, s.chains, token, next, expires);
        case Revoking(_, family, _, _) => RevocationKeepsChains(s.rows, s.chains, LiveOf(s.rows, family));
        case Linking(user, _, _) => RevocationKeepsChains(s.rows, s.chains, LiveOfUser(s.rows, user));
      }
  }

  /** Rows are never lost, keep their family, user and expiry, never come back to life and never change successor. */
  ghost predicate Grows(rows: Table, rows': Table) {
    forall id | id in rows ::
      && id in rows' && rows'[id].family == rows[id].family && rows'[id].user == rows[id].user
      && rows'[id].expires == rows[id].expires && (rows[id].revoked ==> rows'[id].revoked)
      && (rows[id].replacedBy.Some? ==> rows'[id].replacedBy == rows[id].replacedBy)
  }

  lemma PublishGrows(l: Locking, s: State, a: Action)
    requires Inv(l, s) && Enabled(l, s, a) && Publishes(a)
    ensures Grows(s.rows, Apply(l, s, a).rows)
  {
    if a.Commit? {
      var c := s.calls[a.p];
      CommitIsAtomic(l, s, a);
      if c.Rotating? { AtMostOneLive(s.rows, s.chains, c.token, c.token); }
    }
  }

  /** A dead family stays dead: nothing inserts into it, since a rotation needs a live token to replace. */
  lemma PublishKeepsDead(l: Locking, s: State, a: Action, family: FamilyId)
    requires Inv(l, s) && Enabled(l, s, a) && Publishes(a)
    requires family in s.chains && FamilyDead(s.rows, family)
    ensures FamilyDead(Apply(l, s, a).rows, family)
  {
    if a.Commit? {
      CommitIsAtomic(l, s, a);
      match s.calls[a.p]
      case Rotating(token, _, next, expires, _, _) => RotationKeepsDead(s.rows, token, next, expires, family);
      case Revoking(_, other, _, _) => RevocationKeepsDead(s.rows, LiveOf(s.rows, other), family);
      case Linking(user, _, _) => RevocationKeepsDead(s.rows, LiveOfUser(s.rows, user), family);
    }
  }

  lemma PublishKeepsOther(l: Locking, s: State, a: Action, q: CallId)
    requires Inv(l, s) && Enabled(l, s, a) && Publishes(a) && q in s.calls && q != a.p
    ensures CallOk(Apply(l, s, a).rows, s.calls[q])
  {
    var s' := Apply(l, s, a);
    var c, d := s.calls[a.p], s.calls[q];
    assert CallOk(s.rows, c) && CallOk(s.rows, d);
    assert Apart(l, c, d) && Apart(l, d, c);
    PublishGrows(l, s, a);
    if a.Commit? { CommitIsAtomic(l, s, a); }
    match d
    case Returned(RevokedFor(cause)) => PublishKeepsDead(l, s, a, s.rows[cause.token].family);
    case Revoking(_, family, _, _) => PublishKeepsRevoking(l, s, a, q);
    case Linking(_, _, _) => PublishKeepsLinking(l, s, a, q);
    case _ =>
  }

  lemma PublishKeepsRevoking(l: Locking, s: State, a: Action, q: CallId)
    requires Inv(l, s) && Enabled(l, s, a) && Publishes(a) && q in s.calls && q != a.p && s.calls[q].Revoking?
    ensures CallOk(Apply(l, s, a).rows, s.calls[q])
  {
    var c, d := s.calls[a.p], s.calls[q];
    var rows' := Apply(l, s, a).rows;
    assert CallOk(s.rows, c) && CallOk(s.rows, d);
    assert Apart(l, c, d) && Apart(l, d, c);
    PublishGrows(l, s, a);
    if a.Commit? { CommitIsAtomic(l, s, a); }
    forall id | id in d.writes
      ensures id in rows' && rows'[id] == s.rows[id]
    {
      assert id in d.writes.Keys && id in s.rows;
    }
    if d.step.Marking? { PublishKeepsLive(l, s, a, q); }
  }

  /** While a revocation holds its family, nobody else adds a live token to it. */
  lemma PublishKeepsLive(l: Locking, s: State, a: Action, q: CallId)
    requires Inv(l, s) && Enabled(l, s, a) && Publishes(a) && q in s.calls && q != a.p
    requires s.calls[q].Revoking? && s.calls[q].step.Marking?
    ensures LiveOf(Apply(l, s, a).rows, s.calls[q].family) <= LiveOf(s.rows, s.calls[q].family)
  {
    var c, d := s.calls[a.p], s.calls[q];
    assert CallOk(s.rows, c) && CallOk(s.rows, d);
    assert Apart(l, c, d) && Apart(l, d, c);
    if a.Commit? { CommitIsAtomic(l, s, a); }
  }

  lemma PublishKeepsLinking(l: Locking, s: State, a: Action, q: CallId)
    requires Inv(l, s) && Enabled(l, s, a) && Publishes(a) && q in s.calls && q != a.p && s.calls[q].Linking?
    ensures CallOk(Apply(l, s, a).rows, s.calls[q])
  {
    var c, d := s.calls[a.p], s.calls[q];
    assert CallOk(s.rows, c) && CallOk(s.rows, d);
    assert Apart(l, c, d) && Apart(l, d, c);
    PublishGrows(l, s, a);
    if a.Commit? { CommitIsAtomic(l, s, a); }
  }

  lemma PublisherIsOk(l: Locking, s: State, a: Action)
    requires Inv(l, s) && Enabled(l, s, a) && Publishes(a)
    ensures var s' := Apply(l, s, a);
            && a.p in s'.calls && CallOk(s'.rows, s'.calls[a.p]) && s'.calls == s.calls[a.p := s'.calls[a.p]]
            && s.used <= s'.used
            && s'.calls[a.p].Returned? && (Drawn(s'.calls[a.p]).Some? ==> Drawn(s'.calls[a.p]) == Drawn(s.calls[a.p]))
  {
    assert CallOk(s.rows, s.calls[a.p]);
    if a.Commit? { CommitIsAtomic(l, s, a); }
  }

  lemma PublishStep(l: Locking, s: State, a: Action)
    requires Inv(l, s) && Enabled(l, s, a) && Publishes(a)
    ensures Inv(l, Apply(l, s, a))
  {
    var s' := Apply(l, s, a);
    PublishKeepsChains(l, s, a);
    PublisherIsOk(l, s, a);
    forall q | q in s'.calls
      ensures CallOk(s'.rows, s'.calls[q])
    {
      if q != a.p { PublishKeepsOther(l, s, a, q); }
    }
    forall p, q | p in s'.calls && q in s'.calls && p != q
      ensures Apart(l, s'.calls[p], s'.calls[q])
    {
      if p != a.p && q != a.p { assert Apart(l, s.calls[p], s.calls[q]); }
    }
  }
}
