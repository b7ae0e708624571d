/**
 Registrations and Google sign-ins on the users table, interleaved statement by statement, from any
 table the indexes admit. The two unique indexes reject an insert or an update that would break
 them. Linking an account locks its row, against inserted tokens too, so it is one step on both
 tables. Users may also be created by other means, and tokens change as the refresh-token protocol
 changes them. A call may fail before any statement, and a committed statement may go unreported.
 */
module GoogleAccounts {
  import opened Options
  import opened RefreshTokens
  import TokenRuns

  type CallId = int

  datatype User = User(email: string, password: Option<string>, sub: Option<string>, verified: bool)

  type Users = map<UserId, User>

  datatype Claims = Claims(subject: string, email: string, verified: bool)

  datatype Outcome = SignedIn(claims: Claims, id: UserId, user: User) | Registered(id: UserId) | Refused | Failed

  datatype Call =
    | Registering(email: string, password: string)
    | SigningIn(claims: Claims)
    | ByMail(claims: Claims, email: string, retry: bool)
    | Creating(claims: Claims, email: string)
    | Attaching(claims: Claims, id: UserId)
    | Returned(outcome: Outcome)

  datatype State = State(users: Users, tokens: Table, calls: map<CallId, Call>)

  /** `newId` is the id an insert gets; `subFirst` says which of two violated indexes is reported. */
  datatype Action =
    | Add(id: UserId, user: User)
    | ChangeTokens(tokens: Table)
    | Register(c: CallId, email: string, password: string)
    | SignIn(c: CallId, claims: Claims)
    | Step(c: CallId, newId: UserId, subFirst: bool, reported: bool)
    | Fail(c: CallId)

  /** Trimming, lowering and checking the length of an address. */
  type Normalizer = string -> Option<string>

  ghost function WithMail(users: Users, email: string): Option<UserId> {
    if exists id :: id in users && users[id].email == email
    then var id :| id in users && users[id].email == email; Some(id)
    else None
  }

  ghost function WithSub(users: Users, sub: string): Option<UserId> {
    if exists id :: id in users && users[id].sub == Some(sub)
    then var id :| id in users && users[id].sub == Some(sub); Some(id)
    else None
  }

  predicate HasGoogle(u: User) { u.sub.Some? && u.sub.value != "" }

  /** The update of `AttachGoogle`: a password that was set before the address was verified is dropped. */
  function Link(u: User, sub: string): User {
    User(u.email, if u.verified then u.password else None, Some(sub), true)
  }

  ghost predicate Enabled(s: State, a: Action) {
    match a
    case Add(id, user) => id !in s.users && Admits(s.users[id := user])
    case ChangeTokens(tokens) => TokenRuns.AtomicChange(s.tokens, tokens)
    case Register(c, _, _) => c !in s.calls
    case SignIn(c, _) => c !in s.calls
    case Step(c, newId, _, _) => c in s.calls && !s.calls[c].Returned? && newId !in s.users
    case Fail(c) => c in s.calls && !s.calls[c].Returned?
  }

  /** Whether the update of `AttachGoogle` finds its row and breaks no index. */
  ghost predicate Links(users: Users, claims: Claims, id: UserId) {
    && id in users && (users[id].sub.None? || users[id].sub == Some(claims.subject))
    && (WithSub(users, claims.subject).None? || WithSub(users, claims.subject).value == id)
  }

  /** The link of an unverified account, and no other call, revokes its tokens. */
  ghost function TokensAfter(users: Users, tokens: Table, call: Call): Table {
    if call.Attaching? && Links(users, call.claims, call.id) && !users[call.id].verified
    then Revocation(tokens, LiveOfUser(tokens, call.id)) else tokens
  }

  /** What the next statement of a call does to the users, and where the call stands then. */
  ghost function Next(n: Normalizer, users: Users, call: Call, newId: UserId, subFirst: bool): (r: (Users, Call))
    requires !call.Returned?
  {
    match call
    case Registering(email, password) =>
      var mail := n(email);
      if mail.None? || WithMail(users, mail.value).Some? then (users, Returned(Refused))
      else (users[newId := User(mail.value, Some(password), None, false)], Returned(Registered(newId)))
    case SigningIn(claims) =>
      var known := WithSub(users, claims.subject);
      if !claims.verified || claims.email == "" then (users, Returned(Refused))
      else if known.Some? then (users, Returned(SignedIn(claims, known.value, users[known.value])))
      else if n(claims.email).None? then (users, Returned(Refused))
      else (users, ByMail(claims, n(claims.email).value, false))
    case ByMail(claims, email, retry) =>
      var found := WithMail(users, email);
      if found.None? then (users, if retry then Returned(Failed) else Creating(claims, email))
      else
        var u := users[found.value];
        (users, if !HasGoogle(u) then Attaching(claims, found.value)
                else if u.sub != Some(claims.subject) then Returned(Refused)
                else Returned(SignedIn(claims, found.value, u)))
    case Creating(claims, email) =>
      var taken, linked := WithMail(users, email).Some?, WithSub(users, claims.subject).Some?;
      if linked && (subFirst || !taken) then (users, Returned(Refused))
      else if taken then (users, ByMail(claims, email, true))
      else
        var u := User(email, None, Some(claims.subject), true);
        (users[newId := u], Returned(SignedIn(claims, newId, u)))
    case Attaching(claims, id) =>
      if !Links(users, claims, id) then (users, Returned(Refused))
      else (users[id := Link(users[id], claims.subject)],
            Returned(SignedIn(claims, id, Link(users[id], claims.subject))))
  }

  ghost function Apply(n: Normalizer, s: State, a: Action): State
    requires Enabled(s, a)
  {
    match a
    case Add(id, user) => s.(users := s.users[id := user])
    case ChangeTokens(tokens) => s.(tokens := tokens)
    case Register(c, email, password) => s.(calls := s.calls[c := Registering(email, password)])
    case SignIn(c, claims) => s.(calls := s.calls[c := SigningIn(claims)])
    case Step(c, newId, subFirst, reported) =>
      var (users, call) := Next(n, s.users, s.calls[c], newId, subFirst);
      State(users, TokensAfter(s.users, s.tokens, s.calls[c]),
            s.calls[c := if reported then call else Returned(Failed)])
    case Fail(c) => s.(calls := s.calls[c := Returned(Failed)])
  }

  // ---------------------------------------------------------------- the invariant

  /** The two unique indexes, and the check that an account can be entered somehow. */
  ghost predicate Admits(users: Users) {
    && (forall i, j | i in users && j in users && users[i].email == users[j].email :: i == j)
    && (forall i, j | i in users && j in users && users[i].sub.Some? && users[i].sub == users[j].sub :: i == j)
    && (forall i | i in users :: users[i].password.Some? || users[i].sub.Some?)
  }

  predicate AnswerOk(users: Users, call: Call) {
    call.Returned? && call.outcome.SignedIn? ==>
      var o := call.outcome;
      o.claims.verified && o.id in users && users[o.id].sub == o.user.sub == Some(o.claims.subject)
  }

  /** Past the first check the claims are verified, and an account to be linked has their address. */
  ghost predicate Checked(n: Normalizer, users: Users, call: Call) {
    match call
    case ByMail(claims, email, retry) =>
      claims.verified && n(claims.email) == Some(email) && (retry ==> WithMail(users, email).Some?)
    case Creating(claims, email) => claims.verified && n(claims.email) == Some(email)
    case Attaching(claims, id) => claims.verified && id in users && n(claims.email) == Some(users[id].email)
    case _ => true
  }

  ghost predicate Inv(n: Normalizer, s: State) {
    && Admits(s.users)
    && (forall c | c in s.calls :: AnswerOk(s.users, s.calls[c]) && Checked(n, s.users, s.calls[c]))
  }

  /**
   What one statement may do to a user that is there: nothing, or attach a subject where there was none or
   the same.
   */
  ghost predicate Moves(users: Users, users': Users) {
    forall id | id in users :: id in users' && (users'[id] == users[id] || Attached(users[id], users'[id]))
  }

  predicate Attached(u: User, u': User) {
    u'.sub.Some? && (u.sub.None? || u.sub == u'.sub) && u' == Link(u, u'.sub.value)
  }

  lemma NextKeeps(n: Normalizer, users: Users, call: Call, newId: UserId, subFirst: bool)
    requires !call.Returned? && newId !in users && Checked(n, users, call) && Admits(users)
    ensures var (users', call') := Next(n, users, call, newId, subFirst);
            && Admits(users') && Moves(users, users') && AnswerOk(users', call') && Checked(n, users', call')
  {
    NextAdmits(n, users, call, newId, subFirst);
  }

  lemma NextAdmits(n: Normalizer, users: Users, call: Call, newId: UserId, subFirst: bool)
    requires !call.Returned? && newId !in users && Admits(users)
    ensures Admits(Next(n, users, call, newId, subFirst).0)
  {
  }

  lemma MovesKeepsAnswers(n: Normalizer, users: Users, users': Users, call: Call)
    requires Moves(users, users') && AnswerOk(users, call) && Checked(n, users, call)
    ensures AnswerOk(users', call) && Checked(n, users', call)
  {
  }

  lemma InvStep(n: Normalizer, s: State, a: Action)
    requires Inv(n, s) && Enabled(s, a)
    ensures Inv(n, Apply(n, s, a)) && Moves(s.users, Apply(n, s, a).users)
  {
    if a.Step? {
      assert Checked(n, s.users, s.calls[a.c]);
      NextKeeps(n, s.users, s.calls[a.c], a.newId, a.subFirst);
    }
    var s' := Apply(n, s, a);
    forall c | c in s'.calls
      ensures AnswerOk(s'.users, s'.calls[c]) && Checked(n, s'.users, s'.calls[c])
    {
      if c in s.calls { MovesKeepsAnswers(n, s.users, s'.users, s.calls[c]); }
    }
  }

  // ---------------------------------------------------------------- runs

  datatype Run = Run(states: seq<State>, actions: seq<Action>)

  /** A run from any users and tokens, with no call in flight. */
  ghost predicate Valid(n: Normalizer, run: Run) {
    && |run.states| == |run.actions| + 1 && Admits(run.states[0].users) && run.states[0].calls == map[]
    && forall i {:trigger run.actions[i]} | 0 <= i < |run.actions| ::
         Enabled(run.states[i], run.actions[i]) && run.states[i + 1] == Apply(n, run.states[i], run.actions[i])
  }

  lemma {:induction false} InvAlways(n: Normalizer, run: Run, i: nat)
    requires Valid(n, run) && i < |run.states|
    ensures Inv(n, run.states[i])
  {
    if i > 0 {
      InvAlways(n, run, i - 1);
      InvStep(n, run.states[i - 1], run.actions[i - 1]);
    }
  }

  lemma MovesAt(n: Normalizer, run: Run, i: nat)
    requires Valid(n, run) && i + 1 < |run.states|
    ensures Moves(run.states[i].users, run.states[i + 1].users)
  {
    InvAlways(n, run, i);
    InvStep(n, run.states[i], run.actions[i]);
  }

  /** A user keeps its address and a subject once attached; an account that is linked and verified never changes. */
  lemma {:induction false} LinksAreForever(n: Normalizer, run: Run, i: nat, j: nat, id: UserId)
    requires Valid(n, run) && i <= j < |run.states| && id in run.states[i].users
    ensures id in run.states[j].users && run.states[j].users[id].email == run.states[i].users[id].email
    ensures run.states[i].users[id].sub.Some? ==> run.states[j].users[id].sub == run.states[i].users[id].sub
    ensures run.states[i].users[id].sub.Some? && run.states[i].users[id].verified ==>
              run.states[j].users[id] == run.states[i].users[id]
  {
    if i < j {
      LinksAreForever(n, run, i, j - 1, id);
      MovesAt(n, run, j - 1);
    }
  }

  /** Until it is linked an account does not change. */
  lemma {:induction false} UnlinkedStays(n: Normalizer, run: Run, i: nat, j: nat, id: UserId)
    requires Valid(n, run) && i <= j < |run.states| && id in run.states[i].users
    ensures id in run.states[j].users
    ensures run.states[j].users[id].sub.None? ==> run.states[j].users[id] == run.states[i].users[id]
  {
    if i < j {
      UnlinkedStays(n, run, i, j - 1, id);
      MovesAt(n, run, j - 1);
    }
  }

  /**
   Once an account has come to a subject, whenever that was, it has the password it had if its
   address was verified before, and none if it was not.
   */
  lemma {:induction false} PasswordOutlivesTheLinkIfVerified(n: Normalizer, run: Run, i: nat, j: nat, id: UserId)
    requires Valid(n, run) && i <= j < |run.states| && id in run.states[i].users && run.states[i].users[id].sub.None?
    ensures id in run.states[j].users
    ensures var u, u' := run.states[i].users[id], run.states[j].users[id];
            u'.sub.Some? ==> u'.verified && u'.password == if u.verified then u.password else None
  {
    if i < j {
      PasswordOutlivesTheLinkIfVerified(n, run, i, j - 1, id);
      UnlinkedStays(n, run, i, j - 1, id);
      MovesAt(n, run, j - 1);
    }
  }

  /**
   An account comes to its subject only through verified claims that name its own address. It
   loses its password, and its user every live token, exactly if the address was unverified;
   nobody else's tokens are touched.
   */
  lemma OnlyItsAddressLinks(n: Normalizer, run: Run, i: nat, id: UserId)
    requires Valid(n, run) && i < |run.actions| && id in run.states[i].users && id in run.states[i + 1].users
    requires run.states[i].users[id].sub.None? && run.states[i + 1].users[id].sub.Some?
    ensures var s, s' := run.states[i], run.states[i + 1]; var a := run.actions[i];
            var u, u' := s.users[id], s'.users[id];
            && a.Step? && a.c in s.calls && s.calls[a.c].Attaching?
            && s.calls[a.c].claims.verified && n(s.calls[a.c].claims.email) == Some(u.email)
            && u'.sub == Some(s.calls[a.c].claims.subject)
            && u'.verified && (u'.password == u.password <==> u.verified)
            && (UserDead(s'.tokens, id) <==> !u.verified || UserDead(s.tokens, id))
            && (u.verified ==> s'.tokens == s.tokens)
            && s'.tokens.Keys == s.tokens.Keys
            && (forall t | t in s.tokens && s.tokens[t].user != id :: s'.tokens[t] == s.tokens[t])
  {
    InvAlways(n, run, i);
    var s := run.states[i];
    var a := run.actions[i];
    if a.Step? { assert Checked(n, s.users, s.calls[a.c]); }
  }

  ghost predicate Entered(s: State, c: CallId, claims: Claims, id: UserId) {
    c in s.calls && s.calls[c].Returned? && s.calls[c].outcome.SignedIn?
    && s.calls[c].outcome.claims == claims && s.calls[c].outcome.id == id
  }

  /**
   Sign-ins with one subject, by whatever path and at whatever moments of a run, all enter the same
   account, which carries exactly that subject from then on; only verified claims get that far.
   */
  lemma OneAccountPerSubject(n: Normalizer, run: Run, i: nat, c: CallId, x: Claims, id: UserId, j: nat, d: CallId,
                             y: Claims, other: UserId)
    requires Valid(n, run) && i <= j < |run.states|
    requires Entered(run.states[i], c, x, id) && Entered(run.states[j], d, y, other)
    ensures id == other <==> x.subject == y.subject
    ensures id in run.states[j].users && run.states[j].users[id].sub == Some(x.subject) && x.verified
  {
    InvAlways(n, run, i);
    InvAlways(n, run, j);
    assert AnswerOk(run.states[i].users, run.states[i].calls[c])
           && AnswerOk(run.states[j].users, run.states[j].calls[d]);
    LinksAreForever(n, run, i, j, id);
  }
}
