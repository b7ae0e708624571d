/**
 What registrations and Google sign-ins answer: exactly what a call does that nothing gets in the
 way of, and the reasons for every refusal and failure among others.
 */
module GoogleAnswers {
  import opened Options
  import opened RefreshTokens
  import opened GoogleAccounts

  // ---------------------------------------------------------------- a call alone

  function StepsLeft(call: Call): nat {
    match call
    case SigningIn(_) => 5
    case ByMail(_, _, retry) => if retry then 2 else 4
    case Creating(_, _) => 3
    case Attaching(_, _) => 1
    case Registering(_, _) => 1
    case Returned(_) => 0
  }

  lemma NextCountsDown(n: Normalizer, users: Users, call: Call, newId: UserId, subFirst: bool)
    requires !call.Returned?
    ensures StepsLeft(Next(n, users, call, newId, subFirst).1) < StepsLeft(call)
    ensures Next(n, users, call, newId, subFirst).0 == users || Next(n, users, call, newId, subFirst).1.Returned?
  {
  }

  /** The users and the answer when a call takes all its steps with nobody in between. */
  ghost function Alone(n: Normalizer, users: Users, call: Call, newId: UserId, subFirst: bool): (Users, Outcome)
    decreases StepsLeft(call)
  {
    if call.Returned? then (users, call.outcome)
    else
      NextCountsDown(n, users, call, newId, subFirst);
      var (users', call') := Next(n, users, call, newId, subFirst);
      Alone(n, users', call', newId, subFirst)
  }

  /** A registration creates an unverified account with the password, exactly if the address is valid and free. */
  lemma RegisterAlone(n: Normalizer, users: Users, email: string, password: string, newId: UserId, subFirst: bool)
    requires newId !in users
    ensures var (users', answer) := Alone(n, users, Registering(email, password), newId, subFirst);
            if n(email).Some? && !exists id :: id in users && users[id].email == n(email).value
            then users' == users[newId := User(n(email).value, Some(password), None, false)]
                 && answer == Registered(newId)
            else users' == users && answer == Refused
  {
  }

  ghost predicate HasSubject(users: Users, id: UserId, subject: string) {
    id in users && users[id].sub == Some(subject)
  }

  ghost predicate HasAddress(users: Users, id: UserId, email: string) {
    id in users && users[id].email == email
  }

  lemma FindsMail(users: Users, email: string, id: UserId)
    requires Admits(users) && HasAddress(users, id, email)
    ensures WithMail(users, email) == Some(id)
  {
  }

  lemma FindsSub(users: Users, subject: string, id: UserId)
    requires Admits(users) && HasSubject(users, id, subject)
    ensures WithSub(users, subject) == Some(id)
  {
  }

  lemma FindsNoMail(users: Users, email: string)
    requires !exists id :: HasAddress(users, id, email)
    ensures WithMail(users, email).None?
  {
    assert forall id | id in users :: users[id].email == email ==> HasAddress(users, id, email);
  }

  lemma FindsNoSub(users: Users, subject: string)
    requires !exists id :: HasSubject(users, id, subject)
    ensures WithSub(users, subject).None?
  {
    assert forall id | id in users :: users[id].sub == Some(subject) ==> HasSubject(users, id, subject);
  }

  /** Claims that are unverified, or without an address, are refused. */
  lemma UnverifiedIsRefused(n: Normalizer, users: Users, claims: Claims, newId: UserId, subFirst: bool)
    requires !claims.verified || claims.email == ""
    ensures Alone(n, users, SigningIn(claims), newId, subFirst) == (users, Refused)
  {
  }

  /** A subject that is known enters its account, whatever address the claims name, and changes nothing. */
  lemma KnownSubjectEnters(n: Normalizer, users: Users, claims: Claims, id: UserId, newId: UserId, subFirst: bool)
    requires Admits(users) && claims.verified && claims.email != "" && HasSubject(users, id, claims.subject)
    ensures Alone(n, users, SigningIn(claims), newId, subFirst) == (users, SignedIn(claims, id, users[id]))
  {
    FindsSub(users, claims.subject, id);
  }

  /** A new subject with an address that cannot be normalized is refused. */
  lemma BadAddressIsRefused(n: Normalizer, users: Users, claims: Claims, newId: UserId, subFirst: bool)
    requires n(claims.email).None? && !exists id :: HasSubject(users, id, claims.subject)
    ensures Alone(n, users, SigningIn(claims), newId, subFirst) == (users, Refused)
  {
    FindsNoSub(users, claims.subject);
  }

  /** A new subject with a new address gets an account of its own, verified and without a password. */
  lemma NewAddressCreates(n: Normalizer, users: Users, claims: Claims, newId: UserId, subFirst: bool)
    requires claims.verified && claims.email != "" && n(claims.email).Some? && newId !in users
    requires !exists id :: HasSubject(users, id, claims.subject)
    requires !exists id :: HasAddress(users, id, n(claims.email).value)
    ensures var u := User(n(claims.email).value, None, Some(claims.subject), true);
            Alone(n, users, SigningIn(claims), newId, subFirst) == (users[newId := u], SignedIn(claims, newId, u))
  {
    var mail := n(claims.email).value;
    var u := User(mail, None, Some(claims.subject), true);
    FindsNoSub(users, claims.subject);
    FindsNoMail(users, mail);
    NewSubjectGoesOn(n, users, claims, newId, subFirst);
    assert Next(n, users, ByMail(claims, mail, false), newId, subFirst) == (users, Creating(claims, mail));
    assert Next(n, users, Creating(claims, mail), newId, subFirst)
        == (users[newId := u], Returned(SignedIn(claims, newId, u)));
    assert Alone(n, users, Creating(claims, mail), newId, subFirst) == (users[newId := u], SignedIn(claims, newId, u));
  }

  lemma NewSubjectGoesOn(n: Normalizer, users: Users, claims: Claims, newId: UserId, subFirst: bool)
    requires claims.verified && claims.email != "" && n(claims.email).Some? && WithSub(users, claims.subject).None?
    ensures Alone(n, users, SigningIn(claims), newId, subFirst)
         == Alone(n, users, ByMail(claims, n(claims.email).value, false), newId, subFirst)
  {
  }

  /**
   A new subject with the address of an account that has none is attached to it; the account keeps
   its password exactly if it was verified, and is verified from then on. If the account has
   another subject, the sign-in is refused.
   */
  lemma TakenAddressLinks(n: Normalizer, users: Users, claims: Claims, id: UserId, newId: UserId, subFirst: bool)
    requires Admits(users) && claims.verified && claims.email != "" && n(claims.email).Some?
    requires !exists id :: HasSubject(users, id, claims.subject)
    requires HasAddress(users, id, n(claims.email).value)
    ensures var u := users[id];
            var linked := User(u.email, if u.verified then u.password else None, Some(claims.subject), true);
            Alone(n, users, SigningIn(claims), newId, subFirst)
            == if u.sub.None? then (users[id := linked], SignedIn(claims, id, linked)) else (users, Refused)
  {
    var mail := n(claims.email).value;
    FindsNoSub(users, claims.subject);
    FindsMail(users, mail, id);
    NewSubjectGoesOn(n, users, claims, newId, subFirst);
    assert HasSubject(users, id, claims.subject) <==> users[id].sub == Some(claims.subject);
    if !HasGoogle(users[id]) {
      assert Next(n, users, ByMail(claims, mail, false), newId, subFirst) == (users, Attaching(claims, id));
      AttachesAlone(n, users, claims, id, newId, subFirst);
    }
  }

  lemma AttachesAlone(n: Normalizer, users: Users, claims: Claims, id: UserId, newId: UserId, subFirst: bool)
    requires id in users && users[id].sub != Some(claims.subject) && WithSub(users, claims.subject).None?
    ensures var u := users[id];
            var linked := User(u.email, if u.verified then u.password else None, Some(claims.subject), true);
            Alone(n, users, Attaching(claims, id), newId, subFirst)
            == if u.sub.None? then (users[id := linked], SignedIn(claims, id, linked)) else (users, Refused)
  {
  }

  /**
   When another sign-in with the same claims has created the account between the look-up and the
   insert, the late one enters that account unchanged if the address is reported as taken, and is
   refused if the subject is.
   */
  lemma LateCreatorEnters(n: Normalizer, users: Users, claims: Claims, email: string, id: UserId,
                          newId: UserId, subFirst: bool)
    requires Admits(users) && HasAddress(users, id, email) && HasSubject(users, id, claims.subject)
    requires claims.subject != ""
    ensures Alone(n, users, Creating(claims, email), newId, subFirst)
         == (users, if subFirst then Refused else SignedIn(claims, id, users[id]))
  {
    FindsMail(users, email, id);
    FindsSub(users, claims.subject, id);
    if !subFirst {
      assert Next(n, users, Creating(claims, email), newId, subFirst) == (users, ByMail(claims, email, true));
      assert Next(n, users, ByMail(claims, email, true), newId, subFirst)
          == (users, Returned(SignedIn(claims, id, users[id])));
      assert Alone(n, users, ByMail(claims, email, true), newId, subFirst) == (users, SignedIn(claims, id, users[id]));
    }
  }

  // ---------------------------------------------------------------- such a run exists

  ghost predicate Steps(n: Normalizer, run: Run) {
    && |run.states| == |run.actions| + 1
    && forall i {:trigger run.actions[i]} | 0 <= i < |run.actions| ::
         Enabled(run.states[i], run.actions[i]) && run.states[i + 1] == Apply(n, run.states[i], run.actions[i])
  }

  /** From every state an unfinished call can take its steps to the end, and then has done what it does alone. */
  lemma {:induction false} CanBeAlone(n: Normalizer, s: State, c: CallId, newId: UserId, subFirst: bool)
    returns (run: Run)
    requires c in s.calls && newId !in s.users
    ensures Steps(n, run) && run.states[0] == s
    ensures var (users, answer) := Alone(n, s.users, s.calls[c], newId, subFirst); var s' := run.states[|run.actions|];
            s'.users == users && s'.calls == s.calls[c := Returned(answer)]
    decreases StepsLeft(s.calls[c])
  {
    if s.calls[c].Returned? {
      run := Run([s], []);
    } else {
      NextCountsDown(n, s.users, s.calls[c], newId, subFirst);
      var a := Step(c, newId, subFirst, true);
      var s' := Apply(n, s, a);
      if s'.calls[c].Returned? {
        run := Run([s, s'], [a]);
      } else {
        var rest := CanBeAlone(n, s', c, newId, subFirst);
        run := StepFirst(n, s, a, rest);
      }
    }
  }

  lemma StepFirst(n: Normalizer, s: State, a: Action, rest: Run) returns (run: Run)
    requires Enabled(s, a) && Steps(n, rest) && rest.states[0] == Apply(n, s, a)
    ensures Steps(n, run) && run.states[0] == s && run.states[|run.actions|] == rest.states[|rest.actions|]
  {
    run := Run([s] + rest.states, [a] + rest.actions);
    forall i | 0 <= i < |run.actions|
      ensures Enabled(run.states[i], run.actions[i])
      ensures run.states[i + 1] == Apply(n, run.states[i], run.actions[i])
    {
      if i > 0 { assert run.actions[i] == rest.actions[i - 1] && run.states[i] == rest.states[i - 1]; }
    }
  }

  // ---------------------------------------------------------------- new accounts

  /**
   Every account that a registration creates has the normalized address and the password given, no
   subject, and is not verified; every account that a sign-in creates has the verified address of
   its claims, their subject and no password.
   */
  lemma NewAccounts(n: Normalizer, run: Run, i: nat, id: UserId)
    requires Valid(n, run) && i < |run.actions| && run.actions[i].Step?
    requires id !in run.states[i].users && id in run.states[i + 1].users
    ensures var call, u := run.states[i].calls[run.actions[i].c], run.states[i + 1].users[id];
            || (call.Registering? && n(call.email) == Some(u.email) && u.password == Some(call.password)
                && u.sub.None? && !u.verified)
            || (call.Creating? && call.claims.verified && n(call.claims.email) == Some(u.email)
                && u.password.None? && u.sub == Some(call.claims.subject) && u.verified)
  {
    InvAlways(n, run, i);
    var s, a := run.states[i], run.actions[i];
    assert Checked(n, s.users, s.calls[a.c]);
    assert run.states[i + 1] == Apply(n, s, a);
  }

  // ---------------------------------------------------------------- reasons, among others

  ghost predicate Invalid(n: Normalizer, claims: Claims) {
    !claims.verified || claims.email == "" || n(claims.email).None?
  }

  /** Somebody has the subject, or the account of the address is linked. */
  ghost predicate Conflict(n: Normalizer, users: Users, claims: Claims) {
    exists id :: id in users && users[id].sub.Some?
              && (users[id].sub.value == claims.subject || n(claims.email) == Some(users[id].email))
  }

  ghost predicate SignInStory(n: Normalizer, users: Users, call: Call, claims: Claims) {
    match call
    case Registering(_, _) => false
    case SigningIn(x) => x == claims
    case ByMail(x, _, _) => x == claims
    case Creating(x, _) => x == claims
    case Attaching(x, _) => x == claims
    case Returned(SignedIn(x, _, _)) => x == claims
    case Returned(Refused) => Invalid(n, claims) || Conflict(n, users, claims)
    case Returned(Registered(_)) => false
    case Returned(Failed) => true
  }

  lemma ConflictStays(n: Normalizer, users: Users, users': Users, claims: Claims)
    requires Moves(users, users') && Conflict(n, users, claims)
    ensures Conflict(n, users', claims)
  {
    var id :| id in users && users[id].sub.Some?
           && (users[id].sub.value == claims.subject || n(claims.email) == Some(users[id].email));
    assert id in users' && users'[id].sub == users[id].sub && users'[id].email == users[id].email;
  }

  lemma SignInNext(n: Normalizer, users: Users, call: Call, claims: Claims, newId: UserId, subFirst: bool)
    requires !call.Returned? && Checked(n, users, call) && SignInStory(n, users, call, claims) && newId !in users
    ensures var (users', call') := Next(n, users, call, newId, subFirst);
            call'.Returned? && call'.outcome.Refused? ==> Invalid(n, claims) || Conflict(n, users, claims)
    ensures SignInStory(n, users, Next(n, users, call, newId, subFirst).1, claims)
  {
    if call.Attaching? && !Links(users, claims, call.id) && users[call.id].sub.None? {
      var other := WithSub(users, claims.subject).value;
      assert users[other].sub == Some(claims.subject);
    }
  }

  lemma StoryStays(n: Normalizer, users: Users, users': Users, call: Call, claims: Claims)
    requires Moves(users, users') && SignInStory(n, users, call, claims)
    ensures SignInStory(n, users', call, claims)
  {
    if Conflict(n, users, claims) { ConflictStays(n, users, users', claims); }
  }

  lemma SignInStep(n: Normalizer, s: State, a: Action, c: CallId, claims: Claims)
    requires Inv(n, s) && Enabled(s, a) && c in s.calls && SignInStory(n, s.users, s.calls[c], claims)
    ensures var s' := Apply(n, s, a); c in s'.calls && SignInStory(n, s'.users, s'.calls[c], claims)
  {
    var s' := Apply(n, s, a);
    InvStep(n, s, a);
    assert Checked(n, s.users, s.calls[c]);
    if a.Step? && a.c == c {
      SignInNext(n, s.users, s.calls[c], claims, a.newId, a.subFirst);
      StoryStays(n, s.users, s'.users, Next(n, s.users, s.calls[c], a.newId, a.subFirst).1, claims);
    } else {
      StoryStays(n, s.users, s'.users, s.calls[c], claims);
    }
  }

  /**
   A sign-in is refused only for claims that are unverified or name no valid address, or because
   somebody has the subject or the account of the address is linked; it enters nobody for other claims.
   */
  lemma {:induction false} RefusalsHaveReasons(n: Normalizer, run: Run, i: nat, j: nat, c: CallId, claims: Claims)
    requires Valid(n, run) && i < j < |run.states| && run.actions[i] == SignIn(c, claims)
    ensures c in run.states[j].calls && SignInStory(n, run.states[j].users, run.states[j].calls[c], claims)
    decreases j
  {
    InvAlways(n, run, j - 1);
    if j - 1 == i {
      assert run.states[j] == Apply(n, run.states[i], run.actions[i]);
    } else {
      RefusalsHaveReasons(n, run, i, j - 1, c, claims);
      SignInStep(n, run.states[j - 1], run.actions[j - 1], c, claims);
    }
  }

  ghost predicate RegisterStory(n: Normalizer, users: Users, call: Call, email: string, password: string) {
    match call
    case Registering(x, y) => x == email && y == password
    case Returned(Registered(id)) => n(email).Some? && HasAddress(users, id, n(email).value)
    case Returned(Refused) => n(email).Some? ==> exists id :: HasAddress(users, id, n(email).value)
    case Returned(Failed) => true
    case _ => false
  }

  lemma RegisterStep(n: Normalizer, s: State, a: Action, c: CallId, email: string, password: string)
    requires Inv(n, s) && Enabled(s, a) && c in s.calls && RegisterStory(n, s.users, s.calls[c], email, password)
    ensures var s' := Apply(n, s, a); c in s'.calls && RegisterStory(n, s'.users, s'.calls[c], email, password)
  {
    var s' := Apply(n, s, a);
    InvStep(n, s, a);
    if n(email).Some? {
      forall id | HasAddress(s.users, id, n(email).value)
        ensures HasAddress(s'.users, id, n(email).value)
      {
      }
      if WithMail(s.users, n(email).value).Some? {
        assert HasAddress(s.users, WithMail(s.users, n(email).value).value, n(email).value);
      }
    }
  }

  /** A registration answers with an account of its address, and is refused only if the address is invalid or taken. */
  lemma {:induction false} RegistrationsHaveReasons(n: Normalizer, run: Run, i: nat, j: nat, c: CallId,
                                                    email: string, password: string)
    requires Valid(n, run) && i < j < |run.states| && run.actions[i] == Register(c, email, password)
    ensures c in run.states[j].calls && RegisterStory(n, run.states[j].users, run.states[j].calls[c], email, password)
    decreases j
  {
    InvAlways(n, run, j - 1);
    if j - 1 == i {
      assert run.states[j] == Apply(n, run.states[i], run.actions[i]);
    } else {
      RegistrationsHaveReasons(n, run, i, j - 1, c, email, password);
      RegisterStep(n, run.states[j - 1], run.actions[j - 1], c, email, password);
    }
  }

  lemma {:induction false} AnswersStay(n: Normalizer, run: Run, i: nat, j: nat, c: CallId)
    requires Valid(n, run) && i <= j < |run.states| && c in run.states[i].calls && run.states[i].calls[c].Returned?
    ensures c in run.states[j].calls && run.states[j].calls[c] == run.states[i].calls[c]
    decreases j
  {
    if i < j {
      AnswersStay(n, run, i, j - 1, c);
      assert run.states[j] == Apply(n, run.states[j - 1], run.actions[j - 1]);
    }
  }

  predicate Breaks(a: Action, c: CallId) {
    a == Fail(c) || (a.Step? && a.c == c && !a.reported)
  }

  /** A call says that it failed exactly if it broke off, or a committed statement of it went unreported. */
  lemma {:induction false} FailedExactlyWhenBroken(n: Normalizer, run: Run, j: nat, c: CallId)
    requires Valid(n, run) && j < |run.states| && c in run.states[j].calls
    ensures run.states[j].calls[c] == Returned(Failed) <==> exists k :: 0 <= k < j && Breaks(run.actions[k], c)
    decreases j
  {
    if j > 0 {
      var s, a := run.states[j - 1], run.actions[j - 1];
      InvAlways(n, run, j - 1);
      assert run.states[j] == Apply(n, s, a);
      if c in s.calls {
        FailedExactlyWhenBroken(n, run, j - 1, c);
        assert Checked(n, s.users, s.calls[c]);
      } else {
        NothingBefore(n, run, j - 1, c);
      }
    }
  }

  /** A call that has not begun has taken no step. */
  lemma {:induction false} NothingBefore(n: Normalizer, run: Run, j: nat, c: CallId)
    requires Valid(n, run) && j < |run.states| && c !in run.states[j].calls
    ensures forall k | 0 <= k < j :: !Breaks(run.actions[k], c)
    decreases j
  {
    if j > 0 {
      assert run.states[j] == Apply(n, run.states[j - 1], run.actions[j - 1]);
      NothingBefore(n, run, j - 1, c);
    }
  }
}
