/**
 The broker used by many goroutines at once. Subscribing and cancelling edit the map statement by
 statement under the write lock; a publication walks the set of its user under the read lock, in
 any order, and counts a loss in a step of its own; a cancellation closes the channel only after
 it has released the lock; readers take from their channels at any time, without a lock.

 A second call of `Cancel` waits until the first has done its work, and is one step then. Sending on
 a closed channel and closing one twice crash the process: `panicked` records that.
 */
module BrokerProtocol {
  import opened Options
  import opened Sums
  import opened Channels

  type ThreadId = int

  datatype Stage = Waiting | Holding | Halfway | Edited | Released

  datatype Thread =
    | Subscribing(x: SubId, stage: Stage)
    | Cancelling(x: SubId, stage: Stage)
    | Publishing(event: Event, locked: bool, owes: bool, targets: set<SubId>, rest: set<SubId>)
    | Published(event: Event, targets: set<SubId>)
    | Served

  /**
   `opens` and `cancels` name the thread that made a subscriber and the first one to cancel it;
   `senders` names, for every offer of a channel, the publication that made it.
   */
  datatype State = State(
    subs: Registry, chans: Chans, dropped: int, writer: Option<ThreadId>, readers: set<ThreadId>,
    threads: map<ThreadId, Thread>, opens: map<SubId, ThreadId>, cancels: map<SubId, ThreadId>,
    senders: map<SubId, seq<ThreadId>>, panicked: bool)

  datatype Action =
    | Subscribe(t: ThreadId, x: SubId, user: UserId)
    | Cancel(t: ThreadId, x: SubId)
    | Publish(t: ThreadId, event: Event)
    | Acquire(t: ThreadId)
    | Edit(t: ThreadId)
    | Release(t: ThreadId)
    | Close(t: ThreadId)
    | Enter(t: ThreadId)
    | MakeOffer(t: ThreadId, x: SubId)
    | Count(t: ThreadId)
    | Leave(t: ThreadId)
    | Receive(x: SubId)

  predicate Edits(th: Thread) { th.Subscribing? || th.Cancelling? }

  predicate Inside(th: Thread) { Edits(th) && (th.stage.Holding? || th.stage.Halfway? || th.stage.Edited?) }

  predicate Enabled(s: State, a: Action) {
    match a
    case Subscribe(t, x, _) => t !in s.threads && x !in s.chans
    case Cancel(t, x) =>
      && t !in s.threads && x in s.chans && x in s.opens && s.opens[x] in s.threads && s.threads[s.opens[x]].Served?
      && (x in s.cancels ==> s.cancels[x] in s.threads && s.threads[s.cancels[x]].Served?)
    case Publish(t, _) => t !in s.threads
    case Acquire(t) =>
      t in s.threads && Edits(s.threads[t]) && s.threads[t].stage.Waiting? && s.writer.None? && s.readers == {}
    case Edit(t) => t in s.threads && Edits(s.threads[t]) && s.threads[t].x in s.chans
                    && (s.threads[t].stage.Holding? || s.threads[t].stage.Halfway?)
    case Release(t) => t in s.threads && Edits(s.threads[t]) && s.threads[t].stage.Edited?
    case Close(t) =>
      t in s.threads && s.threads[t].Cancelling? && s.threads[t].stage.Released? && s.threads[t].x in s.chans
    case Enter(t) => t in s.threads && s.threads[t].Publishing? && !s.threads[t].locked && s.writer.None?
    case MakeOffer(t, x) =>
      t in s.threads && s.threads[t].Publishing? && s.threads[t].locked && !s.threads[t].owes && x in s.threads[t].rest
    case Count(t) => t in s.threads && s.threads[t].Publishing? && s.threads[t].owes
    case Leave(t) =>
      t in s.threads && s.threads[t].Publishing? && s.threads[t].locked && !s.threads[t].owes && s.threads[t].rest == {}
    case Receive(x) => x in s.chans && s.chans[x].queue != []
  }

  /** The statements of a critical section, one at a time. */
  function EditedMap(subs: Registry, user: UserId, th: Thread): Registry
    requires Edits(th)
  {
    match (th.Subscribing?, th.stage.Holding?)
    case (true, true) => if user in subs then subs else subs[user := {}]
    case (true, false) => subs[user := Members(subs, user) + {th.x}]
    case (false, true) => if user in subs then subs[user := subs[user] - {th.x}] else subs
    case (false, false) => if Members(subs, user) == {} then subs - {user} else subs
  }

  function Next(stage: Stage): Stage {
    if stage.Holding? then Halfway else Edited
  }

  function Sender(s: State, x: SubId): seq<ThreadId> {
    if x in s.senders then s.senders[x] else []
  }

  function Apply(s: State, a: Action): State
    requires Enabled(s, a)
  {
    match a
    case Subscribe(t, x, user) =>
      s.(chans := s.chans[x := Fresh(user)], opens := s.opens[x := t], senders := s.senders[x := []],
         threads := s.threads[t := Subscribing(x, Waiting)])
    case Cancel(t, x) =>
      if x in s.cancels then s.(threads := s.threads[t := Served])
      else s.(cancels := s.cancels[x := t], threads := s.threads[t := Cancelling(x, Waiting)])
    case Publish(t, e) => s.(threads := s.threads[t := Publishing(e, false, false, {}, {})])
    case Acquire(t) => s.(writer := Some(t), threads := s.threads[t := s.threads[t].(stage := Holding)])
    case Edit(t) =>
      var th := s.threads[t];
      s.(subs := EditedMap(s.subs, s.chans[th.x].user, th), threads := s.threads[t := th.(stage := Next(th.stage))])
    case Release(t) =>
      var th := s.threads[t];
      s.(writer := None, threads := s.threads[t := if th.Cancelling? then th.(stage := Released) else Served])
    case Close(t) =>
      var x := s.threads[t].x;
      s.(chans := s.chans[x := s.chans[x].(closed := true)], threads := s.threads[t := Served],
         panicked := s.panicked || s.chans[x].closed)
    case Enter(t) =>
      var targets := Members(s.subs, s.threads[t].event.user);
      s.(readers := s.readers + {t},
         threads := s.threads[t := s.threads[t].(locked := true, targets := targets, rest := targets)])
    case MakeOffer(t, x) =>
      if x !in s.chans || s.chans[x].closed then s.(panicked := true)
      else
        var th := s.threads[t];
        s.(chans := s.chans[x := Send(s.chans[x], th.event)], senders := s.senders[x := Sender(s, x) + [t]],
           threads := s.threads[t := th.(rest := th.rest - {x}, owes := |s.chans[x].queue| >= BUFFER)])
    case Count(t) => s.(dropped := s.dropped + 1, threads := s.threads[t := s.threads[t].(owes := false)])
    case Leave(t) =>
      s.(readers := s.readers - {t}, threads := s.threads[t := Published(s.threads[t].event, s.threads[t].targets)])
    case Receive(x) => s.(chans := s.chans[x := Take(s.chans[x])])
  }

  // ---------------------------------------------------------------- the invariant

  ghost predicate LockOk(s: State) {
    && (s.writer.Some? ==> s.readers == {})
    && (forall t | t in s.threads && Inside(s.threads[t]) :: s.writer == Some(t))
    && (forall t | t in s.threads && s.threads[t].Publishing? && s.threads[t].locked :: t in s.readers)
    && (s.writer.Some? ==> s.writer.value in s.threads && Inside(s.threads[s.writer.value]))
    && (forall t | t in s.readers :: t in s.threads && s.threads[t].Publishing? && s.threads[t].locked)
  }

  /** Between `Subscribe`'s insertion and the removal by the first `Cancel`. */
  predicate Serving(s: State, x: SubId)
    requires x in s.opens && s.opens[x] in s.threads && (x in s.cancels ==> s.cancels[x] in s.threads)
  {
    if x in s.cancels
    then var th := s.threads[s.cancels[x]]; th.Cancelling? && (th.stage.Waiting? || th.stage.Holding?)
    else var th := s.threads[s.opens[x]]; th.Served? || (th.Subscribing? && th.stage.Edited?)
  }

  predicate ThreadOk(s: State, t: ThreadId)
    requires t in s.threads
  {
    match s.threads[t]
    case Subscribing(x, stage) => x in s.chans && x in s.opens && s.opens[x] == t && x !in s.cancels && !stage.Released?
    case Cancelling(x, _) => x in s.chans && x in s.cancels && s.cancels[x] == t
    case Publishing(e, locked, owes, targets, rest) =>
      if locked then targets == Members(s.subs, e.user) && rest <= targets else targets == rest == {} && !owes
    case _ => true
  }

  /** Its opener is at work or done; then its first canceller is. */
  predicate Owned(s: State, x: SubId) {
    && x in s.opens && s.opens[x] in s.threads
    && (s.threads[s.opens[x]].Served?
        || (x !in s.cancels && s.threads[s.opens[x]].Subscribing? && s.threads[s.opens[x]].x == x))
    && (x in s.cancels ==>
          && s.cancels[x] in s.threads
          && (s.threads[s.cancels[x]].Served?
              || (s.threads[s.cancels[x]].Cancelling? && s.threads[s.cancels[x]].x == x)))
  }

  /** It is registered just while it is served, and closed just after its cancellation. */
  predicate SubOk(s: State, x: SubId)
    requires x in s.chans
  {
    && Owned(s, x)
    && (Registered(s.subs, s.chans, x) <==> Serving(s, x))
    && (s.chans[x].closed <==> x in s.cancels && s.threads[s.cancels[x]].Served?)
  }

  /** A set may be empty only in the middle of the critical section that made it so. */
  ghost predicate MapOk(s: State) {
    && Sorted(s.subs, s.chans)
    && forall user | user in s.subs && s.subs[user] == {} ::
         && s.writer.Some? && s.writer.value in s.threads && Edits(s.threads[s.writer.value])
         && s.threads[s.writer.value].stage.Halfway?
         && s.threads[s.writer.value].x in s.chans && s.chans[s.threads[s.writer.value].x].user == user
  }

  ghost predicate Shape(s: State) {
    && LockOk(s) && MapOk(s) && !s.panicked
    && (forall t | t in s.threads :: ThreadOk(s, t))
    && (forall x | x in s.chans :: SubOk(s, x))
    && s.cancels.Keys <= s.chans.Keys
  }

  /** Publication `t` has handed its event to `x`. */
  predicate HandedTo(s: State, t: ThreadId, x: SubId) {
    && t in s.threads
    && match s.threads[t]
       case Publishing(_, locked, _, targets, rest) => locked && x in targets && x !in rest
       case Published(_, targets) => x in targets
       case _ => false
  }

  function EventOf(s: State, t: ThreadId): Event
    requires t in s.threads && Publishes(s.threads[t])
  {
    s.threads[t].event
  }

  /** The offers of a channel are those of the publications that have handed it their event, one each. */
  ghost predicate OffersOk(s: State, x: SubId)
    requires x in s.chans
  {
    var offers, senders := s.chans[x].offers, Sender(s, x);
    && Kept(s.chans[x]) && |senders| == |offers|
    && (forall i | 0 <= i < |senders| :: HandedTo(s, senders[i], x) && EventOf(s, senders[i]) == offers[i].event)
    && (forall t | t in s.threads && HandedTo(s, t, x) :: t in senders)
    && (forall i, j | 0 <= i < j < |senders| :: senders[i] != senders[j])
  }

  predicate Publishes(th: Thread) { th.Publishing? || th.Published? }

  predicate TargetOk(s: State, t: ThreadId, x: SubId) {
    t in s.threads && Publishes(s.threads[t]) && x in s.threads[t].targets ==>
      x in s.chans && s.chans[x].user == s.threads[t].event.user
  }

  ghost predicate TargetsOk(s: State) {
    forall t, x :: TargetOk(s, t, x)
  }

  ghost function Owing(s: State): set<ThreadId> {
    set t | t in s.threads && s.threads[t].Publishing? && s.threads[t].owes
  }

  ghost predicate Books(s: State) {
    s.dropped + |Owing(s)| == Losses(s.chans)
  }

  ghost predicate Inv(s: State) {
    && Shape(s) && TargetsOk(s) && Books(s)
    && forall x | x in s.chans :: OffersOk(s, x)
  }

  // ---------------------------------------------------------------- every step keeps it

  lemma LockStep(s: State, s': State, a: Action)
    requires LockOk(s) && Enabled(s, a) && s' == Apply(s, a)
    ensures LockOk(s')
  {
    if Begins(a) { LockBegins(s, s', a); } else if !Locks(a) { NoLockStep(s, s', a); }
  }

  lemma LockBegins(s: State, s': State, a: Action)
    requires LockOk(s) && Enabled(s, a) && s' == Apply(s, a) && Begins(a)
    ensures LockOk(s')
  {
  }

  predicate Locks(a: Action) { a.Acquire? || a.Release? || a.Enter? || a.Leave? }

  lemma NoLockStep(s: State, s': State, a: Action)
    requires LockOk(s) && Enabled(s, a) && s' == Apply(s, a) && !Locks(a) && !Begins(a)
    ensures LockOk(s')
  {
  }

  lemma NoPanicStep(s: State, a: Action)
    requires Shape(s) && Enabled(s, a)
    ensures !Apply(s, a).panicked
  {
    if a.Close? { assert ThreadOk(s, a.t); }
    if a.MakeOffer? {
      assert ThreadOk(s, a.t);
      assert SubOk(s, a.x) && Registered(s.subs, s.chans, a.x);
    }
  }

  predicate MoverOk(s: State, a: Action) {
    a.Receive? || (a.t in s.threads ==> ThreadOk(s, a.t))
  }

  /** The thread that moves. */
  lemma MoverStep(s: State, s': State, a: Action)
    requires Enabled(s, a) && s' == Apply(s, a) && !a.Receive? && MoverOk(s, a) && s.cancels.Keys <= s.chans.Keys
    ensures a.t in s'.threads && ThreadOk(s', a.t)
  {
    if Edits(s'.threads[a.t]) { EditorStep(s, s', a); }
  }

  lemma EditorStep(s: State, s': State, a: Action)
    requires Enabled(s, a) && s' == Apply(s, a) && !a.Receive? && MoverOk(s, a) && s.cancels.Keys <= s.chans.Keys
    requires a.t in s'.threads && Edits(s'.threads[a.t])
    ensures ThreadOk(s', a.t)
  {
  }

  /** All other threads. */
  lemma OtherThreadStep(s: State, s': State, a: Action, t: ThreadId)
    requires LockOk(s) && Enabled(s, a) && s' == Apply(s, a) && t in s.threads && (a.Receive? || a.t != t)
    requires ThreadOk(s, t)
    ensures t in s'.threads && ThreadOk(s', t)
  {
    if a.Edit? {
      NoReaderDuringEdit(s, a, t);
    } else if Begins(a) {
      OtherThreadBegins(s, s', a, t);
    }
  }

  /** A publication that holds the read lock keeps everyone out of the map. */
  lemma NoReaderDuringEdit(s: State, a: Action, t: ThreadId)
    requires LockOk(s) && Enabled(s, a) && a.Edit? && t in s.threads
    ensures !(s.threads[t].Publishing? && s.threads[t].locked)
  {
  }

  predicate Begins(a: Action) { a.Subscribe? || a.Cancel? || a.Publish? }

  lemma OtherThreadBegins(s: State, s': State, a: Action, t: ThreadId)
    requires Enabled(s, a) && s' == Apply(s, a) && t in s.threads && Begins(a) && a.t != t && ThreadOk(s, t)
    ensures t in s'.threads && ThreadOk(s', t)
  {
  }

  lemma SubEdited(s: State, s': State, a: Action, x: SubId)
    requires Enabled(s, a) && a.Edit? && s' == Apply(s, a) && x in s.chans && SubOk(s, x) && MoverOk(s, a)
    ensures SubOk(s', x)
  {
  }

  lemma OwnedStep(s: State, s': State, a: Action, x: SubId)
    requires Enabled(s, a) && !Begins(a) && s' == Apply(s, a) && x in s.chans && MoverOk(s, a) && Owned(s, x)
    ensures x in s'.chans && Owned(s', x)
  {
  }

  lemma OwnedBegun(s: State, s': State, a: Action, x: SubId)
    requires Enabled(s, a) && Begins(a) && s' == Apply(s, a) && x in s'.chans
    requires if x in s.chans then Owned(s, x) else x !in s.cancels
    ensures Owned(s', x)
  {
  }

  lemma SubBegun(s: State, s': State, a: Action, x: SubId)
    requires Enabled(s, a) && (a.Subscribe? || a.Publish?) && s' == Apply(s, a)
    requires x in s.chans && SubOk(s, x) && Owned(s', x)
    ensures SubOk(s', x)
  {
  }

  lemma SubCancelled(s: State, s': State, a: Action, x: SubId)
    requires Enabled(s, a) && a.Cancel? && s' == Apply(s, a) && x in s.chans && SubOk(s, x) && Owned(s', x)
    ensures SubOk(s', x)
  {
  }

  lemma SubMade(s: State, s': State, a: Action, x: SubId)
    requires Enabled(s, a) && a.Subscribe? && a.x == x && s' == Apply(s, a) && Sorted(s.subs, s.chans)
             && x !in s.cancels
    ensures SubOk(s', x)
  {
    var user := s'.chans[x].user;
    assert user in s.subs ==> x !in s.subs[user];
  }

  lemma SubClosed(s: State, s': State, a: Action, x: SubId)
    requires Enabled(s, a) && a.Close? && s' == Apply(s, a) && x in s.chans && SubOk(s, x) && MoverOk(s, a)
             && Owned(s', x)
    ensures SubOk(s', x)
  {
  }

  lemma SubStep(s: State, s': State, a: Action, x: SubId)
    requires Enabled(s, a) && !a.Edit? && !a.Close? && !Begins(a) && s' == Apply(s, a)
    requires x in s.chans && SubOk(s, x) && MoverOk(s, a) && Owned(s', x)
    ensures SubOk(s', x)
  {
    if !Locks(a) { SubServed(s, s', a, x); }
  }

  lemma SubServed(s: State, s': State, a: Action, x: SubId)
    requires Enabled(s, a) && (a.MakeOffer? || a.Count? || a.Receive?) && s' == Apply(s, a)
    requires x in s.chans && SubOk(s, x) && MoverOk(s, a) && Owned(s', x)
    ensures SubOk(s', x)
  {
  }

  lemma MapStep(s: State, a: Action)
    requires Shape(s) && Enabled(s, a)
    ensures MapOk(Apply(s, a))
  {
  }

  lemma ShapeStep(s: State, a: Action)
    requires Shape(s) && Enabled(s, a)
    ensures Shape(Apply(s, a))
  {
    LockStep(s, Apply(s, a), a);
    NoPanicStep(s, a);
    MapStep(s, a);
    var s' := Apply(s, a);
    forall t | t in s'.threads
      ensures ThreadOk(s', t)
    {
      assert MoverOk(s, a);
      if !a.Receive? && t == a.t { MoverStep(s, s', a); } else { OtherThreadStep(s, s', a, t); }
    }
    forall x | x in s'.chans
      ensures SubOk(s', x)
    {
      assert MoverOk(s, a);
      if Begins(a) {
        OwnedBegun(s, s', a, x);
        if x !in s.chans { SubMade(s, s', a, x); }
        else if a.Cancel? { SubCancelled(s, s', a, x); }
        else { SubBegun(s, s', a, x); }
      } else {
        OwnedStep(s, s', a, x);
        if a.Edit? { SubEdited(s, s', a, x); }
        else if a.Close? { SubClosed(s, s', a, x); }
        else { SubStep(s, s', a, x); }
      }
    }
  }

  lemma TargetStep(s: State, s': State, a: Action, t: ThreadId, x: SubId)
    requires Sorted(s.subs, s.chans) && Enabled(s, a) && s' == Apply(s, a) && TargetOk(s, t, x)
    ensures TargetOk(s', t, x)
  {
  }

  lemma TargetsStep(s: State, a: Action)
    requires Sorted(s.subs, s.chans) && TargetsOk(s) && Enabled(s, a)
    ensures TargetsOk(Apply(s, a))
  {
    var s' := Apply(s, a);
    forall t, x
      ensures TargetOk(s', t, x)
    {
      assert TargetOk(s, t, x);
      TargetStep(s, s', a, t, x);
    }
  }

  /** Only an offer changes who has handed what to whom. */
  lemma HandedStep(s: State, s': State, a: Action, t: ThreadId, x: SubId)
    requires Enabled(s, a) && s' == Apply(s, a) && !s'.panicked && (t in s.threads ==> ThreadOk(s, t))
    ensures HandedTo(s', t, x) <==> HandedTo(s, t, x) || (a.MakeOffer? && a.t == t && a.x == x)
    ensures HandedTo(s, t, x) ==> EventOf(s', t) == EventOf(s, t)
  {
    EventStays(s, s', a, t);
  }

  lemma EventStays(s: State, s': State, a: Action, t: ThreadId)
    requires Enabled(s, a) && s' == Apply(s, a)
    ensures t in s.threads && Publishes(s.threads[t]) ==>
              t in s'.threads && Publishes(s'.threads[t]) && EventOf(s', t) == EventOf(s, t)
  {
  }

  lemma OfferStep(s: State, a: Action)
    requires Inv(s) && Enabled(s, a) && a.MakeOffer?
    ensures OffersOk(Apply(s, a), a.x)
  {
    var s', x := Apply(s, a), a.x;
    NoPanicStep(s, a);
    SendKeeps(s.chans[x], s.threads[a.t].event);
    forall t
      ensures HandedTo(s', t, x) <==> HandedTo(s, t, x) || t == a.t
      ensures HandedTo(s, t, x) ==> EventOf(s', t) == EventOf(s, t)
    {
      HandedStep(s, s', a, t, x);
    }
    assert ThreadOk(s, a.t) && OffersOk(s, x);
    OfferIsBooked(s, s', a.t, x);
  }

  lemma OfferIsBooked(s: State, s': State, t: ThreadId, x: SubId)
    requires x in s.chans && OffersOk(s, x) && x in s'.chans && t in s.threads && t in s'.threads && !HandedTo(s, t, x)
    requires Publishes(s'.threads[t]) && s'.chans[x] == Send(s.chans[x], s'.threads[t].event) && Kept(s'.chans[x])
    requires Sender(s', x) == Sender(s, x) + [t]
    requires forall u :: HandedTo(s', u, x) <==> HandedTo(s, u, x) || u == t
    requires forall u | u in s.threads && HandedTo(s, u, x) ::
               u in s'.threads && Publishes(s.threads[u]) && Publishes(s'.threads[u]) && EventOf(s', u) == EventOf(s, u)
    ensures OffersOk(s', x)
  {
    assert t !in Sender(s, x);
  }

  /** A channel that gets no offer in this step keeps its history of offers. */
  lemma OffersStay(s: State, s': State, a: Action, x: SubId)
    requires Enabled(s, a) && s' == Apply(s, a) && x in s'.chans && x in s.chans && !(a.MakeOffer? && a.x == x)
    requires Kept(s.chans[x])
    ensures Kept(s'.chans[x]) && s'.chans[x].offers == s.chans[x].offers && Sender(s', x) == Sender(s, x)
  {
    if a.Receive? && a.x == x { TakeKeeps(s.chans[x]); }
  }

  lemma OffersCarryOver(s: State, s': State, x: SubId)
    requires x in s.chans && x in s'.chans && OffersOk(s, x)
    requires Kept(s'.chans[x]) && s'.chans[x].offers == s.chans[x].offers && Sender(s', x) == Sender(s, x)
    requires forall t :: HandedTo(s', t, x) <==> HandedTo(s, t, x)
    requires forall t | HandedTo(s, t, x) :: HandedTo(s', t, x) && EventOf(s', t) == EventOf(s, t)
    ensures OffersOk(s', x)
  {
  }

  lemma OtherOffersStep(s: State, a: Action, x: SubId)
    requires Inv(s) && Enabled(s, a) && x in Apply(s, a).chans && !(a.MakeOffer? && a.x == x)
    ensures OffersOk(Apply(s, a), x)
  {
    var s' := Apply(s, a);
    NoPanicStep(s, a);
    forall t
      ensures HandedTo(s', t, x) <==> HandedTo(s, t, x)
      ensures HandedTo(s, t, x) ==> EventOf(s', t) == EventOf(s, t)
    {
      HandedStep(s, s', a, t, x);
    }
    if x in s.chans {
      assert OffersOk(s, x);
      OffersStay(s, s', a, x);
      OffersCarryOver(s, s', x);
    } else {
      forall t | t in s.threads
        ensures !HandedTo(s, t, x)
      {
        assert TargetOk(s, t, x);
      }
    }
  }

  function Owed(s: State, a: Action): int
    requires Enabled(s, a)
  {
    match a
    case MakeOffer(_, x) => if x in s.chans && |s.chans[x].queue| >= BUFFER then 1 else 0
    case Count(_) => -1
    case _ => 0
  }

  lemma OwesStep(s: State, s': State, a: Action, t: ThreadId)
    requires Enabled(s, a) && !a.MakeOffer? && s' == Apply(s, a) && (t in s.threads ==> ThreadOk(s, t))
    ensures t in Owing(s') <==> t in Owing(s) && !(a.Count? && a.t == t)
  {
  }

  lemma OwesOffer(s: State, s': State, a: Action, t: ThreadId)
    requires Enabled(s, a) && a.MakeOffer? && s' == Apply(s, a) && !s'.panicked
    ensures t in Owing(s') <==> t in Owing(s) || (a.t == t && Owed(s, a) == 1)
  {
  }

  lemma MoverOwes(s: State, a: Action)
    requires Enabled(s, a)
    ensures (a.Count? ==> a.t in Owing(s)) && (a.MakeOffer? ==> a.t !in Owing(s))
  {
  }

  lemma OwingStep(s: State, a: Action)
    requires Shape(s) && Enabled(s, a)
    ensures |Owing(Apply(s, a))| == |Owing(s)| + Owed(s, a)
  {
    var s' := Apply(s, a);
    NoPanicStep(s, a);
    var expected :=
      if a.Count? then Owing(s) - {a.t}
      else if a.MakeOffer? && Owed(s, a) == 1 then Owing(s) + {a.t}
      else Owing(s);
    forall t
      ensures t in Owing(s') <==> t in expected
    {
      if a.MakeOffer? { OwesOffer(s, s', a, t); } else { OwesStep(s, s', a, t); }
    }
    assert Owing(s') == expected;
    MoverOwes(s, a);
  }

  lemma OfferLoses(s: State, s': State, a: Action)
    requires Enabled(s, a) && a.MakeOffer? && s' == Apply(s, a) && a.x in s.chans && !s.chans[a.x].closed
             && Kept(s.chans[a.x])
    ensures Losses(s'.chans) == Losses(s.chans) + Owed(s, a)
  {
    SendKeeps(s.chans[a.x], s.threads[a.t].event);
    LossesChange(s.chans, a.x, Send(s.chans[a.x], s.threads[a.t].event));
  }

  lemma BooksStep(s: State, a: Action)
    requires Inv(s) && Enabled(s, a)
    ensures Books(Apply(s, a))
  {
    NoPanicStep(s, a);
    OwingStep(s, a);
    match a
    case Subscribe(_, x, user) => LossesChange(s.chans, x, Fresh(user));
    case Close(t) => LossesChange(s.chans, s.threads[t].x, s.chans[s.threads[t].x].(closed := true));
    case MakeOffer(t, x) =>
      assert OffersOk(s, x);
      OfferLoses(s, Apply(s, a), a);
    case Receive(x) => LossesChange(s.chans, x, Take(s.chans[x]));
    case _ =>
  }

  lemma InvStep(s: State, a: Action)
    requires Inv(s) && Enabled(s, a)
    ensures Inv(Apply(s, a))
  {
    ShapeStep(s, a);
    TargetsStep(s, a);
    BooksStep(s, a);
    forall x | x in Apply(s, a).chans
      ensures OffersOk(Apply(s, a), x)
    {
      if a.MakeOffer? && a.x == x { OfferStep(s, a); } else { OtherOffersStep(s, a, x); }
    }
  }
}
