/**
 What holds over every run of the broker: no panic, conservation, an exact map, whom a publication
 reaches, what a cancellation leaves, and that nobody is stuck.
 */
module BrokerRuns {
  import opened Options
  import opened Sums
  import opened Channels
  import opened BrokerProtocol

  datatype Run = Run(states: seq<State>, actions: seq<Action>)

  const EMPTY := State(map[], map[], 0, None, {}, map[], map[], map[], map[], false)

  ghost predicate Valid(run: Run) {
    && |run.states| == |run.actions| + 1 && run.states[0] == EMPTY
    && forall i {:trigger run.actions[i]} | 0 <= i < |run.actions| ::
         Goes(run.states[i], run.actions[i], run.states[i + 1])
  }

  predicate Goes(s: State, a: Action, s': State) {
    Enabled(s, a) && s' == Apply(s, a)
  }

  lemma {:induction false} InvAlways(run: Run, i: nat)
    requires Valid(run) && i < |run.states|
    ensures Inv(run.states[i])
  {
    if i == 0 {
      EmptyIsFine();
      assert run.states[i] == EMPTY;
    } else {
      InvAlways(run, i - 1);
      InvStepAt(run, i - 1);
    }
  }

  lemma InvStepAt(run: Run, i: nat)
    requires Valid(run) && i + 1 < |run.states| && Inv(run.states[i])
    ensures Inv(run.states[i + 1])
  {
    InvStep(run.states[i], run.actions[i]);
  }

  lemma EmptyIsFine()
    ensures Inv(EMPTY)
  {
    SumOfZeros(EMPTY.chans.Keys, LossOf(EMPTY.chans));
    assert Owing(EMPTY) == {};
  }

  /** No run sends on a closed channel or closes one twice, however it interleaves. */
  lemma NeverPanics(run: Run, i: nat)
    requires Valid(run) && i < |run.states|
    ensures !run.states[i].panicked
  {
    InvAlways(run, i);
  }

  lemma ClosedStays(s: State, s': State, a: Action, x: SubId)
    requires Enabled(s, a) && s' == Apply(s, a) && x in s.chans && s.chans[x].closed
    ensures x in s'.chans && s'.chans[x].closed && s'.chans[x].offers == s.chans[x].offers
  {
  }

  /** Once closed, a channel is offered nothing more. */
  lemma {:induction false} NothingIsOfferedAfterClose(run: Run, i: nat, j: nat, x: SubId)
    requires Valid(run) && i <= j < |run.states| && x in run.states[i].chans && run.states[i].chans[x].closed
    ensures x in run.states[j].chans && run.states[j].chans[x].closed
    ensures run.states[j].chans[x].offers == run.states[i].chans[x].offers
  {
    if i < j {
      NothingIsOfferedAfterClose(run, i, j - 1, x);
      ClosedStaysAt(run, j - 1, x);
    }
  }

  lemma ClosedStaysAt(run: Run, i: nat, x: SubId)
    requires Valid(run) && i + 1 < |run.states| && x in run.states[i].chans && run.states[i].chans[x].closed
    ensures x in run.states[i + 1].chans && run.states[i + 1].chans[x].closed
    ensures run.states[i + 1].chans[x].offers == run.states[i].chans[x].offers
  {
    ClosedStays(run.states[i], run.states[i + 1], run.actions[i], x);
  }

  /**
   For every subscriber at every moment: offered is received plus buffered plus lost, the queue is
   within its bound, and received followed by buffered is a subsequence of the offers.
   */
  lemma EveryChannelIsConserved(run: Run, i: nat, x: SubId) returns (places: seq<nat>)
    requires Valid(run) && i < |run.states| && x in run.states[i].chans
    ensures var c := run.states[i].chans[x];
            && |c.offers| == |c.received| + |c.queue| + Refused(c.offers) && |c.queue| <= 32
            && Picks(c.offers, places, c.received + c.queue)
  {
    InvAlways(run, i);
    assert OffersOk(run.states[i], x);
    places := OffersAreConserved(run.states[i].chans[x]);
  }

  /**
   The counter trails the losses of all subscribers by the publications that have just met a full
   buffer, and equals them when no publication is at that point.
   */
  lemma DroppedIsTheTotal(run: Run, i: nat)
    requires Valid(run) && i < |run.states|
    ensures var s := run.states[i];
            && s.dropped + |Owing(s)| == Losses(s.chans)
            && (s.dropped == Losses(s.chans)
                <==> forall t | t in s.threads && s.threads[t].Publishing? :: !s.threads[t].owes)
  {
    InvAlways(run, i);
    var s := run.states[i];
    if forall t | t in s.threads && s.threads[t].Publishing? :: !s.threads[t].owes {
      assert Owing(s) == {};
    } else {
      var t :| t in s.threads && s.threads[t].Publishing? && s.threads[t].owes;
      assert t in Owing(s);
    }
  }

  /**
   Outside the critical sections no user has an empty set, and the sets hold exactly the
   subscribers between their subscription and their cancellation.
   */
  lemma TheMapIsExact(run: Run, i: nat, user: UserId, x: SubId)
    requires Valid(run) && i < |run.states| && run.states[i].writer.None?
    ensures var s := run.states[i];
            && NoEmptySet(s.subs)
            && (x in Members(s.subs, user) <==>
                  && x in s.chans && s.chans[x].user == user
                  && x in s.opens && s.opens[x] in s.threads && s.threads[s.opens[x]].Served?
                  && (x in s.cancels ==>
                        s.cancels[x] in s.threads && s.threads[s.cancels[x]] == Cancelling(x, Waiting)))
  {
    InvAlways(run, i);
    var s := run.states[i];
    if x in s.chans {
      assert SubOk(s, x);
      if x in s.cancels { assert ThreadOk(s, s.cancels[x]); }
      assert ThreadOk(s, s.opens[x]);
    }
  }

  /**
   A finished publication has offered its event once to every subscriber it found registered, all
   of its own user, and to nobody else.
   */
  lemma PublishReachesExactlyItsTargets(run: Run, i: nat, t: ThreadId, x: SubId)
    requires Valid(run) && i < |run.states| && t in run.states[i].threads && run.states[i].threads[t].Published?
    ensures var s := run.states[i]; var th := s.threads[t];
            && (x in th.targets ==> x in s.chans && s.chans[x].user == th.event.user)
            && (x in s.chans ==>
                  && (x in th.targets <==> exists k: nat :: OffersAt(s, t, x, k))
                  && (forall k: nat, l: nat | OffersAt(s, t, x, k) && OffersAt(s, t, x, l) :: k == l)
                  && (forall k: nat | OffersAt(s, t, x, k) && k < |s.chans[x].offers| ::
                        s.chans[x].offers[k].event == th.event))
  {
    InvAlways(run, i);
    var s := run.states[i];
    assert TargetOk(s, t, x);
    if x in s.chans {
      assert OffersOk(s, x);
      if x in s.threads[t].targets {
        assert HandedTo(s, t, x);
        var k :| 0 <= k < |Sender(s, x)| && Sender(s, x)[k] == t;
        assert OffersAt(s, t, x, k);
      }
    }
  }

  predicate OffersAt(s: State, t: ThreadId, x: SubId, k: nat) {
    k < |Sender(s, x)| && Sender(s, x)[k] == t
  }

  // ---------------------------------------------------------------- what a cancellation leaves

  /** The channel has a first canceller: this thread, or one that has done its work. */
  ghost predicate CancelledBy(s: State, x: SubId, t: ThreadId) {
    && x in s.chans && x in s.cancels
    && (s.cancels[x] == t || (s.cancels[x] in s.threads && s.threads[s.cancels[x]].Served?))
  }

  lemma CancelledStays(s: State, s': State, a: Action, x: SubId, t: ThreadId)
    requires Enabled(s, a) && s' == Apply(s, a) && CancelledBy(s, x, t)
    ensures CancelledBy(s', x, t)
  {
    FirstCancellerStays(s, s', a, x);
    if s.cancels[x] in s.threads { ServedStays(s, s', a, s.cancels[x]); }
  }

  lemma FirstCancellerStays(s: State, s': State, a: Action, x: SubId)
    requires Enabled(s, a) && s' == Apply(s, a) && x in s.chans && x in s.cancels
    ensures x in s'.chans && x in s'.cancels && s'.cancels[x] == s.cancels[x]
  {
  }

  lemma ServedStays(s: State, s': State, a: Action, t: ThreadId)
    requires Enabled(s, a) && s' == Apply(s, a) && t in s.threads
    ensures t in s'.threads && (s.threads[t].Served? ==> s'.threads[t].Served?)
  {
  }

  lemma {:induction false} CancelledAt(run: Run, i: nat, j: nat, x: SubId, t: ThreadId)
    requires Valid(run) && i < j < |run.states| && run.actions[i] == Cancel(t, x)
    ensures CancelledBy(run.states[j], x, t)
    decreases j
  {
    if j == i + 1 {
      assert run.states[j] == Apply(run.states[i], run.actions[i]);
    } else {
      CancelledAt(run, i, j - 1, x, t);
      CancelledStays(run.states[j - 1], run.states[j], run.actions[j - 1], x, t);
    }
  }

  /** Whenever a call of `Cancel` has returned, its channel is closed and in no set, for good. */
  lemma CancelCloses(run: Run, i: nat, j: nat, x: SubId, t: ThreadId)
    requires Valid(run) && i < j < |run.states| && run.actions[i] == Cancel(t, x)
    requires t in run.states[j].threads && run.states[j].threads[t].Served?
    ensures var s := run.states[j];
            x in s.chans && s.chans[x].closed && forall user :: x !in Members(s.subs, user)
  {
    CancelledAt(run, i, j, x, t);
    InvAlways(run, j);
    var s := run.states[j];
    assert SubOk(s, x);
    forall user
      ensures x !in Members(s.subs, user)
    {
      MembersAreRegistered(s.subs, s.chans, x, user);
    }
  }

  lemma MembersAreRegistered(subs: Registry, chans: Chans, x: SubId, user: UserId)
    requires Sorted(subs, chans)
    ensures x in Members(subs, user) ==> x in chans && Registered(subs, chans, x)
  {
  }

  // ---------------------------------------------------------------- whom a publication finds

  ghost predicate EntersAt(run: Run, k: nat, t: ThreadId, event: Event, targets: set<SubId>) {
    && k < |run.actions| && k < |run.states| && run.actions[k] == Enter(t)
    && targets == Members(run.states[k].subs, event.user)
  }

  /** The publication of this event has taken the read lock, and found these subscribers. */
  ghost predicate Entered(run: Run, j: nat, t: ThreadId, event: Event, targets: set<SubId>) {
    && (exists k: nat :: k < j && k < |run.actions| && run.actions[k] == Publish(t, event))
    && exists k: nat :: k < j && EntersAt(run, k, t, event, targets)
  }

  lemma EnteredStays(run: Run, j: nat, t: ThreadId, event: Event, targets: set<SubId>)
    requires Entered(run, j, t, event, targets)
    ensures Entered(run, j + 1, t, event, targets)
  {
    var h: nat :| h < j && h < |run.actions| && run.actions[h] == Publish(t, event);
    var k: nat :| k < j && EntersAt(run, k, t, event, targets);
  }

  ghost predicate EnteredIfLocked(run: Run, j: nat, t: ThreadId)
    requires j < |run.states|
  {
    t in run.states[j].threads ==>
      match run.states[j].threads[t]
      case Publishing(event, locked, _, targets, _) =>
        if locked then Entered(run, j, t, event, targets)
        else exists k: nat :: k < j && k < |run.actions| && run.actions[k] == Publish(t, event)
      case Published(event, targets) => Entered(run, j, t, event, targets)
      case _ => true
  }

  lemma {:induction false} PublicationsEnter(run: Run, j: nat, t: ThreadId)
    requires Valid(run) && j < |run.states|
    ensures EnteredIfLocked(run, j, t)
  {
    if j > 0 {
      var i := j - 1;
      var s, a := run.states[i], run.actions[i];
      PublicationsEnter(run, i, t);
      InvAlways(run, i);
      assert run.states[j] == Apply(s, a);
      if t in s.threads {
        assert ThreadOk(s, t);
        PublicationStep(run, i, t);
      }
    }
  }

  lemma PublicationStep(run: Run, i: nat, t: ThreadId)
    requires i + 1 < |run.states| && i < |run.actions| && t in run.states[i].threads && EnteredIfLocked(run, i, t)
    requires Enabled(run.states[i], run.actions[i]) && run.states[i + 1] == Apply(run.states[i], run.actions[i])
    requires ThreadOk(run.states[i], t)
    ensures EnteredIfLocked(run, i + 1, t)
  {
    var s, a, th := run.states[i], run.actions[i], run.states[i].threads[t];
    ThreadMoves(s, run.states[i + 1], a, t);
    if (th.Publishing? && th.locked) || th.Published? { EnteredStays(run, i, t, th.event, th.targets); }
    if a == Enter(t) { assert EntersAt(run, i, t, th.event, Members(s.subs, th.event.user)); }
  }

  /** A publication stays as it is, enters with the members it finds, or leaves with its targets. */
  lemma ThreadMoves(s: State, s': State, a: Action, t: ThreadId)
    requires Enabled(s, a) && s' == Apply(s, a) && t in s.threads && ThreadOk(s, t)
    ensures t in s'.threads
    ensures var th, th' := s.threads[t], s'.threads[t];
            (th'.Publishing? || th'.Published?) ==>
              && (th.Publishing? || th.Published?) && th'.event == th.event
              && (th.Published? ==> th' == th)
              && (if a == Enter(t) then th'.Publishing? && th'.targets == Members(s.subs, th.event.user)
                  else th'.targets == th.targets && (th.Publishing? && th'.Publishing? ==> th'.locked == th.locked)
                       && (th.Publishing? && th'.Published? ==> th.locked))
  {
  }

  /** The subscribers a finished publication offered its event to are those registered when it took the read lock. */
  lemma TargetsWereRegistered(run: Run, j: nat, t: ThreadId)
    requires Valid(run) && j < |run.states| && t in run.states[j].threads && run.states[j].threads[t].Published?
    ensures var th := run.states[j].threads[t];
            && (exists k: nat :: k < j && run.actions[k] == Publish(t, th.event))
            && exists k: nat :: k < j && run.actions[k] == Enter(t)
                             && th.targets == Members(run.states[k].subs, th.event.user)
  {
    PublicationsEnter(run, j, t);
    var th := run.states[j].threads[t];
    var k: nat :| k < j && EntersAt(run, k, t, th.event, th.targets);
    assert run.actions[k] == Enter(t);
  }

  // ---------------------------------------------------------------- no deadlock

  predicate Done(th: Thread) { th.Served? || th.Published? }

  /** A statement of a call already under way. */
  predicate Proceeds(a: Action) {
    !Begins(a) && !a.Receive?
  }

  ghost predicate CanProceed(s: State) {
    exists a :: Proceeds(a) && Enabled(s, a)
  }

  lemma LockHolderMoves(s: State, t: ThreadId)
    requires Shape(s) && t in s.threads
    requires Inside(s.threads[t]) || (s.threads[t].Publishing? && s.threads[t].locked)
    ensures CanProceed(s)
  {
    var th := s.threads[t];
    assert ThreadOk(s, t);
    if th.Publishing? {
      if th.owes { assert Enabled(s, Count(t)); }
      else if th.rest == {} { assert Enabled(s, Leave(t)); }
      else { assert Enabled(s, MakeOffer(t, Pick(th.rest))); }
    } else {
      assert Enabled(s, if th.stage.Edited? then Release(t) else Edit(t));
    }
  }

  /** While a call is unfinished, some call can take its next statement, whatever holds the lock. */
  lemma NoDeadlock(run: Run, i: nat, t: ThreadId)
    requires Valid(run) && i < |run.states| && t in run.states[i].threads && !Done(run.states[i].threads[t])
    ensures CanProceed(run.states[i])
  {
    InvAlways(run, i);
    var s := run.states[i];
    var th := s.threads[t];
    assert ThreadOk(s, t);
    if s.writer.Some? { LockHolderMoves(s, s.writer.value); }
    else if s.readers != {} { LockHolderMoves(s, Pick(s.readers)); }
    else if th.Publishing? { assert Enabled(s, Enter(t)); }
    else if th.stage.Released? { assert Enabled(s, Close(t)); }
    else { assert Enabled(s, Acquire(t)); }
  }
}
