/** The broker that hands every recorded event to the live streams of its user and never waits for one. */
module Broker {
  import opened Options
  import opened Sums
  import opened Channels

  /** Everyone in `targets` is offered the event once, nobody else notices. */
  function Offered(chans: Chans, targets: set<SubId>, e: Event): Chans {
    map x | x in chans :: if x in targets then Send(chans[x], e) else chans[x]
  }

  function FullOf(chans: Chans, targets: set<SubId>): set<SubId> {
    set x | x in targets && x in chans && |chans[x].queue| == BUFFER
  }

  ghost predicate Split<T(!new)>(all: set<T>, done: set<T>, rest: set<T>) {
    forall x :: (x in all <==> x in done || x in rest) && !(x in done && x in rest)
  }

  lemma SplitMoves<T(!new)>(all: set<T>, done: set<T>, rest: set<T>, x: T)
    requires Split(all, done, rest) && x in rest
    ensures Split(all, done + {x}, rest - {x}) && x !in done
  {
  }

  lemma SplitEnds<T(!new)>(all: set<T>, done: set<T>, rest: set<T>)
    requires Split(all, done, rest) && rest == {}
    ensures done == all
  {
  }

  lemma OfferedTakes(before: Chans, done: set<SubId>, x: SubId, e: Event)
    requires x in before && x !in done
    ensures Offered(before, done, e)[x] == before[x]
    ensures Offered(before, done + {x}, e) == Offered(before, done, e)[x := Send(before[x], e)]
    ensures |FullOf(before, done + {x})| == |FullOf(before, done)| + if |before[x].queue| == BUFFER then 1 else 0
  {
    assert FullOf(before, done + {x}) == FullOf(before, done) + if |before[x].queue| == BUFFER then {x} else {};
  }

  /** One more offer keeps the books: the counter grows exactly if the event is lost. */
  lemma OfferKeepsBooks(subs: Registry, chans: Chans, x: SubId, e: Event)
    requires Consistent(subs, chans) && x in chans
    ensures Consistent(subs, chans[x := Send(chans[x], e)])
    ensures Losses(chans[x := Send(chans[x], e)]) == Losses(chans) + if |chans[x].queue| == BUFFER then 1 else 0
  {
    SendKeeps(chans[x], e);
    LossesChange(chans, x, Send(chans[x], e));
    ChangingIsConsistent(subs, chans, x, Send(chans[x], e));
  }

  class Broker {
    var subs: Registry
    var chans: Chans
    var dropped: nat

    /** The counter is the number of events lost by all subscribers. */
    ghost predicate Valid()
      reads this
    {
      Consistent(subs, chans) && dropped == Losses(chans)
    }

    constructor ()
      ensures Valid() && subs == map[] && chans == map[] && dropped == 0
    {
      subs, chans, dropped := map[], map[], 0;
    }

    method Subscribe(user: UserId, x: SubId)
      requires Valid() && x !in chans
      modifies this
      ensures Valid() && dropped == old(dropped)
      ensures chans == old(chans)[x := Fresh(user)] && subs == Added(old(subs), user, x)
    {
      LossesChange(chans, x, Fresh(user));
      AddingIsConsistent(subs, chans, user, x);
      EditedInSteps(subs, user, x);
      chans := chans[x := Fresh(user)];
      if user !in subs {
        subs := subs[user := {}];
      }
      subs := subs[user := subs[user] + {x}];
    }

    /** What the closure handed out by `Subscribe` does; only its first call does anything. */
    method Cancel(user: UserId, x: SubId)
      requires Valid() && x in chans && chans[x].user == user
      modifies this
      ensures Valid() && dropped == old(dropped)
      ensures chans == old(chans)[x := old(chans)[x].(closed := true)]
      ensures subs == if old(chans)[x].closed then old(subs) else Without(old(subs), user, x)
    {
      if !chans[x].closed {
        LossesChange(chans, x, chans[x].(closed := true));
        RemovingIsConsistent(subs, chans, x);
        assert Registered(subs, chans, x);
        EditedInSteps(subs, user, x);
        subs := subs[user := subs[user] - {x}];
        if subs[user] == {} {
          subs := subs - {user};
        }
        chans := chans[x := chans[x].(closed := true)];
      }
    }

    /** The select statement of a publication: a full buffer costs the subscriber this event. */
    method Hand(x: SubId, e: Event)
      requires Valid() && x in chans
      modifies this`chans, this`dropped
      ensures Valid() && chans == old(chans)[x := Send(old(chans)[x], e)]
      ensures dropped == old(dropped) + if |old(chans)[x].queue| == BUFFER then 1 else 0
    {
      OfferKeepsBooks(subs, chans, x, e);
      if |chans[x].queue| == BUFFER {
        dropped := dropped + 1;
      }
      chans := chans[x := Send(chans[x], e)];
    }

    /**
     Every subscriber of the event's user is offered it once and takes it exactly if it has room;
     the others keep their channels, and the losses are counted.
     */
    method Publish(e: Event)
      requires Valid()
      modifies this`chans, this`dropped
      ensures Valid() && chans == Offered(old(chans), Members(subs, e.user), e)
      ensures dropped == old(dropped) + |FullOf(old(chans), Members(subs, e.user))|
    {
      var rest := Members(subs, e.user);
      ghost var targets, done := rest, {};
      while rest != {}
        invariant Split(targets, done, rest) && Valid()
        invariant chans == Offered(old(chans), done, e) && dropped == old(dropped) + |FullOf(old(chans), done)|
        decreases |rest|
      {
        ghost var _ := Pick(rest);
        var x :| x in rest;
        SplitMoves(targets, done, rest, x);
        OfferedTakes(old(chans), done, x, e);
        Hand(x, e);
        rest, done := rest - {x}, done + {x};
      }
      SplitEnds(targets, done, rest);
    }

    /** The reader's side: an event, nothing yet, or the end once a closed channel is drained. */
    method Receive(x: SubId) returns (event: Option<Event>, open: bool)
      requires Valid() && x in chans
      modifies this`chans
      ensures Valid()
      ensures event.Some? <==> old(chans)[x].queue != []
      ensures event.Some? ==>
                event.value == old(chans)[x].queue[0] && chans == old(chans)[x := Take(old(chans)[x])] && open
      ensures event.None? ==> chans == old(chans) && open == !chans[x].closed
    {
      if |chans[x].queue| > 0 {
        TakeKeeps(chans[x]);
        LossesChange(chans, x, Take(chans[x]));
        ChangingIsConsistent(subs, chans, x, Take(chans[x]));
        event, open := Some(chans[x].queue[0]), true;
        chans := chans[x := Take(chans[x])];
      } else {
        event, open := None, !chans[x].closed;
      }
    }

    method Subscribers(user: UserId) returns (n: nat)
      requires Valid()
      ensures n == |set x | x in chans && chans[x].user == user && !chans[x].closed|
    {
      MembersAreOpen(subs, chans, user);
      n := if user in subs then |subs[user]| else 0;
    }
  }
}
