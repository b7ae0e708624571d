/** Bounded channels of events with their history, and the map from users to their open channels. */
module Channels {
  import opened Sums

  const BUFFER := 32

  type SubId = int

  type UserId = int

  datatype Event = Event(id: int, user: UserId)

  /** One attempt to hand an event to a subscriber. */
  datatype Offer = Offer(event: Event, taken: bool)

  /** The channel of one subscriber; `offers` and `received` are its history. */
  datatype Chan = Chan(user: UserId, queue: seq<Event>, closed: bool, offers: seq<Offer>, received: seq<Event>)

  type Chans = map<SubId, Chan>

  function Fresh(user: UserId): Chan {
    Chan(user, [], false, [], [])
  }

  /** The non-blocking send: queued if there is room, dropped otherwise. */
  function Send(c: Chan, e: Event): Chan {
    var taken := |c.queue| < BUFFER;
    c.(queue := if taken then c.queue + [e] else c.queue, offers := c.offers + [Offer(e, taken)])
  }

  /** Buffered events come out in order, also after the channel was closed. */
  function Take(c: Chan): Chan
    requires c.queue != []
  {
    c.(queue := c.queue[1..], received := c.received + [c.queue[0]])
  }

  function TakenOf(offers: seq<Offer>): seq<Event> {
    if offers == [] then []
    else
      var n := |offers| - 1;
      TakenOf(offers[..n]) + if offers[n].taken then [offers[n].event] else []
  }

  function Refused(offers: seq<Offer>): nat {
    if offers == [] then 0
    else
      var n := |offers| - 1;
      Refused(offers[..n]) + if offers[n].taken then 0 else 1
  }

  /** What was taken was received already or waits in the queue, which never exceeds its capacity. */
  predicate Kept(c: Chan) {
    |c.queue| <= BUFFER && c.received + c.queue == TakenOf(c.offers)
  }

  /** An offer is queued exactly if fewer than 32 events wait; otherwise it is lost, and nothing else changes. */
  lemma TakesExactlyWithRoom(c: Chan, e: Event)
    ensures var c' := Send(c, e);
            && (|c.queue| < 32 ==> c'.queue == c.queue + [e] && c'.offers == c.offers + [Offer(e, true)])
            && (|c.queue| >= 32 ==> c'.queue == c.queue && c'.offers == c.offers + [Offer(e, false)])
            && c'.user == c.user && c'.closed == c.closed && c'.received == c.received
  {
  }

  lemma SendKeeps(c: Chan, e: Event)
    requires Kept(c)
    ensures Kept(Send(c, e))
    ensures Refused(Send(c, e).offers) == Refused(c.offers) + if |c.queue| == BUFFER then 1 else 0
  {
    assert Send(c, e).offers[..|c.offers|] == c.offers;
  }

  lemma TakeKeeps(c: Chan)
    requires Kept(c) && c.queue != []
    ensures Kept(Take(c))
  {
    assert c.received + c.queue == c.received + [c.queue[0]] + c.queue[1..];
  }

  /** The places of some events among the offers, in order. */
  ghost predicate Picks(offers: seq<Offer>, places: seq<nat>, events: seq<Event>) {
    && |places| == |events|
    && (forall k | 0 <= k < |places| :: places[k] < |offers| && offers[places[k]].event == events[k])
    && (forall k, l | 0 <= k < l < |places| :: places[k] < places[l])
  }

  lemma {:induction false} TakenIsASubsequence(offers: seq<Offer>) returns (places: seq<nat>)
    ensures Picks(offers, places, TakenOf(offers)) && |TakenOf(offers)| + Refused(offers) == |offers|
  {
    if offers == [] {
      places := [];
    } else {
      var n := |offers| - 1;
      places := TakenIsASubsequence(offers[..n]);
      if offers[n].taken { places := places + [n]; }
    }
  }

  /**
   The conservation law of a channel: offered is received plus buffered plus lost, and received
   followed by buffered is a subsequence of the offers in the order in which they were made.
   */
  lemma OffersAreConserved(c: Chan) returns (places: seq<nat>)
    requires Kept(c)
    ensures |c.offers| == |c.received| + |c.queue| + Refused(c.offers) && |c.queue| <= BUFFER
    ensures Picks(c.offers, places, c.received + c.queue)
  {
    places := TakenIsASubsequence(c.offers);
  }

  // ---------------------------------------------------------------- all losses

  ghost function LossOf(chans: Chans): SubId -> int {
    x => if x in chans then Refused(chans[x].offers) else 0
  }

  /** Over all subscribers, also those that have left. */
  ghost function Losses(chans: Chans): int {
    Sum(chans.Keys, LossOf(chans))
  }

  lemma LossesChange(chans: Chans, x: SubId, c: Chan)
    ensures Losses(chans[x := c]) == Losses(chans) + Refused(c.offers) - LossOf(chans)(x)
  {
    var after := chans[x := c];
    var others := chans.Keys - {x};
    SumTakes(after.Keys, LossOf(after), x);
    assert after.Keys - {x} == others;
    SumAgrees(others, LossOf(after), LossOf(chans));
    if x in chans {
      SumTakes(chans.Keys, LossOf(chans), x);
    } else {
      assert others == chans.Keys;
    }
  }

  // ---------------------------------------------------------------- the map of subscribers

  type Registry = map<UserId, set<SubId>>

  function Members(subs: Registry, user: UserId): set<SubId> {
    if user in subs then subs[user] else {}
  }

  function Added(subs: Registry, user: UserId, x: SubId): Registry {
    subs[user := Members(subs, user) + {x}]
  }

  /** The set of a user goes with its last subscriber. */
  function Without(subs: Registry, user: UserId, x: SubId): Registry {
    if Members(subs, user) - {x} == {} then subs - {user} else subs[user := Members(subs, user) - {x}]
  }

  /** The two statements that add a subscriber, and the two that remove one. */
  lemma EditedInSteps(subs: Registry, user: UserId, x: SubId)
    ensures var made := if user in subs then subs else subs[user := {}];
            made[user := made[user] + {x}] == Added(subs, user, x)
    ensures user in subs ==> var cut := subs[user := subs[user] - {x}];
                             (if cut[user] == {} then cut - {user} else cut) == Without(subs, user, x)
  {
  }

  lemma MembersChange(subs: Registry, user: UserId, x: SubId, u: UserId)
    ensures Members(Added(subs, user, x), u) == Members(subs, u) + if u == user then {x} else {}
    ensures Members(Without(subs, user, x), u) == Members(subs, u) - if u == user then {x} else {}
  {
  }

  ghost predicate NoEmptySet(subs: Registry) {
    forall user | user in subs :: subs[user] != {}
  }

  /** Every registered subscriber stands under its own user. */
  ghost predicate Sorted(subs: Registry, chans: Chans) {
    forall user | user in subs :: forall x | x in subs[user] :: x in chans && chans[x].user == user
  }

  predicate Registered(subs: Registry, chans: Chans, x: SubId)
    requires x in chans
  {
    x in Members(subs, chans[x].user)
  }

  /** No empty set stays in the map, and a subscriber is registered, under its user, until its channel is closed. */
  ghost predicate Consistent(subs: Registry, chans: Chans) {
    && NoEmptySet(subs) && Sorted(subs, chans)
    && forall x | x in chans :: Kept(chans[x]) && (Registered(subs, chans, x) <==> !chans[x].closed)
  }

  lemma AddingIsConsistent(subs: Registry, chans: Chans, user: UserId, x: SubId)
    requires Consistent(subs, chans) && x !in chans
    ensures Consistent(Added(subs, user, x), chans[x := Fresh(user)])
  {
    var subs', chans' := Added(subs, user, x), chans[x := Fresh(user)];
    forall y | y in chans'
      ensures Kept(chans'[y]) && (Registered(subs', chans', y) <==> !chans'[y].closed)
    {
      MembersChange(subs, user, x, chans'[y].user);
    }
  }

  lemma RemovingIsConsistent(subs: Registry, chans: Chans, x: SubId)
    requires Consistent(subs, chans) && x in chans
    ensures Consistent(Without(subs, chans[x].user, x), chans[x := chans[x].(closed := true)])
  {
    var subs', chans' := Without(subs, chans[x].user, x), chans[x := chans[x].(closed := true)];
    forall y | y in chans'
      ensures Kept(chans'[y]) && (Registered(subs', chans', y) <==> !chans'[y].closed)
    {
      MembersChange(subs, chans[x].user, x, chans'[y].user);
      assert Registered(subs, chans, y) <==> !chans[y].closed;
    }
  }

  lemma ChangingIsConsistent(subs: Registry, chans: Chans, x: SubId, c: Chan)
    requires Consistent(subs, chans) && x in chans && Kept(c) && c.user == chans[x].user && c.closed == chans[x].closed
    ensures Consistent(subs, chans[x := c])
  {
    forall y | y in chans[x := c]
      ensures Registered(subs, chans[x := c], y) <==> Registered(subs, chans, y)
    {
    }
  }

  /** The registered subscribers of a user are its open channels. */
  lemma MembersAreOpen(subs: Registry, chans: Chans, user: UserId)
    requires Consistent(subs, chans)
    ensures Members(subs, user) == set x | x in chans && chans[x].user == user && !chans[x].closed
  {
    forall x
      ensures x in Members(subs, user) <==> x in chans && chans[x].user == user && !chans[x].closed
    {
      if x in chans { assert Registered(subs, chans, x) <==> !chans[x].closed; }
    }
  }
}
