/** The listing service: request checks, page size, the cursor as a client sees it. */
module EventFeed {
  import opened Options
  import opened Cursor
  import opened Pagination

  const DEFAULT_PAGE_SIZE := 50
  const MAX_PAGE_SIZE := 200

  datatype Request = Request(user: int, types: seq<string>, from: Option<int>, to: Option<int>, limit: int,
                             cursor: Text)

  datatype Response = Listed(items: seq<int>, nextCursor: Text) | InvalidTimeRange | InvalidCursor

  function PageSize(limit: int): (size: nat)
    ensures 0 < size <= MAX_PAGE_SIZE && (0 < limit <= MAX_PAGE_SIZE ==> size == limit)
    ensures (limit <= 0 ==> size == 50) && (limit > 200 ==> size == 200)
  {
    if limit <= 0 then DEFAULT_PAGE_SIZE else if limit > MAX_PAGE_SIZE then MAX_PAGE_SIZE else limit
  }

  /** The types asked for, normalized, the blank ones dropped; none left means no filter on type. */
  function KindsOf(types: seq<string>, normalize: string -> string): Option<set<string>> {
    var kinds := set t | t in types && normalize(t) != "" :: normalize(t);
    if kinds == {} then None else Some(kinds)
  }

  function FilterOf(r: Request, normalize: string -> string): Filter {
    Filter(r.user, KindsOf(r.types, normalize), r.from, r.to)
  }

  predicate RangeOk(r: Request) {
    r.from.Some? && r.to.Some? ==> r.from.value < r.to.value
  }

  function CursorOf(next: Option<Position>): Text {
    if next.None? then [] else EncodeCursor(next.value.at, next.value.id)
  }

  function ResponseTo(store: Store, r: Request, normalize: string -> string): Response {
    if !RangeOk(r) then InvalidTimeRange
    else
      var f := FilterOf(r, normalize);
      if r.cursor == []
      then var page := PageOf(store, f, None, PageSize(r.limit)); Listed(page.items, CursorOf(page.next))
      else
        var at := DecodeCursor(r.cursor);
        if at.None? then InvalidCursor
        else var page := PageOf(store, f, Some(Position(at.value.0, at.value.1)), PageSize(r.limit));
             Listed(page.items, CursorOf(page.next))
  }

  /** The loop over the types asked for. */
  method Kinds(types: seq<string>, normalize: string -> string) returns (asked: Option<set<string>>)
    ensures asked == KindsOf(types, normalize)
  {
    var kinds: set<string> := {};
    for i := 0 to |types|
      invariant kinds == set t | t in types[..i] && normalize(t) != "" :: normalize(t)
    {
      var t := normalize(types[i]);
      assert types[..i + 1] == types[..i] + [types[i]];
      if t != "" {
        kinds := kinds + {t};
      }
    }
    assert types[..|types|] == types;
    asked := if kinds == {} then None else Some(kinds);
  }

  /** One row more than the page is read, to see whether there is a next page. */
  method ReadPage(store: Store, filter: Filter, before: Option<Position>, limit: nat)
    returns (items: seq<int>, next: Text)
    requires limit > 0
    ensures var page := PageOf(store, filter, before, limit); items == page.items && next == CursorOf(page.next)
  {
    SortedLists(store, Remaining(store, filter, before));
    var rows := Query(store, filter, before, limit + 1);
    items, next := rows, [];
    if |rows| == limit + 1 {
      items := rows[..limit];
      assert items[limit - 1] in Elements(Sorted(store, Remaining(store, filter, before)));
      next := EncodeCursor(store[items[limit - 1]].at, items[limit - 1]);
    }
  }

  method List(store: Store, r: Request, normalize: string -> string) returns (response: Response)
    ensures response == ResponseTo(store, r, normalize)
  {
    var limit := PageSize(r.limit);
    if r.from.Some? && r.to.Some? && !(r.from.value < r.to.value) {
      return InvalidTimeRange;
    }
    var kinds := Kinds(r.types, normalize);
    var filter := Filter(r.user, kinds, r.from, r.to);
    var before := None;
    if r.cursor != [] {
      var at := DecodeCursor(r.cursor);
      if at.None? {
        return InvalidCursor;
      }
      before := Some(Position(at.value.0, at.value.1));
    }
    var items, next := ReadPage(store, filter, before, limit);
    response := Listed(items, next);
  }

  // ---------------------------------------------------------------- cursors name positions

  /** Times fit 64-bit nanoseconds and ids 64 bits, as ingest near the clock and the id column ensure. */
  predicate Fits(store: Store) {
    forall id | id in store :: IsInt64(id) && IsInt64(store[id].at)
  }

  lemma CursorsAreNotEmpty(at: int, id: int)
    ensures EncodeCursor(at, id) != []
  {
    assert FormatInt(Wrap64(at)) + [COLON] + FormatInt(id) != [];
  }

  ghost predicate NamesPosition(cursor: Text, p: Option<Position>) {
    cursor == CursorOf(p) && (p.Some? ==> IsInt64(p.value.at) && IsInt64(p.value.id))
  }

  lemma NextIsInStore(store: Store, f: Filter, p: Option<Position>, limit: nat)
    requires limit > 0 && Fits(store)
    ensures var next := PageOf(store, f, p, limit).next;
            next.Some? ==> IsInt64(next.value.at) && IsInt64(next.value.id)
  {
    SortedLists(store, Remaining(store, f, p));
    var rows := Sorted(store, Remaining(store, f, p));
    if |rows| > limit { assert rows[limit - 1] in Elements(rows); }
  }

  /** A response to a cursor is the page at the position the cursor names, and its own cursor names the next. */
  lemma ResponseIsThePage(store: Store, r: Request, normalize: string -> string, p: Option<Position>)
    requires RangeOk(r) && Fits(store) && NamesPosition(r.cursor, p)
    ensures var page := PageOf(store, FilterOf(r, normalize), p, PageSize(r.limit));
            && ResponseTo(store, r, normalize) == Listed(page.items, CursorOf(page.next))
            && NamesPosition(CursorOf(page.next), page.next)
            && (CursorOf(page.next) == [] <==> page.next.None?)
  {
    var page := PageOf(store, FilterOf(r, normalize), p, PageSize(r.limit));
    NextIsInStore(store, FilterOf(r, normalize), p, PageSize(r.limit));
    if p.Some? {
      CursorsAreNotEmpty(p.value.at, p.value.id);
      CursorIsExactForInt64Times(p.value.at, p.value.id);
    }
    if page.next.Some? { CursorsAreNotEmpty(page.next.value.at, page.next.value.id); }
  }

  // ---------------------------------------------------------------- traversals

  /** A client follows `nextCursor` to the end; each request may ask for its own page size. */
  ghost predicate Followed(visits: seq<Visit>, limits: seq<int>, r: Request, normalize: string -> string)
    decreases |visits|
  {
    && visits != [] && |limits| == |visits| && Fits(visits[0].store) && visits[0].limit == PageSize(limits[0])
    && var response := ResponseTo(visits[0].store, r.(limit := limits[0]), normalize);
       && response.Listed? && visits[0].items == response.items
       && (if response.nextCursor == [] then |visits| == 1
           else |visits| > 1 && Extends(visits[0].store, visits[1].store)
                && Followed(visits[1..], limits[1..], r.(cursor := response.nextCursor), normalize))
  }

  lemma {:induction false} FollowedIsTraversal(visits: seq<Visit>, limits: seq<int>, r: Request,
                                               normalize: string -> string, p: Option<Position>)
    requires Followed(visits, limits, r, normalize) && NamesPosition(r.cursor, p)
    ensures Traversal(visits, FilterOf(r, normalize), p)
    decreases |visits|
  {
    var first := r.(limit := limits[0]);
    assert RangeOk(first) && FilterOf(first, normalize) == FilterOf(r, normalize);
    ResponseIsThePage(visits[0].store, first, normalize, p);
    var page := PageOf(visits[0].store, FilterOf(r, normalize), p, visits[0].limit);
    if page.next.Some? {
      var rest := r.(cursor := CursorOf(page.next));
      assert FilterOf(rest, normalize) == FilterOf(r, normalize);
      FollowedIsTraversal(visits[1..], limits[1..], rest, normalize, page.next);
    }
  }

  /**
   Following the cursors from the first page to the last while events are being inserted lists
   matching events in strictly descending order of time and id, none twice, and every matching
   event that was there at the first page.
   */
  lemma FeedIsCompleteAndOrdered(visits: seq<Visit>, limits: seq<int>, r: Request, normalize: string -> string)
    requires Followed(visits, limits, r, normalize) && r.cursor == []
    ensures var final, list := visits[|visits| - 1].store, Collected(visits);
            && Descending(final, list)
            && (forall i | 0 <= i < |list| :: Matches(final, FilterOf(r, normalize), list[i]))
            && (forall id | id in visits[0].store && Matches(visits[0].store, FilterOf(r, normalize), id) ::
                  id in Elements(list))
  {
    var f := FilterOf(r, normalize);
    FollowedIsTraversal(visits, limits, r, normalize, None);
    TraversalIsCompleteAndOrdered(visits, f, None);
    forall id | id in visits[0].store && Matches(visits[0].store, f, id)
      ensures id in Elements(Collected(visits))
    {
      assert id in Remaining(visits[0].store, f, None);
    }
  }

  /** On a store that does not change, the collected pages are exactly the sorted list of the matching events. */
  lemma FeedOfAFixedStore(visits: seq<Visit>, limits: seq<int>, r: Request, normalize: string -> string, store: Store)
    requires Followed(visits, limits, r, normalize) && r.cursor == []
    requires forall i | 0 <= i < |visits| :: visits[i].store == store
    ensures Collected(visits) == Sorted(store, set id | id in store && Matches(store, FilterOf(r, normalize), id))
  {
    var f, list := FilterOf(r, normalize), Collected(visits);
    FeedIsCompleteAndOrdered(visits, limits, r, normalize);
    var ids := set id | id in store && Matches(store, f, id);
    forall id
      ensures id in Elements(list) <==> id in ids
    {
      if i :| 0 <= i < |list| && list[i] == id { assert Matches(store, f, list[i]); }
    }
    assert Elements(list) == ids;
    ListingIsUnique(store, ids, list);
  }

  // ---------------------------------------------------------------- in terms of the request alone

  /** A request is refused exactly when its range is empty or its cursor cannot be read. */
  lemma RefusedExactlyWhen(store: Store, r: Request, normalize: string -> string)
    ensures var response := ResponseTo(store, r, normalize);
            && (response.InvalidTimeRange? <==> r.from.Some? && r.to.Some? && r.from.value >= r.to.value)
            && (response.InvalidCursor? <==>
                  !response.InvalidTimeRange? && r.cursor != [] && DecodeCursor(r.cursor).None?)
  {
  }

  /** The row is the user's, in the range asked for, and of a type asked for if one was that is not blank. */
  ghost predicate AskedFor(row: Row, r: Request, normalize: string -> string) {
    && row.user == r.user
    && (r.from.Some? ==> r.from.value <= row.at) && (r.to.Some? ==> row.at < r.to.value)
    && ((forall t | t in r.types :: normalize(t) == "")
        || exists t :: t in r.types && normalize(t) == row.kind && row.kind != "")
  }

  lemma MatchesExactlyTheAskedFor(store: Store, r: Request, normalize: string -> string, id: int)
    requires id in store
    ensures Matches(store, FilterOf(r, normalize), id) <==> AskedFor(store[id], r, normalize)
  {
    var kinds := set t | t in r.types && normalize(t) != "" :: normalize(t);
    if t :| t in r.types && normalize(t) != "" {
      assert normalize(t) in kinds;
    } else {
      assert kinds == {};
    }
  }

  /** Newest first, those of one instant by descending id. */
  ghost predicate NewestFirst(store: Store, list: seq<int>) {
    && (forall i | 0 <= i < |list| :: list[i] in store)
    && forall i, j | 0 <= i < j < |list| ::
         store[list[j]].at < store[list[i]].at || (store[list[j]].at == store[list[i]].at && list[j] < list[i])
  }

  /**
   What a client collects while events are being inserted is newest first, holds nothing that was
   not asked for, and everything asked for that was there at the first page.
   */
  lemma FeedIsWhatWasAskedFor(visits: seq<Visit>, limits: seq<int>, r: Request, normalize: string -> string)
    requires Followed(visits, limits, r, normalize) && r.cursor == []
    ensures var first, final, list := visits[0].store, visits[|visits| - 1].store, Collected(visits);
            && NewestFirst(final, list)
            && (forall id | id in list :: AskedFor(final[id], r, normalize))
            && (forall id | id in first && AskedFor(first[id], r, normalize) :: id in list)
  {
    var first, final, list := visits[0].store, visits[|visits| - 1].store, Collected(visits);
    FeedIsCompleteAndOrdered(visits, limits, r, normalize);
    forall i, j | 0 <= i < j < |list|
      ensures final[list[j]].at < final[list[i]].at || (final[list[j]].at == final[list[i]].at && list[j] < list[i])
    {
      assert Precedes(final, list[i], list[j]);
    }
    forall id | id in list
      ensures AskedFor(final[id], r, normalize)
    {
      MatchesExactlyTheAskedFor(final, r, normalize, id);
    }
    forall id | id in first && AskedFor(first[id], r, normalize)
      ensures id in list
    {
      MatchesExactlyTheAskedFor(first, r, normalize, id);
      assert id in Elements(list);
    }
  }

  /** On a store that does not change, exactly the rows asked for, each once. */
  lemma FixedFeedIsExactlyWhatWasAskedFor(visits: seq<Visit>, limits: seq<int>, r: Request,
                                          normalize: string -> string, store: Store)
    requires Followed(visits, limits, r, normalize) && r.cursor == []
    requires forall i | 0 <= i < |visits| :: visits[i].store == store
    ensures var list := Collected(visits);
            && NewestFirst(store, list)
            && forall id :: id in list <==>
                 && id in store && store[id].user == r.user
                 && (r.from.Some? ==> r.from.value <= store[id].at) && (r.to.Some? ==> store[id].at < r.to.value)
                 && ((forall t | t in r.types :: normalize(t) == "")
                     || exists t :: t in r.types && normalize(t) == store[id].kind && store[id].kind != "")
  {
    FeedIsWhatWasAskedFor(visits, limits, r, normalize);
    forall id
      ensures id in Collected(visits) <==> id in store && AskedFor(store[id], r, normalize)
    {
    }
  }
}
