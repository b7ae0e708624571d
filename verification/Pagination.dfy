/**
 The event feed: a filtered, ordered, limited query, and pages of it that a cursor links together.
 The events table maps ids to rows; rows never change once inserted. Times are nanoseconds since
 1970, as a cursor prints them.
 */
module Pagination {
  import opened Options
  import opened Cursor
  import opened Sums

  datatype Row = Row(user: int, kind: string, at: int)

  type Store = map<int, Row>

  /** What a request filters on; `kinds` is absent when no type was asked for. */
  datatype Filter = Filter(user: int, kinds: Option<set<string>>, from: Option<int>, to: Option<int>)

  /** A place in the order: the time and id of the last row of a page. */
  datatype Position = Position(at: int, id: int)

  // ---------------------------------------------------------------- order

  predicate Precedes(store: Store, a: int, b: int)
    requires a in store && b in store
  {
    store[a].at > store[b].at || (store[a].at == store[b].at && a > b)
  }

  /** The row comes after the position: it is older, or as old with a smaller id. No position is before all rows. */
  predicate Below(store: Store, id: int, p: Option<Position>)
    requires id in store
  {
    p.None? || store[id].at < p.value.at || (store[id].at == p.value.at && id < p.value.id)
  }

  predicate Matches(store: Store, f: Filter, id: int)
    requires id in store
  {
    var row := store[id];
    && row.user == f.user
    && (f.kinds.Some? ==> row.kind in f.kinds.value)
    && (f.from.Some? ==> f.from.value <= row.at)
    && (f.to.Some? ==> row.at < f.to.value)
  }

  predicate First(store: Store, ids: set<int>, e: int)
    requires ids <= store.Keys
  {
    e in ids && forall x | x in ids :: x == e || Precedes(store, e, x)
  }

  lemma {:induction false} SomeoneIsFirst(store: Store, ids: set<int>)
    requires ids <= store.Keys && ids != {}
    ensures exists e :: First(store, ids, e)
    decreases |ids|
  {
    var x := Pick(ids);
    var rest := ids - {x};
    if rest == {} {
      assert ids == {x};
      assert First(store, ids, x);
    } else {
      SomeoneIsFirst(store, rest);
      var e :| First(store, rest, e);
      forall y | y in ids
        ensures y == x || y == e || Precedes(store, e, y)
      {
        assert y == x || y in rest;
      }
      if Precedes(store, x, e) { assert First(store, ids, x); } else { assert First(store, ids, e); }
    }
  }

  /** The rows from the newest to the oldest, those of one instant by descending id. */
  function Sorted(store: Store, ids: set<int>): seq<int>
    requires ids <= store.Keys
    decreases |ids|
  {
    if ids == {} then []
    else
      SomeoneIsFirst(store, ids);
      var e :| First(store, ids, e);
      [e] + Sorted(store, ids - {e})
  }

  ghost predicate Descending(store: Store, list: seq<int>) {
    && (forall i | 0 <= i < |list| :: list[i] in store)
    && (forall i, j | 0 <= i < j < |list| :: Precedes(store, list[i], list[j]))
  }

  function Elements(list: seq<int>): set<int> {
    set x | x in list
  }

  lemma {:induction false} SortedLists(store: Store, ids: set<int>)
    requires ids <= store.Keys
    ensures var list := Sorted(store, ids);
            Descending(store, list) && Elements(list) == ids && |list| == |ids|
    decreases |ids|
  {
    if ids != {} {
      SomeoneIsFirst(store, ids);
      var list := Sorted(store, ids);
      var e := list[0];
      assert First(store, ids, e) && list == [e] + Sorted(store, ids - {e});
      SortedLists(store, ids - {e});
      FirstThenRest(store, ids, e, Sorted(store, ids - {e}));
    }
  }

  lemma FirstThenRest(store: Store, ids: set<int>, e: int, rest: seq<int>)
    requires ids <= store.Keys && First(store, ids, e) && Descending(store, rest) && Elements(rest) == ids - {e}
    ensures Descending(store, [e] + rest) && Elements([e] + rest) == ids
  {
    var list := [e] + rest;
    forall i | 0 < i < |list|
      ensures Precedes(store, e, list[i])
    {
      assert list[i] in Elements(rest);
    }
    assert Elements(list) == {e} + Elements(rest);
  }

  lemma NoElements(list: seq<int>)
    ensures list == [] <==> Elements(list) == {}
  {
    if list != [] { assert list[0] in Elements(list); }
  }

  lemma HeadIsFirst(store: Store, ids: set<int>, list: seq<int>)
    requires ids <= store.Keys && Descending(store, list) && Elements(list) == ids && list != []
    ensures First(store, ids, list[0])
  {
    assert list[0] in Elements(list);
    forall x | x in ids
      ensures x == list[0] || Precedes(store, list[0], x)
    {
      var i :| 0 <= i < |list| && list[i] == x;
    }
  }

  lemma RestOfListing(store: Store, ids: set<int>, list: seq<int>)
    requires ids <= store.Keys && Descending(store, list) && Elements(list) == ids && list != []
    ensures Elements(list[1..]) == ids - {list[0]} && Descending(store, list[1..])
  {
    var rest := list[1..];
    forall x
      ensures x in Elements(rest) <==> x in ids - {list[0]}
    {
      if x in ids && x != list[0] {
        var i :| 0 <= i < |list| && list[i] == x;
        assert rest[i - 1] == x;
      }
      if x in Elements(rest) {
        var i :| 0 <= i < |rest| && rest[i] == x;
        assert Precedes(store, list[0], list[i + 1]) && x in Elements(list);
      }
    }
  }

  /** A set of rows has only one descending listing. */
  lemma {:induction false} ListingIsUnique(store: Store, ids: set<int>, list: seq<int>)
    requires ids <= store.Keys && Descending(store, list) && Elements(list) == ids
    ensures list == Sorted(store, ids)
    decreases |ids|
  {
    NoElements(list);
    if ids != {} {
      HeadIsFirst(store, ids, list);
      RestOfListing(store, ids, list);
      ListingIsUnique(store, ids - {list[0]}, list[1..]);
      SortedBegins(store, ids, list[0]);
      assert list == [list[0]] + list[1..];
    }
  }

  /** The sorted rows begin with the first one and go on with the others. */
  lemma SortedBegins(store: Store, ids: set<int>, e: int)
    requires ids <= store.Keys && First(store, ids, e)
    ensures Sorted(store, ids) == [e] + Sorted(store, ids - {e})
  {
    SomeoneIsFirst(store, ids);
    var first := Sorted(store, ids)[0];
    assert First(store, ids, first) && Sorted(store, ids) == [first] + Sorted(store, ids - {first});
  }

  // ---------------------------------------------------------------- one page

  function Remaining(store: Store, f: Filter, p: Option<Position>): set<int> {
    set id | id in store && Matches(store, f, id) && Below(store, id, p)
  }

  /** The query: the first `limit` matching rows below the position. */
  function Query(store: Store, f: Filter, p: Option<Position>, limit: nat): seq<int> {
    var rows := Sorted(store, Remaining(store, f, p));
    if |rows| > limit then rows[..limit] else rows
  }

  function KeyOf(store: Store, id: int): Position
    requires id in store
  {
    Position(store[id].at, id)
  }

  datatype Page = Page(items: seq<int>, next: Option<Position>)

  /** One row more than the page is read; if it is there, the page ends at a cursor. */
  function PageOf(store: Store, f: Filter, p: Option<Position>, limit: nat): Page
    requires limit > 0
  {
    SortedLists(store, Remaining(store, f, p));
    var rows := Query(store, f, p, limit + 1);
    if |rows| == limit + 1
    then
      assert rows[limit - 1] in Elements(Sorted(store, Remaining(store, f, p)));
      Page(rows[..limit], Some(KeyOf(store, rows[limit - 1])))
    else Page(rows, None)
  }

  /**
   A page is the first `limit` of what remains. It has no cursor exactly when nothing is left, and
   otherwise what remains below the cursor is the rest, in the same order.
   */
  lemma PageSplits(store: Store, f: Filter, p: Option<Position>, limit: nat)
    requires limit > 0
    ensures var rows, page := Sorted(store, Remaining(store, f, p)), PageOf(store, f, p, limit);
            && page.items == rows[..|page.items|] && |page.items| == (if |rows| > limit then limit else |rows|)
            && (page.next.None? <==> |rows| <= limit)
            && (page.next.Some? ==>
                  && Remaining(store, f, page.next) == Remaining(store, f, p) - Elements(page.items)
                  && Sorted(store, Remaining(store, f, page.next)) == rows[limit..])
  {
    PageIsPrefix(store, f, p, limit);
    if |Sorted(store, Remaining(store, f, p))| > limit { RestIsBelow(store, f, p, limit); }
  }

  lemma PageIsPrefix(store: Store, f: Filter, p: Option<Position>, limit: nat)
    requires limit > 0
    ensures var rows, page := Sorted(store, Remaining(store, f, p)), PageOf(store, f, p, limit);
            if |rows| > limit
            then rows[limit - 1] in store && page == Page(rows[..limit], Some(KeyOf(store, rows[limit - 1])))
            else page == Page(rows, None)
  {
    SortedLists(store, Remaining(store, f, p));
  }

  lemma RestIsBelow(store: Store, f: Filter, p: Option<Position>, k: nat)
    requires var rows := Sorted(store, Remaining(store, f, p)); 0 < k < |rows| && rows[k - 1] in store
    ensures var rows := Sorted(store, Remaining(store, f, p));
            var next := Some(KeyOf(store, rows[k - 1]));
            && Remaining(store, f, next) == Remaining(store, f, p) - Elements(rows[..k])
            && Sorted(store, Remaining(store, f, next)) == rows[k..]
  {
    var ids := Remaining(store, f, p);
    var rows := Sorted(store, ids);
    SortedLists(store, ids);
    var next := Some(KeyOf(store, rows[k - 1]));
    assert rows[k - 1] in Elements(rows);
    forall id
      ensures id in Remaining(store, f, next) <==> id in Elements(rows[k..])
      ensures id in Remaining(store, f, next) <==> id in ids - Elements(rows[..k])
    {
      if id in store && id !in ids { BelowFurther(store, rows[k - 1], p, id); }
      if id in ids {
        assert id in Elements(rows);
        var i :| 0 <= i < |rows| && rows[i] == id;
        LaterIsBelow(store, rows, i, k);
      }
      SuffixElements(rows, k, id);
    }
    assert Elements(rows[k..]) == Remaining(store, f, next);
    assert Descending(store, rows[k..]);
    ListingIsUnique(store, Remaining(store, f, next), rows[k..]);
  }

  lemma BelowFurther(store: Store, last: int, p: Option<Position>, id: int)
    requires id in store && last in store && Below(store, last, p)
    ensures Below(store, id, Some(KeyOf(store, last))) ==> Below(store, id, p)
  {
  }

  lemma SuffixElements(list: seq<int>, k: nat, id: int)
    requires k <= |list|
    ensures id in Elements(list[k..]) ==> id in Elements(list)
  {
    if i :| 0 <= i < |list| - k && list[k..][i] == id { assert list[k + i] == id; }
  }

  lemma DistinctRows(store: Store, list: seq<int>, i: nat, j: nat)
    requires Descending(store, list) && i < |list| && j < |list| && list[i] == list[j]
    ensures i == j
  {
  }

  /** The rows of a listing that come at `k` or later are those below its row `k - 1`. */
  lemma LaterIsBelow(store: Store, list: seq<int>, i: nat, k: nat)
    requires Descending(store, list) && i < |list| && 0 < k <= |list|
    ensures list[i] in Elements(list[..k]) <==> i < k
    ensures list[i] in Elements(list[k..]) <==> i >= k
    ensures Below(store, list[i], Some(KeyOf(store, list[k - 1]))) <==> i >= k
  {
    if i < k { assert list[..k][i] == list[i]; } else { assert list[k..][i - k] == list[i]; }
    if j :| 0 <= j < k && list[..k][j] == list[i] { DistinctRows(store, list, i, j); }
    if j :| 0 <= j < |list| - k && list[k..][j] == list[i] { DistinctRows(store, list, i, k + j); }
    if i < k - 1 { assert Precedes(store, list[i], list[k - 1]); }
    if i > k - 1 { assert Precedes(store, list[k - 1], list[i]); }
  }

  // ---------------------------------------------------------------- the whole traversal of a fixed store

  /** Each page with a cursor leaves strictly fewer rows below it. */
  lemma CursorMakesProgress(store: Store, f: Filter, p: Option<Position>, limit: nat)
    requires limit > 0 && PageOf(store, f, p, limit).next.Some?
    ensures |Remaining(store, f, PageOf(store, f, p, limit).next)| + limit == |Remaining(store, f, p)|
  {
    var page := PageOf(store, f, p, limit);
    PageSplits(store, f, p, limit);
    SortedLists(store, Remaining(store, f, p));
    SortedLists(store, Remaining(store, f, page.next));
  }

  ghost predicate AllPositive(limits: nat -> nat) {
    forall n :: limits(n) > 0
  }

  /** All pages in turn; `limits(k)` is the page size asked for in the k-th request. */
  function AllItems(store: Store, f: Filter, p: Option<Position>, limits: nat -> nat, k: nat): seq<int>
    requires AllPositive(limits)
    decreases |Remaining(store, f, p)|
  {
    var page := PageOf(store, f, p, limits(k));
    if page.next.None? then page.items
    else
      CursorMakesProgress(store, f, p, limits(k));
      page.items + AllItems(store, f, page.next, limits, k + 1)
  }

  /** On a fixed store the pages, whatever their sizes, concatenate to the sorted filtered list. */
  lemma {:induction false} PagesConcatenateToTheList(store: Store, f: Filter, p: Option<Position>,
                                                     limits: nat -> nat, k: nat)
    requires AllPositive(limits)
    ensures AllItems(store, f, p, limits, k) == Sorted(store, Remaining(store, f, p))
    decreases |Remaining(store, f, p)|
  {
    var next := PageOf(store, f, p, limits(k)).next;
    ItemsAndListBegin(store, f, p, limits, k);
    if next.Some? { PagesConcatenateToTheList(store, f, next, limits, k + 1); }
  }

  ghost predicate ItemsAreTheList(store: Store, f: Filter, p: Option<Position>, limits: nat -> nat, k: nat)
    requires AllPositive(limits)
  {
    AllItems(store, f, p, limits, k) == Sorted(store, Remaining(store, f, p))
  }

  /** The first page stands at the head of both, and what follows it is shorter. */
  lemma ItemsAndListBegin(store: Store, f: Filter, p: Option<Position>, limits: nat -> nat, k: nat)
    requires AllPositive(limits)
    ensures var next := PageOf(store, f, p, limits(k)).next;
            if next.None? then ItemsAreTheList(store, f, p, limits, k)
            else |Remaining(store, f, next)| < |Remaining(store, f, p)|
                 && (ItemsAreTheList(store, f, next, limits, k + 1) ==> ItemsAreTheList(store, f, p, limits, k))
  {
    PageThenRest(store, f, p, limits(k));
    ItemsBegin(store, f, p, limits, k);
    if PageOf(store, f, p, limits(k)).next.Some? { CursorMakesProgress(store, f, p, limits(k)); }
  }

  lemma ItemsBegin(store: Store, f: Filter, p: Option<Position>, limits: nat -> nat, k: nat)
    requires AllPositive(limits)
    ensures var page := PageOf(store, f, p, limits(k));
            AllItems(store, f, p, limits, k)
            == if page.next.None? then page.items else page.items + AllItems(store, f, page.next, limits, k + 1)
  {
  }

  lemma PageThenRest(store: Store, f: Filter, p: Option<Position>, limit: nat)
    requires limit > 0
    ensures var page := PageOf(store, f, p, limit);
            Sorted(store, Remaining(store, f, p))
            == if page.next.None? then page.items else page.items + Sorted(store, Remaining(store, f, page.next))
  {
    var rows := Sorted(store, Remaining(store, f, p));
    PageSplits(store, f, p, limit);
    assert rows[..|rows|] == rows;
    if |rows| > limit { assert rows == rows[..limit] + rows[limit..]; }
  }

  // ---------------------------------------------------------------- traversal while rows are inserted

  predicate Extends(store: Store, store': Store) {
    forall id | id in store :: id in store' && store'[id] == store[id]
  }

  /** One request of a traversal: the table it met, the page size it asked for, the rows it got. */
  datatype Visit = Visit(store: Store, limit: nat, items: seq<int>)

  /** The visits follow the cursors from `p` until a page without one, while the table only grows. */
  ghost predicate Traversal(visits: seq<Visit>, f: Filter, p: Option<Position>)
    decreases |visits|
  {
    && visits != [] && visits[0].limit > 0
    && var v := visits[0];
       var page := PageOf(v.store, f, p, v.limit);
       && v.items == page.items
       && (if page.next.None? then |visits| == 1
           else |visits| > 1 && Extends(v.store, visits[1].store) && Traversal(visits[1..], f, page.next))
  }

  function Collected(visits: seq<Visit>): seq<int> {
    if visits == [] then [] else visits[0].items + Collected(visits[1..])
  }

  ghost predicate GoodListing(store: Store, f: Filter, p: Option<Position>, list: seq<int>) {
    && Descending(store, list)
    && forall i | 0 <= i < |list| :: Matches(store, f, list[i]) && Below(store, list[i], p)
  }

  lemma {:induction false} StoresGrow(visits: seq<Visit>, f: Filter, p: Option<Position>)
    requires Traversal(visits, f, p)
    ensures Extends(visits[0].store, visits[|visits| - 1].store)
    decreases |visits|
  {
    var page := PageOf(visits[0].store, f, p, visits[0].limit);
    if page.next.Some? {
      StoresGrow(visits[1..], f, page.next);
      assert visits[1..][|visits| - 2] == visits[|visits| - 1];
    }
  }

  /**
   Following the cursors to the end while other calls insert rows returns keys in strictly
   descending order, so none twice, all of them matching, and among them every matching row that
   was there when the first page was read.
   */
  lemma {:induction false} TraversalIsCompleteAndOrdered(visits: seq<Visit>, f: Filter, p: Option<Position>)
    requires Traversal(visits, f, p)
    ensures var final := visits[|visits| - 1].store;
            && GoodListing(final, f, p, Collected(visits))
            && Remaining(visits[0].store, f, p) <= Elements(Collected(visits))
    decreases |visits|
  {
    var v := visits[0];
    var page := PageOf(v.store, f, p, v.limit);
    var final := visits[|visits| - 1].store;
    StoresGrow(visits, f, p);
    PageSplits(v.store, f, p, v.limit);
    PageIsGood(v.store, f, p, v.limit, final);
    if page.next.None? {
      assert visits[1..] == [] && Collected(visits) == page.items + [];
      assert page.items == Sorted(v.store, Remaining(v.store, f, p));
      SortedLists(v.store, Remaining(v.store, f, p));
    } else {
      var rest := visits[1..];
      TraversalIsCompleteAndOrdered(rest, f, page.next);
      assert rest[|rest| - 1] == visits[|visits| - 1];
      var later := Collected(rest);
      JoinListings(final, f, p, page, later);
      forall id | id in Remaining(v.store, f, p)
        ensures id in Elements(Collected(visits))
      {
        if id in Elements(page.items) {
          assert id in page.items + later;
        } else {
          assert id in Remaining(v.store, f, page.next);
          assert id in Remaining(rest[0].store, f, page.next);
          assert id in Elements(later) && id in page.items + later;
        }
      }
    }
  }

  lemma PrefixIsListed(store: Store, f: Filter, p: Option<Position>, rows: seq<int>, n: nat, final: Store)
    requires Extends(store, final) && Descending(store, rows) && n <= |rows|
    requires forall id | id in rows :: id in Remaining(store, f, p)
    ensures GoodListing(final, f, p, rows[..n])
  {
    forall i | 0 <= i < n
      ensures rows[i] in final && final[rows[i]] == store[rows[i]] && rows[i] in Remaining(store, f, p)
    {
      assert rows[i] in rows;
    }
    forall i, j | 0 <= i < j < n
      ensures Precedes(final, rows[i], rows[j])
    {
      assert Precedes(store, rows[i], rows[j]);
    }
  }

  lemma CursorIsTheLastRow(store: Store, f: Filter, p: Option<Position>, limit: nat)
    requires limit > 0 && PageOf(store, f, p, limit).next.Some?
    ensures var page := PageOf(store, f, p, limit);
            && page.items != [] && page.items[|page.items| - 1] in store
            && page.next == Some(KeyOf(store, page.items[|page.items| - 1]))
  {
    PageIsPrefix(store, f, p, limit);
  }

  lemma PageIsGood(store: Store, f: Filter, p: Option<Position>, limit: nat, final: Store)
    requires limit > 0 && Extends(store, final)
    ensures var page := PageOf(store, f, p, limit);
            && GoodListing(final, f, p, page.items)
            && (page.next.Some? ==> page.items != [] && page.next == Some(KeyOf(final, page.items[|page.items| - 1])))
  {
    var rows, page := Sorted(store, Remaining(store, f, p)), PageOf(store, f, p, limit);
    SortedLists(store, Remaining(store, f, p));
    forall id | id in rows
      ensures id in Remaining(store, f, p)
    {
      assert id in Elements(rows);
    }
    PageSplits(store, f, p, limit);
    PrefixIsListed(store, f, p, rows, |page.items|, final);
    if page.next.Some? { CursorIsTheLastRow(store, f, p, limit); }
  }

  lemma JoinListings(store: Store, f: Filter, p: Option<Position>, page: Page, later: seq<int>)
    requires GoodListing(store, f, p, page.items) && page.items != []
    requires page.next == Some(KeyOf(store, page.items[|page.items| - 1])) && GoodListing(store, f, page.next, later)
    ensures GoodListing(store, f, p, page.items + later)
  {
    var list, n := page.items + later, |page.items|;
    var last := page.items[n - 1];
    forall i | 0 <= i < |later|
      ensures Precedes(store, last, later[i]) && Below(store, later[i], p)
    {
      assert Below(store, later[i], page.next) && Below(store, last, p);
    }
    forall i, j | 0 <= i < j < |list|
      ensures Precedes(store, list[i], list[j])
    {
      if i < n <= j {
        assert i == n - 1 || Precedes(store, page.items[i], last);
        assert Precedes(store, last, later[j - n]);
      }
    }
  }
}
