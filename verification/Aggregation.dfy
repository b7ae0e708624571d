/**
 The aggregation query. Its two GROUP BY stages run as hash aggregation does, one row at a time
 into a growing list of groups; the reference they are proved against counts events directly.
 The events table is a sequence in commit order, so that later states extend earlier ones.
 */
module Aggregation {
  import opened Collections
  import opened Sums

  type UserId = int

  datatype Event = Event(id: int, user: UserId, kind: string, at: int)

  /** `types` is the json object of counts by event type. */
  datatype Bucket = Bucket(count: int, types: map<string, int>, first: int, last: int)

  type Buckets = map<(UserId, int), Bucket>

  datatype TypeRow = TypeRow(user: UserId, kind: string, cnt: int, first: int, last: int)

  datatype UserRow = UserRow(user: UserId, bucket: Bucket)

  function Least(a: int, b: int): int { if a < b then a else b }

  function Greatest(a: int, b: int): int { if a > b then a else b }

  // ---------------------------------------------------------------- the query

  /** The events from `start` up to, and without, `end`, in the order in which they were stored. */
  function Between(events: seq<Event>, start: int, end: int): seq<Event> {
    if events == [] then []
    else
      var e := events[|events| - 1];
      Between(events[..|events| - 1], start, end) + if start <= e.at < end then [e] else []
  }

  lemma {:induction false} InBetween(events: seq<Event>, start: int, end: int, e: Event)
    ensures e in Between(events, start, end) <==> e in events && start <= e.at < end
  {
    if events != [] {
      var n := |events| - 1;
      InBetween(events[..n], start, end, e);
      assert events == events[..n] + [events[n]];
    }
  }

  /** First stage: an event joins the row of its user and type, or starts that row. */
  function JoinGroup(rows: seq<TypeRow>, e: Event): seq<TypeRow> {
    if rows == [] then [TypeRow(e.user, e.kind, 1, e.at, e.at)]
    else
      var r := rows[0];
      if r.user == e.user && r.kind == e.kind
      then [r.(cnt := r.cnt + 1, first := Least(r.first, e.at), last := Greatest(r.last, e.at))] + rows[1..]
      else [r] + JoinGroup(rows[1..], e)
  }

  function PerType(window: seq<Event>): seq<TypeRow> {
    if window == [] then [] else JoinGroup(PerType(window[..|window| - 1]), window[|window| - 1])
  }

  /** Second stage: a row of the first joins the row of its user, or starts that row. */
  function JoinUser(rolled: seq<UserRow>, r: TypeRow): seq<UserRow> {
    if rolled == [] then [UserRow(r.user, Bucket(r.cnt, map[r.kind := r.cnt], r.first, r.last))]
    else
      var u := rolled[0];
      if u.user == r.user
      then var b := u.bucket;
           [UserRow(u.user, Bucket(b.count + r.cnt, b.types[r.kind := r.cnt],
                                   Least(b.first, r.first), Greatest(b.last, r.last)))]
             + rolled[1..]
      else [u] + JoinUser(rolled[1..], r)
  }

  function Rolled(rows: seq<TypeRow>): seq<UserRow> {
    if rows == [] then [] else JoinUser(Rolled(rows[..|rows| - 1]), rows[|rows| - 1])
  }

  /** Every row of the second stage is stored under its user and the window, over what was stored there. */
  function Upsert(buckets: Buckets, start: int, rolled: seq<UserRow>): Buckets {
    if rolled == [] then buckets
    else
      Upsert(buckets, start, rolled[..|rolled| - 1])
        [(rolled[|rolled| - 1].user, start) := rolled[|rolled| - 1].bucket]
  }

  function AggregateStatement(events: seq<Event>, buckets: Buckets, start: int, end: int): Buckets {
    Upsert(buckets, start, Rolled(PerType(Between(events, start, end))))
  }

  // ---------------------------------------------------------------- the direct fold

  function CountOf(window: seq<Event>, user: UserId, kind: string): (n: nat) {
    if window == [] then 0
    else
      var e := window[|window| - 1];
      CountOf(window[..|window| - 1], user, kind) + if e.user == user && e.kind == kind then 1 else 0
  }

  function Total(window: seq<Event>, user: UserId): (n: nat) {
    if window == [] then 0
    else Total(window[..|window| - 1], user) + if window[|window| - 1].user == user then 1 else 0
  }

  function Kinds(window: seq<Event>, user: UserId): set<string> {
    set e | e in window && e.user == user :: e.kind
  }

  function Times(window: seq<Event>, user: UserId): set<int> {
    set e | e in window && e.user == user :: e.at
  }

  function Users(window: seq<Event>): set<UserId> {
    set e | e in window :: e.user
  }

  /** The row of one user, counted straight from the events of the window. */
  ghost function Direct(window: seq<Event>, user: UserId): Bucket
    requires user in Users(window)
  {
    var e :| e in window && e.user == user;
    assert e.at in Times(window, user);
    Bucket(Total(window, user), map t | t in Kinds(window, user) :: CountOf(window, user, t),
           Min(Times(window, user)), Max(Times(window, user)))
  }

  ghost function DirectRows(window: seq<Event>, start: int): Buckets {
    map u | u in Users(window) :: (u, start) := Direct(window, u)
  }

  // ---------------------------------------------------------------- counting

  lemma {:induction false} CountPositive(window: seq<Event>, user: UserId, kind: string)
    ensures CountOf(window, user, kind) > 0 <==> exists e :: e in window && e.user == user && e.kind == kind
  {
    if window != [] {
      var n := |window| - 1;
      assert window == window[..n] + [window[n]];
      CountPositive(window[..n], user, kind);
      if window[n].user == user && window[n].kind == kind { assert window[n] in window; }
    }
  }

  /** The events of a user are counted once each when counted by type. */
  lemma {:induction false} TotalIsSumOfCounts(window: seq<Event>, user: UserId, kinds: set<string>)
    requires Kinds(window, user) <= kinds
    ensures Total(window, user) == Sum(kinds, t => CountOf(window, user, t))
  {
    var here := t => CountOf(window, user, t);
    if window == [] {
      SumOfZeros(kinds, here);
    } else {
      var n := |window| - 1;
      var e := window[n];
      assert window == window[..n] + [e];
      var before := t => CountOf(window[..n], user, t);
      forall t | t in Kinds(window[..n], user)
        ensures t in kinds
      {
        var x :| x in window[..n] && x.user == user && x.kind == t;
        assert x in window && x.kind in Kinds(window, user);
      }
      TotalIsSumOfCounts(window[..n], user, kinds);
      if e.user == user {
        assert e in window && e.kind in Kinds(window, user);
        SumTakes(kinds, here, e.kind);
        SumTakes(kinds, before, e.kind);
        SumAgrees(kinds - {e.kind}, here, before);
      } else {
        SumAgrees(kinds, here, before);
      }
    }
  }

  function OfUser(user: UserId): Event -> bool {
    (e: Event) => e.user == user
  }

  function OfKind(user: UserId, kind: string): Event -> bool {
    (e: Event) => e.user == user && e.kind == kind
  }

  function InSpan(p: Event -> bool, start: int, end: int): Event -> bool {
    (e: Event) => start <= e.at < end && p(e)
  }

  /** Counting in a window is counting the events whose time lies in it. */
  lemma WindowCounts(events: seq<Event>, start: int, end: int, user: UserId, kind: string)
    ensures var window := Between(events, start, end);
            && CountOf(window, user, kind) == Count(events, InSpan(OfKind(user, kind), start, end))
            && Total(window, user) == Count(events, InSpan(OfUser(user), start, end))
  {
    var window := Between(events, start, end);
    CountsAreCounts(window, user, kind);
    CountBetween(events, start, end, OfKind(user, kind));
    CountBetween(events, start, end, OfUser(user));
  }

  lemma {:induction false} CountsAreCounts(window: seq<Event>, user: UserId, kind: string)
    ensures CountOf(window, user, kind) == Count(window, OfKind(user, kind))
    ensures Total(window, user) == Count(window, OfUser(user))
  {
    if window != [] { CountsAreCounts(window[..|window| - 1], user, kind); }
  }

  lemma {:induction false} CountBetween(events: seq<Event>, start: int, end: int, p: Event -> bool)
    ensures Count(Between(events, start, end), p) == Count(events, InSpan(p, start, end))
  {
    if events != [] {
      var n := |events| - 1;
      CountBetween(events[..n], start, end, p);
      CountBetweenStep(events[..n], events[n], start, end, p);
      assert events == events[..n] + [events[n]];
    }
  }

  lemma CountBetweenStep(before: seq<Event>, e: Event, start: int, end: int, p: Event -> bool)
    requires Count(Between(before, start, end), p) == Count(before, InSpan(p, start, end))
    ensures Count(Between(before + [e], start, end), p) == Count(before + [e], InSpan(p, start, end))
  {
    var window, spanned := Between(before, start, end), InSpan(p, start, end);
    CountTakes(before, e, spanned);
    BetweenTakes(before, e, start, end);
    if start <= e.at < end { CountTakes(window, e, p); }
  }

  lemma BetweenTakes(before: seq<Event>, e: Event, start: int, end: int)
    ensures Between(before + [e], start, end)
            == if start <= e.at < end then Between(before, start, end) + [e] else Between(before, start, end)
  {
    assert (before + [e])[..|before|] == before;
  }

  // ---------------------------------------------------------------- first stage

  ghost predicate HasGroup(rows: seq<TypeRow>, user: UserId, kind: string) {
    exists i :: 0 <= i < |rows| && rows[i].user == user && rows[i].kind == kind
  }

  ghost predicate DistinctGroups(rows: seq<TypeRow>) {
    forall i, j | 0 <= i < j < |rows| :: rows[i].user != rows[j].user || rows[i].kind != rows[j].kind
  }

  /** The times of the events of one group. */
  function GroupTimes(window: seq<Event>, user: UserId, kind: string): set<int> {
    set e | e in window && e.user == user && e.kind == kind :: e.at
  }

  ghost predicate Bounds(times: set<int>, first: int, last: int) {
    first in times && last in times && forall t | t in times :: first <= t <= last
  }

  ghost predicate GroupExact(r: TypeRow, window: seq<Event>) {
    r.cnt == CountOf(window, r.user, r.kind) && Bounds(GroupTimes(window, r.user, r.kind), r.first, r.last)
  }

  ghost predicate GroupsExact(rows: seq<TypeRow>, window: seq<Event>) {
    && DistinctGroups(rows)
    && (forall i | 0 <= i < |rows| :: GroupExact(rows[i], window))
    && (forall e | e in window :: HasGroup(rows, e.user, e.kind))
  }

  function Joined(r: TypeRow, e: Event): TypeRow {
    r.(cnt := r.cnt + 1, first := Least(r.first, e.at), last := Greatest(r.last, e.at))
  }

  function GroupIndex(rows: seq<TypeRow>, user: UserId, kind: string): (i: nat)
    ensures i <= |rows|
    ensures i < |rows| ==> rows[i].user == user && rows[i].kind == kind
    ensures i == |rows| ==> !HasGroup(rows, user, kind)
  {
    if rows == [] then 0
    else if rows[0].user == user && rows[0].kind == kind then 0
    else
      var i := GroupIndex(rows[1..], user, kind);
      assert HasGroup(rows, user, kind) ==> HasGroup(rows[1..], user, kind) by {
        if k :| 0 <= k < |rows| && rows[k].user == user && rows[k].kind == kind { assert rows[1..][k - 1] == rows[k]; }
      }
      1 + i
  }

  lemma {:induction false} JoinGroupIs(rows: seq<TypeRow>, e: Event)
    ensures var i := GroupIndex(rows, e.user, e.kind);
            JoinGroup(rows, e) == if i < |rows| then rows[i := Joined(rows[i], e)]
                                  else rows + [TypeRow(e.user, e.kind, 1, e.at, e.at)]
  {
    if rows != [] && !(rows[0].user == e.user && rows[0].kind == e.kind) {
      JoinGroupIs(rows[1..], e);
      assert rows == [rows[0]] + rows[1..];
    }
  }

  lemma {:induction false} PerTypeIsExact(window: seq<Event>)
    ensures GroupsExact(PerType(window), window)
  {
    if window != [] {
      var n := |window| - 1;
      var before, e := window[..n], window[n];
      assert window == before + [e];
      PerTypeIsExact(before);
      PerTypeStep(PerType(before), before, e);
    }
  }

  lemma PerTypeStep(rows: seq<TypeRow>, before: seq<Event>, e: Event)
    requires GroupsExact(rows, before)
    ensures GroupsExact(JoinGroup(rows, e), before + [e])
  {
    JoinGroupIs(rows, e);
    JoinKeepsDistinct(rows, e);
    forall i | 0 <= i < |JoinGroup(rows, e)|
      ensures GroupExact(JoinGroup(rows, e)[i], before + [e])
    {
      JoinKeepsExact(rows, before, e, i);
    }
    forall x | x in before + [e]
      ensures HasGroup(JoinGroup(rows, e), x.user, x.kind)
    {
      JoinKeepsGroups(rows, before, e, x);
    }
  }

  lemma JoinKeepsDistinct(rows: seq<TypeRow>, e: Event)
    requires DistinctGroups(rows)
    ensures DistinctGroups(JoinGroup(rows, e))
  {
    JoinGroupIs(rows, e);
    if GroupIndex(rows, e.user, e.kind) == |rows| {
      forall i | 0 <= i < |rows|
        ensures rows[i].user != e.user || rows[i].kind != e.kind
      {
        assert !HasGroup(rows, e.user, e.kind);
      }
    }
  }

  lemma JoinKeepsExact(rows: seq<TypeRow>, before: seq<Event>, e: Event, i: nat)
    requires GroupsExact(rows, before) && i < |JoinGroup(rows, e)|
    ensures GroupExact(JoinGroup(rows, e)[i], before + [e])
  {
    var k := GroupIndex(rows, e.user, e.kind);
    JoinGroupIs(rows, e);
    if i == |rows| {
      FreshGroup(rows, before, e.user, e.kind);
      FirstOfGroup(before, e);
    } else {
      GrownGroup(rows[i], before, e);
    }
  }

  lemma GrownGroup(r: TypeRow, before: seq<Event>, e: Event)
    requires GroupExact(r, before)
    ensures GroupExact(if r.user == e.user && r.kind == e.kind then Joined(r, e) else r, before + [e])
  {
    GroupGrows(before, e, r.user, r.kind);
  }

  lemma FirstOfGroup(before: seq<Event>, e: Event)
    requires CountOf(before, e.user, e.kind) == 0 && GroupTimes(before, e.user, e.kind) == {}
    ensures GroupExact(TypeRow(e.user, e.kind, 1, e.at, e.at), before + [e])
  {
    GroupGrows(before, e, e.user, e.kind);
  }

  lemma JoinKeepsGroups(rows: seq<TypeRow>, before: seq<Event>, e: Event, x: Event)
    requires GroupsExact(rows, before) && x in before + [e]
    ensures HasGroup(JoinGroup(rows, e), x.user, x.kind)
  {
    var rows' := JoinGroup(rows, e);
    var k := GroupIndex(rows, e.user, e.kind);
    JoinGroupIs(rows, e);
    if x in before {
      var i := GroupIndex(rows, x.user, x.kind);
      assert HasGroup(rows, x.user, x.kind);
      assert rows'[i].user == x.user && rows'[i].kind == x.kind;
    } else {
      assert rows'[k].user == x.user && rows'[k].kind == x.kind;
    }
  }

  lemma GroupGrows(before: seq<Event>, e: Event, user: UserId, kind: string)
    ensures var joins := e.user == user && e.kind == kind;
            && GroupTimes(before + [e], user, kind) == GroupTimes(before, user, kind) + (if joins then {e.at} else {})
            && CountOf(before + [e], user, kind) == CountOf(before, user, kind) + (if joins then 1 else 0)
  {
    assert (before + [e])[..|before|] == before;
    forall x
      ensures x in before + [e] <==> x in before || x == e
    {
    }
  }

  lemma FreshGroup(rows: seq<TypeRow>, before: seq<Event>, user: UserId, kind: string)
    requires GroupsExact(rows, before) && !HasGroup(rows, user, kind)
    ensures CountOf(before, user, kind) == 0 && GroupTimes(before, user, kind) == {}
  {
    CountPositive(before, user, kind);
  }

  // ---------------------------------------------------------------- second stage

  function RowsOf(rows: seq<TypeRow>, user: UserId): set<TypeRow> {
    set r | r in rows && r.user == user
  }

  ghost predicate HasUser(rolled: seq<UserRow>, user: UserId) {
    exists i :: 0 <= i < |rolled| && rolled[i].user == user
  }

  ghost predicate DistinctUsers(rolled: seq<UserRow>) {
    forall i, j | 0 <= i < j < |rolled| :: rolled[i].user != rolled[j].user
  }

  /** The count a row holds for a type, none being zero. */
  function TypeCount(b: Bucket, kind: string): int {
    if kind in b.types then b.types[kind] else 0
  }

  function CountIn(b: Bucket): string -> int {
    k => TypeCount(b, k)
  }

  /** What the second stage makes of the first-stage rows of one user. */
  ghost predicate UserExact(b: Bucket, rows: set<TypeRow>) {
    && (forall r | r in rows :: r.kind in b.types && b.types[r.kind] == r.cnt)
    && (forall k | k in b.types :: exists r :: r in rows && r.kind == k)
    && b.count == Sum(b.types.Keys, CountIn(b))
    && (exists r :: r in rows && r.first == b.first) && (forall r | r in rows :: b.first <= r.first)
    && (exists r :: r in rows && r.last == b.last) && (forall r | r in rows :: r.last <= b.last)
  }

  ghost predicate RolledExact(rolled: seq<UserRow>, rows: seq<TypeRow>) {
    && DistinctUsers(rolled)
    && (forall i | 0 <= i < |rolled| :: UserExact(rolled[i].bucket, RowsOf(rows, rolled[i].user)))
    && (forall r | r in rows :: HasUser(rolled, r.user))
  }

  function UserIndex(rolled: seq<UserRow>, user: UserId): (i: nat)
    ensures i <= |rolled|
    ensures i < |rolled| ==> rolled[i].user == user
    ensures i == |rolled| ==> !HasUser(rolled, user)
  {
    if rolled == [] then 0
    else if rolled[0].user == user then 0
    else
      var i := UserIndex(rolled[1..], user);
      assert HasUser(rolled, user) ==> HasUser(rolled[1..], user) by {
        if k :| 0 <= k < |rolled| && rolled[k].user == user { assert rolled[1..][k - 1] == rolled[k]; }
      }
      1 + i
  }

  function Merged(b: Bucket, r: TypeRow): Bucket {
    Bucket(b.count + r.cnt, b.types[r.kind := r.cnt], Least(b.first, r.first), Greatest(b.last, r.last))
  }

  function Alone(r: TypeRow): Bucket {
    Bucket(r.cnt, map[r.kind := r.cnt], r.first, r.last)
  }

  lemma {:induction false} JoinUserIs(rolled: seq<UserRow>, r: TypeRow)
    ensures var i := UserIndex(rolled, r.user);
            JoinUser(rolled, r) == if i < |rolled| then rolled[i := UserRow(r.user, Merged(rolled[i].bucket, r))]
                                   else rolled + [UserRow(r.user, Alone(r))]
  {
    if rolled != [] && rolled[0].user != r.user {
      JoinUserIs(rolled[1..], r);
      assert rolled == [rolled[0]] + rolled[1..];
    }
  }

  lemma SingleRow(r: TypeRow)
    ensures UserExact(Alone(r), {r})
  {
    var types := map[r.kind := r.cnt];
    SumTakes({r.kind}, CountIn(Alone(r)), r.kind);
    assert {r.kind} - {r.kind} == {};
    assert types.Keys == {r.kind};
  }

  lemma MergedRow(b: Bucket, rows: set<TypeRow>, r: TypeRow)
    requires UserExact(b, rows) && r.kind !in b.types
    ensures UserExact(Merged(b, r), rows + {r})
  {
    var b' := Merged(b, r);
    SumTakes(b'.types.Keys, CountIn(b'), r.kind);
    assert b'.types.Keys - {r.kind} == b.types.Keys;
    SumAgrees(b.types.Keys, CountIn(b), CountIn(b'));
    forall k | k in b'.types
      ensures exists x :: x in rows + {r} && x.kind == k
    {
      if k == r.kind { assert r in rows + {r}; } else { var x :| x in rows && x.kind == k; assert x in rows + {r}; }
    }
    MergedBounds(b, rows, r);
  }

  lemma MergedBounds(b: Bucket, rows: set<TypeRow>, r: TypeRow)
    requires UserExact(b, rows)
    ensures var b' := Merged(b, r);
            && (exists x :: x in rows + {r} && x.first == b'.first)
            && (forall x | x in rows + {r} :: b'.first <= x.first)
            && (exists x :: x in rows + {r} && x.last == b'.last) && (forall x | x in rows + {r} :: x.last <= b'.last)
  {
    var lo :| lo in rows && lo.first == b.first;
    var hi :| hi in rows && hi.last == b.last;
    assert lo in rows + {r} && hi in rows + {r} && r in rows + {r};
  }

  lemma {:induction false} RolledIsExact(rows: seq<TypeRow>)
    requires DistinctGroups(rows)
    ensures RolledExact(Rolled(rows), rows)
  {
    if rows != [] {
      var n := |rows| - 1;
      var before, r := rows[..n], rows[n];
      assert rows == before + [r];
      RolledIsExact(before);
      RolledStep(Rolled(before), before, r);
    }
  }

  lemma RolledStep(rolled: seq<UserRow>, before: seq<TypeRow>, r: TypeRow)
    requires RolledExact(rolled, before) && DistinctGroups(before + [r])
    ensures RolledExact(JoinUser(rolled, r), before + [r])
  {
    var rolled' := JoinUser(rolled, r);
    forall i | 0 <= i < |rolled'|
      ensures UserExact(rolled'[i].bucket, RowsOf(before + [r], rolled'[i].user))
    {
      RolledRowStep(rolled, before, r, i);
    }
    JoinKeepsUsersDistinct(rolled, r);
    forall x | x in before + [r]
      ensures HasUser(rolled', x.user)
    {
      JoinKeepsUsers(rolled, before, r, x);
    }
  }

  lemma JoinKeepsUsersDistinct(rolled: seq<UserRow>, r: TypeRow)
    requires DistinctUsers(rolled)
    ensures DistinctUsers(JoinUser(rolled, r))
  {
    JoinUserIs(rolled, r);
    if UserIndex(rolled, r.user) == |rolled| {
      forall i | 0 <= i < |rolled|
        ensures rolled[i].user != r.user
      {
        assert !HasUser(rolled, r.user);
      }
    }
  }

  lemma JoinKeepsUsers(rolled: seq<UserRow>, before: seq<TypeRow>, r: TypeRow, x: TypeRow)
    requires RolledExact(rolled, before) && x in before + [r]
    ensures HasUser(JoinUser(rolled, r), x.user)
  {
    var rolled' := JoinUser(rolled, r);
    JoinUserIs(rolled, r);
    if x in before {
      assert HasUser(rolled, x.user);
      assert rolled'[UserIndex(rolled, x.user)].user == x.user;
    } else {
      assert rolled'[UserIndex(rolled, r.user)].user == x.user;
    }
  }

  lemma NewUserHasNoRows(rolled: seq<UserRow>, before: seq<TypeRow>, r: TypeRow)
    requires RolledExact(rolled, before) && UserIndex(rolled, r.user) == |rolled|
    ensures RowsOf(before, r.user) == {}
  {
    JoinUserIs(rolled, r);
    forall x | x in before
      ensures x.user != r.user
    {
      assert HasUser(rolled, x.user);
    }
  }

  lemma RolledRowStep(rolled: seq<UserRow>, before: seq<TypeRow>, r: TypeRow, i: nat)
    requires RolledExact(rolled, before) && DistinctGroups(before + [r]) && i < |JoinUser(rolled, r)|
    ensures var row := JoinUser(rolled, r)[i]; UserExact(row.bucket, RowsOf(before + [r], row.user))
  {
    var k := UserIndex(rolled, r.user);
    JoinUserIs(rolled, r);
    if i == |rolled| {
      NewUserHasNoRows(rolled, before, r);
      FirstOfUser(before, r);
    } else {
      GrownUser(rolled[i], before, r);
    }
  }

  lemma RowsOfTakes(before: seq<TypeRow>, r: TypeRow, user: UserId)
    ensures RowsOf(before + [r], user) == RowsOf(before, user) + if r.user == user then {r} else {}
  {
  }

  lemma FirstOfUser(before: seq<TypeRow>, r: TypeRow)
    requires RowsOf(before, r.user) == {}
    ensures UserExact(Alone(r), RowsOf(before + [r], r.user))
  {
    RowsOfTakes(before, r, r.user);
    SingleRow(r);
    OneMore({}, r, {r});
  }

  lemma GrownUser(u: UserRow, before: seq<TypeRow>, r: TypeRow)
    requires UserExact(u.bucket, RowsOf(before, u.user)) && DistinctGroups(before + [r])
    ensures UserExact(if u.user == r.user then Merged(u.bucket, r) else u.bucket, RowsOf(before + [r], u.user))
  {
    RowsOfTakes(before, r, u.user);
    if u.user == r.user {
      KindIsNew(u.bucket, before, r);
      MergedRow(u.bucket, RowsOf(before, r.user), r);
    }
  }

  lemma KindIsNew(b: Bucket, before: seq<TypeRow>, r: TypeRow)
    requires DistinctGroups(before + [r]) && UserExact(b, RowsOf(before, r.user))
    ensures r.kind !in b.types
  {
    forall x | x in RowsOf(before, r.user)
      ensures x.kind != r.kind
    {
      var j :| 0 <= j < |before| && before[j] == x;
      assert (before + [r])[j] == x && (before + [r])[|before|] == r;
    }
  }

  // ---------------------------------------------------------------- the two stages together

  /**
   The two-stage query equals the direct fold: every user of the window gets one row, with the
   count of each of the user's types, their sum, and the first and last time.
   */
  lemma TwoStagesEqualDirect(window: seq<Event>, i: nat)
    requires i < |Rolled(PerType(window))|
    ensures var row := Rolled(PerType(window))[i];
            row.user in Users(window) && row.bucket == Direct(window, row.user)
  {
    var rows := PerType(window);
    PerTypeIsExact(window);
    RolledIsExact(rows);
    var row := Rolled(rows)[i];
    RowEqualsDirect(row.bucket, rows, window, row.user);
  }

  lemma RowEqualsDirect(b: Bucket, rows: seq<TypeRow>, window: seq<Event>, u: UserId)
    requires GroupsExact(rows, window) && UserExact(b, RowsOf(rows, u))
    ensures u in Users(window) && b == Direct(window, u)
  {
    TypesAreKinds(b, rows, window, u);
    CountIsTotal(b, window, u);
    TimesAreBounded(b, rows, window, u);
    SameBucket(b, window, u);
  }

  lemma SameBucket(b: Bucket, window: seq<Event>, u: UserId)
    requires u in Users(window) && b.count == Total(window, u) && Bounds(Times(window, u), b.first, b.last)
    requires b.types.Keys == Kinds(window, u) && forall t | t in b.types :: b.types[t] == CountOf(window, u, t)
    ensures b == Direct(window, u)
  {
    var d := Direct(window, u);
    assert b.types == d.types;
    assert b.first == d.first && b.last == d.last;
  }

  lemma CountIsTotal(b: Bucket, window: seq<Event>, u: UserId)
    requires b.types.Keys == Kinds(window, u) && b.count == Sum(b.types.Keys, CountIn(b))
    requires forall t | t in b.types :: b.types[t] == CountOf(window, u, t)
    ensures b.count == Total(window, u)
  {
    var g := t => CountOf(window, u, t);
    SumAgrees(Kinds(window, u), CountIn(b), g);
    TotalIsSumOfCounts(window, u, Kinds(window, u));
  }

  lemma TypesAreKinds(b: Bucket, rows: seq<TypeRow>, window: seq<Event>, u: UserId)
    requires GroupsExact(rows, window) && UserExact(b, RowsOf(rows, u))
    ensures b.types.Keys == Kinds(window, u)
    ensures forall t | t in b.types :: b.types[t] == CountOf(window, u, t)
  {
    forall t | t in b.types
      ensures t in Kinds(window, u) && b.types[t] == CountOf(window, u, t)
    {
      var r :| r in RowsOf(rows, u) && r.kind == t;
      assert GroupExact(r, window);
      var e :| e in window && e.user == u && e.kind == t && e.at == r.first;
    }
    forall t | t in Kinds(window, u)
      ensures t in b.types
    {
      var e :| e in window && e.user == u && e.kind == t;
      assert HasGroup(rows, u, t);
      var j :| 0 <= j < |rows| && rows[j].user == u && rows[j].kind == t;
      assert rows[j] in RowsOf(rows, u);
    }
  }

  lemma TimesAreBounded(b: Bucket, rows: seq<TypeRow>, window: seq<Event>, u: UserId)
    requires GroupsExact(rows, window) && UserExact(b, RowsOf(rows, u))
    ensures u in Users(window) && Bounds(Times(window, u), b.first, b.last)
  {
    var lo :| lo in RowsOf(rows, u) && lo.first == b.first;
    var hi :| hi in RowsOf(rows, u) && hi.last == b.last;
    assert GroupExact(lo, window) && GroupExact(hi, window);
    var x :| x in window && x.user == u && x.kind == lo.kind && x.at == lo.first;
    var y :| y in window && y.user == u && y.kind == hi.kind && y.at == hi.last;
    forall t | t in Times(window, u)
      ensures b.first <= t <= b.last
    {
      var e :| e in window && e.user == u && e.at == t;
      assert HasGroup(rows, u, e.kind);
      var j :| 0 <= j < |rows| && rows[j].user == u && rows[j].kind == e.kind;
      assert rows[j] in RowsOf(rows, u) && GroupExact(rows[j], window);
      assert t in GroupTimes(window, u, e.kind);
    }
  }

  lemma EveryUserHasARow(window: seq<Event>, u: UserId)
    ensures HasUser(Rolled(PerType(window)), u) <==> u in Users(window)
  {
    var rows := PerType(window);
    PerTypeIsExact(window);
    RolledIsExact(rows);
    if i :| 0 <= i < |Rolled(rows)| && Rolled(rows)[i].user == u {
      TwoStagesEqualDirect(window, i);
    }
    if u in Users(window) {
      var e :| e in window && e.user == u;
      var j := GroupIndex(rows, e.user, e.kind);
      assert HasGroup(rows, e.user, e.kind) && rows[j] in rows;
    }
  }

  // ---------------------------------------------------------------- the upsert

  lemma LastIsNew(rolled: seq<UserRow>)
    requires rolled != [] && DistinctUsers(rolled)
    ensures var before, last := rolled[..|rolled| - 1], rolled[|rolled| - 1].user;
            && DistinctUsers(before) && !HasUser(before, last)
            && forall user :: HasUser(rolled, user) <==> HasUser(before, user) || user == last
  {
    var n := |rolled| - 1;
    forall user
      ensures HasUser(rolled, user) <==> HasUser(rolled[..n], user) || user == rolled[n].user
    {
      if i :| 0 <= i < n && rolled[i].user == user { assert rolled[..n][i].user == user; }
    }
  }

  lemma {:induction false} UpsertWrites(buckets: Buckets, start: int, rolled: seq<UserRow>)
    requires DistinctUsers(rolled)
    ensures var after := Upsert(buckets, start, rolled);
            && (forall i | 0 <= i < |rolled| ::
                  (rolled[i].user, start) in after && after[(rolled[i].user, start)] == rolled[i].bucket)
            && (forall key | key in buckets :: key in after)
            && (forall key | key in after && !(key.1 == start && HasUser(rolled, key.0)) ::
                  key in buckets && after[key] == buckets[key])
  {
    if rolled != [] {
      var n := |rolled| - 1;
      var before := rolled[..n];
      UpsertWrites(buckets, start, before);
      LastIsNew(rolled);
    }
  }

  /**
   One aggregation of a window: every user with events in it gets the row a direct fold of those
   events gives, whatever row was there before, and no other row changes or appears.
   */
  lemma AggregateEqualsDirect(events: seq<Event>, buckets: Buckets, start: int, end: int)
    ensures AggregateStatement(events, buckets, start, end) == buckets + DirectRows(Between(events, start, end), start)
  {
    var window := Between(events, start, end);
    var after := AggregateStatement(events, buckets, start, end);
    var direct := DirectRows(window, start);
    forall key
      ensures key in after <==> key in buckets + direct
      ensures key in after ==> after[key] == (buckets + direct)[key]
    {
      AggregateRow(events, buckets, start, end, key);
    }
    SameMap(after, buckets + direct);
  }

  lemma SameMap<K, V>(m: map<K, V>, n: map<K, V>)
    requires (forall k | k in m :: k in n) && (forall k | k in n :: k in m)
             && forall k | k in m && k in n :: m[k] == n[k]
    ensures m == n
  {
  }

  lemma AggregateRow(events: seq<Event>, buckets: Buckets, start: int, end: int, key: (UserId, int))
    ensures var window := Between(events, start, end);
            var after := AggregateStatement(events, buckets, start, end);
            if key.1 == start && key.0 in Users(window)
            then key in after && after[key] == Direct(window, key.0)
            else (key in after <==> key in buckets) && (key in after ==> after[key] == buckets[key])
  {
    var window := Between(events, start, end);
    var rolled := Rolled(PerType(window));
    PerTypeIsExact(window);
    RolledIsExact(PerType(window));
    UpsertWrites(buckets, start, rolled);
    EveryUserHasARow(window, key.0);
    if key.1 == start && HasUser(rolled, key.0) {
      var i := UserIndex(rolled, key.0);
      TwoStagesEqualDirect(window, i);
      assert key == (rolled[i].user, start);
    }
  }

  /** Both time bounds of a row lie inside its window, and its count is the sum of its type counts. */
  lemma RowsAreInsideTheWindow(events: seq<Event>, buckets: Buckets, start: int, end: int, user: UserId)
    requires user in Users(Between(events, start, end))
    ensures var after := AggregateStatement(events, buckets, start, end);
            && (user, start) in after
            && var b := after[(user, start)];
            && start <= b.first <= b.last < end && b.count > 0
            && b.count == Sum(b.types.Keys, CountIn(b)) && forall t | t in b.types :: b.types[t] > 0
  {
    var window := Between(events, start, end);
    AggregateRow(events, buckets, start, end, (user, start));
    DirectIsSound(window, user);
    var b := Direct(window, user);
    var lo :| lo in window && lo.user == user && lo.at == b.first;
    var hi :| hi in window && hi.user == user && hi.at == b.last;
    InBetween(events, start, end, lo);
    InBetween(events, start, end, hi);
  }

  lemma DirectIsSound(window: seq<Event>, user: UserId)
    requires user in Users(window)
    ensures var b := Direct(window, user);
            && b.count > 0 && b.count == Sum(b.types.Keys, CountIn(b))
            && b.types != map[] && (forall t | t in b.types :: b.types[t] > 0)
            && (exists e :: e in window && e.user == user && e.at == b.first)
            && (exists e :: e in window && e.user == user && e.at == b.last)
            && b.first <= b.last
  {
    var b := Direct(window, user);
    var e :| e in window && e.user == user;
    assert e.kind in Kinds(window, user);
    assert e.at in Times(window, user);
    forall t | t in b.types
      ensures b.types[t] > 0
    {
      var x :| x in window && x.user == user && x.kind == t;
      CountPositive(window, user, t);
    }
    var g := t => CountOf(window, user, t);
    assert b.types.Keys == Kinds(window, user);
    SumAgrees(b.types.Keys, CountIn(b), g);
    TotalIsSumOfCounts(window, user, b.types.Keys);
    assert e.kind in b.types && CountIn(b)(e.kind) > 0;
    SumTakes(b.types.Keys, CountIn(b), e.kind);
    SumOfNaturals(b.types.Keys - {e.kind}, CountIn(b));
    assert b.first in Times(window, user) && b.last in Times(window, user);
  }

  lemma SumOfNaturals(keys: set<string>, f: string -> int)
    requires forall k | k in keys :: f(k) >= 0
    ensures Sum(keys, f) >= 0
  {
    SumGrows(keys, k => 0, f);
    SumOfZeros(keys, k => 0);
  }

  /** Aggregating a window again, with no new events, changes nothing. */
  lemma AggregatingAgainChangesNothing(events: seq<Event>, buckets: Buckets, start: int, end: int)
    ensures var once := AggregateStatement(events, buckets, start, end);
            AggregateStatement(events, once, start, end) == once
  {
    var once := AggregateStatement(events, buckets, start, end);
    AggregateEqualsDirect(events, buckets, start, end);
    AggregateEqualsDirect(events, once, start, end);
  }

  // ---------------------------------------------------------------- the rows affected

  function UsersOf(rolled: seq<UserRow>): set<UserId> {
    set r | r in rolled :: r.user
  }

  lemma {:induction false} RolledUsers(rolled: seq<UserRow>)
    requires DistinctUsers(rolled)
    ensures |UsersOf(rolled)| == |rolled|
    ensures forall u :: u in UsersOf(rolled) <==> HasUser(rolled, u)
  {
    if rolled != [] {
      var before, r := rolled[..|rolled| - 1], rolled[|rolled| - 1];
      assert rolled == before + [r];
      RolledUsers(before);
      assert !HasUser(before, r.user);
      assert UsersOf(rolled) == UsersOf(before) + {r.user};
    }
  }

  /** The statement touches one row for each user with events in the window. */
  lemma RowsAffected(window: seq<Event>)
    ensures |Rolled(PerType(window))| == |Users(window)|
  {
    var rolled := Rolled(PerType(window));
    PerTypeIsExact(window);
    RolledIsExact(PerType(window));
    RolledUsers(rolled);
    forall u
      ensures u in UsersOf(rolled) <==> u in Users(window)
    {
      EveryUserHasARow(window, u);
    }
    assert UsersOf(rolled) == Users(window);
  }
}
