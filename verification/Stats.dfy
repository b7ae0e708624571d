/** The statistics queries: bucket rows of a range, and days rolled up from those rows. */
module Stats {
  import opened Sums
  import opened Windows
  import opened Aggregation

  datatype Day = Day(count: int, types: map<string, int>)

  // ---------------------------------------------------------------- the queries

  /** Starts of the user's rows with `from <= bucket_start < to`. */
  ghost function InRange(buckets: Buckets, user: UserId, from: int, to: int): (starts: set<int>)
    ensures forall b :: b in starts <==> (user, b) in buckets && from <= b < to
  {
    set key | key in buckets && key.0 == user && from <= key.1 < to :: key.1
  }

  ghost function OnDay(buckets: Buckets, user: UserId, from: int, to: int, day: int): set<int> {
    set b | b in InRange(buckets, user, from, to) && BucketStart(b, DAY) == day
  }

  /** One row per type of each bucket, grouped by day and type, and summed. */
  ghost function PerDayType(buckets: Buckets, user: UserId, from: int, to: int): map<(int, string), int> {
    map k | k in (set b, t | b in InRange(buckets, user, from, to) && t in buckets[(user, b)].types ::
                    (BucketStart(b, DAY), t))
      :: Sum((set b | b in OnDay(buckets, user, from, to, k.0) && k.1 in buckets[(user, b)].types),
             Counted(buckets, user, k.1))
  }

  /** What the user's row that starts at `b` counts for the type, and in all. */
  ghost function Counted(buckets: Buckets, user: UserId, kind: string): int -> int {
    b => CountAt(buckets, user, kind, b)
  }

  ghost function CountAt(buckets: Buckets, user: UserId, kind: string, b: int): int {
    if (user, b) in buckets then TypeCount(buckets[(user, b)], kind) else 0
  }

  ghost function CountedInAll(buckets: Buckets, user: UserId): int -> int {
    b => if (user, b) in buckets then buckets[(user, b)].count else 0
  }

  ghost function TypesOn(perDay: map<(int, string), int>, day: int): set<string> {
    set k | k in perDay && k.0 == day :: k.1
  }

  ghost function Entry(perDay: map<(int, string), int>, day: int): string -> int {
    t => if (day, t) in perDay then perDay[(day, t)] else 0
  }

  ghost function Daily(buckets: Buckets, user: UserId, from: int, to: int): map<int, Day> {
    var perDay := PerDayType(buckets, user, from, to);
    map d | d in (set k | k in perDay :: k.0) :: DayFrom(perDay, d)
  }

  ghost function DayFrom(perDay: map<(int, string), int>, day: int): Day {
    Day(Sum(TypesOn(perDay, day), Entry(perDay, day)), map t | t in TypesOn(perDay, day) :: Entry(perDay, day)(t))
  }

  // ---------------------------------------------------------------- days agree with buckets

  /** Every stored row counts something, and its count is the sum of its type counts. */
  ghost predicate RowsSound(buckets: Buckets) {
    forall key | key in buckets ::
      buckets[key].types != map[] && buckets[key].count == Sum(buckets[key].types.Keys, CountIn(buckets[key]))
  }

  lemma EntryIsSum(buckets: Buckets, user: UserId, from: int, to: int, day: int, kind: string)
    ensures var perDay := PerDayType(buckets, user, from, to);
            Entry(perDay, day)(kind) == Sum(OnDay(buckets, user, from, to, day), Counted(buckets, user, kind))
  {
    var perDay := PerDayType(buckets, user, from, to);
    var all := OnDay(buckets, user, from, to, day);
    var some := set b | b in all && kind in buckets[(user, b)].types;
    forall b | b in all - some
      ensures Counted(buckets, user, kind)(b) == 0
    {
      assert b in InRange(buckets, user, from, to) && kind !in buckets[(user, b)].types;
    }
    SumIgnoresZeros(some, all, Counted(buckets, user, kind));
    PerDayKeys(buckets, user, from, to, day, kind);
    if (day, kind) !in perDay { assert some == {}; }
  }

  lemma PerDayKeys(buckets: Buckets, user: UserId, from: int, to: int, day: int, kind: string)
    ensures (day, kind) in PerDayType(buckets, user, from, to) <==>
              exists b :: b in OnDay(buckets, user, from, to, day) && kind in buckets[(user, b)].types
  {
    var perDay := PerDayType(buckets, user, from, to);
    if b :| b in OnDay(buckets, user, from, to, day) && kind in buckets[(user, b)].types {
      assert (BucketStart(b, DAY), kind) in perDay;
    }
  }

  lemma DayIsListed(buckets: Buckets, user: UserId, from: int, to: int, day: int)
    requires RowsSound(buckets)
    ensures day in Daily(buckets, user, from, to) <==> OnDay(buckets, user, from, to, day) != {}
  {
    var perDay := PerDayType(buckets, user, from, to);
    if b :| b in OnDay(buckets, user, from, to, day) {
      assert buckets[(user, b)].types != map[];
      var t :| t in buckets[(user, b)].types;
      assert (day, t) in perDay;
    }
    if day in Daily(buckets, user, from, to) {
      var k :| k in perDay && k.0 == day;
      var b :| b in InRange(buckets, user, from, to) && BucketStart(b, DAY) == day && k.1 in buckets[(user, b)].types;
      assert b in OnDay(buckets, user, from, to, day);
    }
  }

  /** The total of a day is the total of its bucket rows. */
  lemma DayTotal(buckets: Buckets, user: UserId, from: int, to: int, day: int)
    requires RowsSound(buckets)
    ensures var perDay := PerDayType(buckets, user, from, to);
            Sum(TypesOn(perDay, day), Entry(perDay, day))
              == Sum(OnDay(buckets, user, from, to, day), CountedInAll(buckets, user))
  {
    var perDay := PerDayType(buckets, user, from, to);
    var types, rows := TypesOn(perDay, day), OnDay(buckets, user, from, to, day);
    DayByType(buckets, user, from, to, day);
    SumSwaps(types, rows, Cell(buckets, user));
    DayByRow(buckets, user, from, to, day);
  }

  ghost function Cell(buckets: Buckets, user: UserId): (string, int) -> int {
    (t, b) => CountAt(buckets, user, t, b)
  }

  lemma DayByType(buckets: Buckets, user: UserId, from: int, to: int, day: int)
    ensures var perDay, rows := PerDayType(buckets, user, from, to), OnDay(buckets, user, from, to, day);
            Sum(TypesOn(perDay, day), Entry(perDay, day))
              == Sum(TypesOn(perDay, day), RowSums(rows, Cell(buckets, user)))
  {
    var perDay, rows := PerDayType(buckets, user, from, to), OnDay(buckets, user, from, to, day);
    var f := Cell(buckets, user);
    forall t | t in TypesOn(perDay, day)
      ensures Entry(perDay, day)(t) == RowSums(rows, f)(t)
    {
      EntryIsSum(buckets, user, from, to, day, t);
      SumAgrees(rows, Counted(buckets, user, t), At(t, f));
    }
    SumAgrees(TypesOn(perDay, day), Entry(perDay, day), RowSums(rows, f));
  }

  lemma DayByRow(buckets: Buckets, user: UserId, from: int, to: int, day: int)
    requires RowsSound(buckets)
    ensures var types, rows := TypesOn(PerDayType(buckets, user, from, to), day), OnDay(buckets, user, from, to, day);
            Sum(rows, ColumnSums(types, Cell(buckets, user))) == Sum(rows, CountedInAll(buckets, user))
  {
    var types, rows := TypesOn(PerDayType(buckets, user, from, to), day), OnDay(buckets, user, from, to, day);
    forall b | b in rows
      ensures ColumnSums(types, Cell(buckets, user))(b) == CountedInAll(buckets, user)(b)
    {
      CellsOfRow(buckets, user, types, b);
      RowTotal(buckets, user, from, to, b);
    }
    SumAgrees(rows, ColumnSums(types, Cell(buckets, user)), CountedInAll(buckets, user));
  }

  lemma CellsOfRow(buckets: Buckets, user: UserId, types: set<string>, b: int)
    requires (user, b) in buckets
    ensures ColumnSums(types, Cell(buckets, user))(b) == Sum(types, CountIn(buckets[(user, b)]))
  {
    SumAgrees(types, AtSecond(b, Cell(buckets, user)), CountIn(buckets[(user, b)]));
  }

  lemma RowTotal(buckets: Buckets, user: UserId, from: int, to: int, b: int)
    requires RowsSound(buckets) && b in InRange(buckets, user, from, to)
    ensures var types := TypesOn(PerDayType(buckets, user, from, to), BucketStart(b, DAY));
            Sum(types, CountIn(buckets[(user, b)])) == buckets[(user, b)].count
  {
    var perDay := PerDayType(buckets, user, from, to);
    var types, row := TypesOn(perDay, BucketStart(b, DAY)), buckets[(user, b)];
    forall t | t in row.types
      ensures t in types
    {
      assert (BucketStart(b, DAY), t) in perDay;
    }
    SumIgnoresZeros(row.types.Keys, types, CountIn(row));
  }

  /** The day is the rollup of the user's rows that start at `rows`, type by type and in all. */
  ghost predicate RollsUp(day: Day, buckets: Buckets, user: UserId, rows: set<int>) {
    && day.count == Sum(rows, CountedInAll(buckets, user))
    && (forall t | t in day.types :: day.types[t] == Sum(rows, Counted(buckets, user, t)))
    && (forall t :: t in day.types <==> exists b :: b in rows && (user, b) in buckets && t in buckets[(user, b)].types)
  }

  /**
   For every range the daily view and the bucket view agree: a day is listed exactly when the
   range has rows of it, its total and each of its type counts are the sums over those rows.
   */
  lemma DaysAgreeWithBuckets(buckets: Buckets, user: UserId, from: int, to: int, day: int)
    requires RowsSound(buckets)
    ensures var days, rows := Daily(buckets, user, from, to), OnDay(buckets, user, from, to, day);
            && (day in days <==> rows != {})
            && (day in days ==> RollsUp(days[day], buckets, user, rows))
  {
    DayIsListed(buckets, user, from, to, day);
    DayTotal(buckets, user, from, to, day);
    var d := DayFrom(PerDayType(buckets, user, from, to), day);
    forall t
      ensures t in d.types ==> d.types[t] == Sum(OnDay(buckets, user, from, to, day), Counted(buckets, user, t))
      ensures t in d.types
              <==> exists b ::
                b in OnDay(buckets, user, from, to, day) && (user, b) in buckets && t in buckets[(user, b)].types
    {
      TypeOfDay(buckets, user, from, to, day, t);
    }
  }

  lemma TypeOfDay(buckets: Buckets, user: UserId, from: int, to: int, day: int, t: string)
    ensures var perDay, rows := PerDayType(buckets, user, from, to), OnDay(buckets, user, from, to, day);
            && Entry(perDay, day)(t) == Sum(rows, Counted(buckets, user, t))
            && (t in TypesOn(perDay, day)
                <==> exists b :: b in rows && (user, b) in buckets && t in buckets[(user, b)].types)
  {
    EntryIsSum(buckets, user, from, to, day, t);
    PerDayKeys(buckets, user, from, to, day, t);
  }

  // ---------------------------------------------------------------- rows agree with raw events

  /** The user's row of the window at `b` is what an aggregation of that window would write now. */
  ghost predicate InSync(buckets: Buckets, events: seq<Event>, user: UserId, b: int, size: int) {
    var window := Between(events, b, b + size);
    && ((user, b) in buckets <==> user in Users(window))
    && ((user, b) in buckets ==> buckets[(user, b)] == Direct(window, user))
  }

  lemma InSyncCounts(buckets: Buckets, events: seq<Event>, user: UserId, b: int, size: int, kind: string)
    requires InSync(buckets, events, user, b, size)
    ensures var window := Between(events, b, b + size);
            && CountAt(buckets, user, kind, b) == CountOf(window, user, kind)
            && CountedInAll(buckets, user)(b) == Total(window, user)
  {
    var window := Between(events, b, b + size);
    CountPositive(window, user, kind);
    if (user, b) !in buckets {
      TotalIsSumOfCounts(window, user, {});
      assert Kinds(window, user) == {};
    }
  }

  predicate Covers(b: int, size: int, t: int) {
    b <= t < b + size
  }

  /** The window that holds `t`. */
  ghost function HomeOf(windows: set<int>, size: int, t: int): int {
    if b :| b in windows && Covers(b, size, t) then b else t + 1
  }

  /** The windows of length `size` that start at `windows` partition the instants of `[from, to)`. */
  ghost predicate Tiles(windows: set<int>, size: int, from: int, to: int) {
    && (forall b | b in windows :: from <= b && b + size <= to)
    && (forall t | from <= t < to :: HomeOf(windows, size, t) in windows && Covers(HomeOf(windows, size, t), size, t))
    && (forall b, t | b in windows && Covers(b, size, t) :: b == HomeOf(windows, size, t))
  }

  /** How many of the events that satisfy `p` each window holds. */
  ghost function PerWindow(events: seq<Event>, p: Event -> bool, size: int): int -> int {
    b => Count(events, InSpan(p, b, b + size))
  }

  ghost function Home(windows: set<int>, size: int): Event -> int {
    (e: Event) => HomeOf(windows, size, e.at)
  }

  /** Counting a span is adding up the counts of the windows that partition it. */
  lemma WindowsAddUp(events: seq<Event>, p: Event -> bool, windows: set<int>, size: int, from: int, to: int)
    requires Tiles(windows, size, from, to)
    ensures Count(events, InSpan(p, from, to)) == Sum(windows, PerWindow(events, p, size))
  {
    var span, home := InSpan(p, from, to), Home(windows, size);
    forall e | e in events && span(e)
      ensures home(e) in windows
    {
      assert home(e) == HomeOf(windows, size, e.at);
    }
    GroupsAddUp(events, span, home, windows);
    forall b | b in windows
      ensures GroupSize(events, span, home)(b) == PerWindow(events, p, size)(b)
    {
      WindowIsAGroup(events, p, windows, size, from, to, b);
    }
    SumAgrees(windows, GroupSize(events, span, home), PerWindow(events, p, size));
  }

  lemma WindowIsAGroup(events: seq<Event>, p: Event -> bool, windows: set<int>, size: int, from: int, to: int, b: int)
    requires Tiles(windows, size, from, to) && b in windows
    ensures GroupSize(events, InSpan(p, from, to), Home(windows, size))(b) == PerWindow(events, p, size)(b)
  {
    var wide, narrow, home := InSpan(p, from, to), InSpan(p, b, b + size), Home(windows, size);
    forall e
      ensures wide(e) && home(e) == b <==> narrow(e)
    {
      assert home(e) == HomeOf(windows, size, e.at);
      assert narrow(e) ==> Covers(b, size, e.at);
    }
    CountAgrees(events, InGroup(wide, home, b), narrow);
  }

  // ---------------------------------------------------------------- the rollup equals the raw count

  ghost predicate AllInSync(buckets: Buckets, events: seq<Event>, user: UserId, windows: set<int>, size: int) {
    forall b | b in windows :: InSync(buckets, events, user, b, size)
  }

  /** The user's stored rows among the windows. */
  ghost function StoredIn(buckets: Buckets, user: UserId, windows: set<int>): set<int> {
    set b | b in windows && (user, b) in buckets
  }

  /**
   When every window of a span is in sync, the user's stored rows in it add up to the user's
   events in it, by type and in all.
   */
  lemma RowsAddUpToEvents(buckets: Buckets, events: seq<Event>, user: UserId, kind: string,
                          windows: set<int>, size: int, from: int, to: int)
    requires Tiles(windows, size, from, to) && AllInSync(buckets, events, user, windows, size)
    ensures var span, rows := Between(events, from, to), StoredIn(buckets, user, windows);
            && Sum(rows, Counted(buckets, user, kind)) == CountOf(span, user, kind)
            && Sum(rows, CountedInAll(buckets, user)) == Total(span, user)
  {
    TypeAddsUp(buckets, events, user, kind, windows, size, from, to);
    TotalAddsUp(buckets, events, user, windows, size, from, to);
  }

  lemma TypeAddsUp(buckets: Buckets, events: seq<Event>, user: UserId, kind: string,
                   windows: set<int>, size: int, from: int, to: int)
    requires Tiles(windows, size, from, to) && AllInSync(buckets, events, user, windows, size)
    ensures Sum(StoredIn(buckets, user, windows), Counted(buckets, user, kind))
            == CountOf(Between(events, from, to), user, kind)
  {
    var p := OfKind(user, kind);
    WindowsAddUp(events, p, windows, size, from, to);
    WindowCounts(events, from, to, user, kind);
    forall b | b in windows
      ensures Counted(buckets, user, kind)(b) == PerWindow(events, p, size)(b)
    {
      InSyncCounts(buckets, events, user, b, size, kind);
      WindowCounts(events, b, b + size, user, kind);
    }
    SumAgrees(windows, Counted(buckets, user, kind), PerWindow(events, p, size));
    SumIgnoresZeros(StoredIn(buckets, user, windows), windows, Counted(buckets, user, kind));
  }

  lemma TotalAddsUp(buckets: Buckets, events: seq<Event>, user: UserId, windows: set<int>, size: int,
                    from: int, to: int)
    requires Tiles(windows, size, from, to) && AllInSync(buckets, events, user, windows, size)
    ensures Sum(StoredIn(buckets, user, windows), CountedInAll(buckets, user)) == Total(Between(events, from, to), user)
  {
    var p := OfUser(user);
    WindowsAddUp(events, p, windows, size, from, to);
    WindowCounts(events, from, to, user, "");
    forall b | b in windows
      ensures CountedInAll(buckets, user)(b) == PerWindow(events, p, size)(b)
    {
      InSyncCounts(buckets, events, user, b, size, "");
      WindowCounts(events, b, b + size, user, "");
    }
    SumAgrees(windows, CountedInAll(buckets, user), PerWindow(events, p, size));
    SumIgnoresZeros(StoredIn(buckets, user, windows), windows, CountedInAll(buckets, user));
  }

  /** The day is a direct count of these raw events of the user. */
  ghost predicate CountsRaw(day: Day, raw: seq<Event>, user: UserId) {
    day.count == Total(raw, user) && forall t :: TypeCountsRaw(day, raw, user, t)
  }

  ghost predicate TypeCountsRaw(day: Day, raw: seq<Event>, user: UserId, t: string) {
    if t in Kinds(raw, user) then t in day.types && day.types[t] == CountOf(raw, user, t) else t !in day.types
  }

  lemma DayEqualsRaw(buckets: Buckets, events: seq<Event>, user: UserId, rows: set<int>, day: Day,
                     windows: set<int>, size: int, from: int, to: int)
    requires Tiles(windows, size, from, to) && AllInSync(buckets, events, user, windows, size)
    requires rows == StoredIn(buckets, user, windows) && RollsUp(day, buckets, user, rows)
    ensures CountsRaw(day, Between(events, from, to), user)
  {
    TotalAddsUp(buckets, events, user, windows, size, from, to);
    forall t
      ensures TypeCountsRaw(day, Between(events, from, to), user, t)
    {
      DayTypeEqualsRaw(buckets, events, user, rows, day, windows, size, from, to, t);
    }
  }

  lemma DayTypeEqualsRaw(buckets: Buckets, events: seq<Event>, user: UserId, rows: set<int>, day: Day,
                         windows: set<int>, size: int, from: int, to: int, t: string)
    requires Tiles(windows, size, from, to) && AllInSync(buckets, events, user, windows, size)
    requires rows == StoredIn(buckets, user, windows) && RollsUp(day, buckets, user, rows)
    ensures TypeCountsRaw(day, Between(events, from, to), user, t)
  {
    KindsAgree(buckets, events, user, windows, size, from, to, t);
    TypeAddsUp(buckets, events, user, t, windows, size, from, to);
  }

  lemma KindsAgree(buckets: Buckets, events: seq<Event>, user: UserId, windows: set<int>, size: int, from: int,
                   to: int, t: string)
    requires Tiles(windows, size, from, to) && AllInSync(buckets, events, user, windows, size)
    ensures (exists b :: b in StoredIn(buckets, user, windows) && (user, b) in buckets && t in buckets[(user, b)].types)
              <==> t in Kinds(Between(events, from, to), user)
  {
    var raw := Between(events, from, to);
    if t in Kinds(raw, user) {
      var e :| e in raw && e.user == user && e.kind == t;
      var b := RowOfEvent(buckets, events, user, windows, size, from, to, e);
      InSyncKinds(buckets, events, user, b, size, t);
    }
    if b :| b in StoredIn(buckets, user, windows) && (user, b) in buckets && t in buckets[(user, b)].types {
      InSyncKinds(buckets, events, user, b, size, t);
      var e :| e in Between(events, b, b + size) && e.user == user && e.kind == t;
      InWindowInSpan(events, b, size, from, to, e);
    }
  }

  lemma InWindowInSpan(events: seq<Event>, b: int, size: int, from: int, to: int, e: Event)
    requires from <= b && b + size <= to && e in Between(events, b, b + size)
    ensures e in Between(events, from, to)
  {
    InBetween(events, b, b + size, e);
    InBetween(events, from, to, e);
  }

  lemma InSyncKinds(buckets: Buckets, events: seq<Event>, user: UserId, b: int, size: int, t: string)
    requires InSync(buckets, events, user, b, size)
    ensures (user, b) in buckets && t in buckets[(user, b)].types <==> t in Kinds(Between(events, b, b + size), user)
  {
  }

  lemma RowsMeanEvents(buckets: Buckets, events: seq<Event>, user: UserId, windows: set<int>, size: int,
                       from: int, to: int)
    requires Tiles(windows, size, from, to) && AllInSync(buckets, events, user, windows, size)
    ensures StoredIn(buckets, user, windows) != {} <==> user in Users(Between(events, from, to))
  {
    var raw, rows := Between(events, from, to), StoredIn(buckets, user, windows);
    if user in Users(raw) {
      var e :| e in raw && e.user == user;
      var b := RowOfEvent(buckets, events, user, windows, size, from, to, e);
    }
    if rows != {} {
      var b := Pick(rows);
      var e := EventOfRow(buckets, events, user, b, size);
      InWindowInSpan(events, b, size, from, to, e);
    }
  }

  lemma EventOfRow(buckets: Buckets, events: seq<Event>, user: UserId, b: int, size: int) returns (e: Event)
    requires InSync(buckets, events, user, b, size) && (user, b) in buckets
    ensures e in Between(events, b, b + size) && e.user == user
  {
    e :| e in Between(events, b, b + size) && e.user == user;
  }

  /** The row that counts an event of the span. */
  lemma RowOfEvent(buckets: Buckets, events: seq<Event>, user: UserId, windows: set<int>, size: int, from: int,
                   to: int, e: Event)
    returns (b: int)
    requires Tiles(windows, size, from, to) && AllInSync(buckets, events, user, windows, size)
    requires e in Between(events, from, to) && e.user == user
    ensures b in StoredIn(buckets, user, windows) && e in Between(events, b, b + size)
    ensures InSync(buckets, events, user, b, size)
  {
    b := HomeOf(windows, size, e.at);
    InBetween(events, from, to, e);
    assert b in windows && Covers(b, size, e.at);
    InBetween(events, b, b + size, e);
    assert InSync(buckets, events, user, b, size);
    UserHasRow(buckets, events, user, b, size, e);
  }

  lemma UserHasRow(buckets: Buckets, events: seq<Event>, user: UserId, b: int, size: int, e: Event)
    requires InSync(buckets, events, user, b, size) && e in Between(events, b, b + size) && e.user == user
    ensures (user, b) in buckets
  {
    assert user in Users(Between(events, b, b + size));
  }

  // ---------------------------------------------------------------- whole days

  ghost function WindowSet(from: int, last: int, size: int): (windows: set<int>)
    requires size > 0 && Aligned(from, size) && Aligned(last, size)
    ensures forall b :: b in windows <==> Aligned(b, size) && from <= b <= last
  {
    StartsAreTheAlignedInstants(from, last, size);
    set b | b in Starts(from, last, size)
  }

  lemma AlignedWindowsTile(from: int, last: int, size: int)
    requires size > 0 && Aligned(from, size) && Aligned(last, size) && from <= last
    ensures Tiles(WindowSet(from, last, size), size, from, last + size)
  {
    var windows := WindowSet(from, last, size);
    forall b, t | b in windows && Covers(b, size, t)
      ensures b == HomeOf(windows, size, t)
    {
      var home := HomeOf(windows, size, t);
      WindowOf(t, b, size);
      WindowOf(t, home, size);
    }
    forall t | from <= t < last + size
      ensures HomeOf(windows, size, t) in windows && Covers(HomeOf(windows, size, t), size, t)
    {
      CoveredByItsBucket(from, last, size, t);
      assert BucketStart(t, size) in windows && Covers(BucketStart(t, size), size, t);
    }
  }

  lemma DayBoundsAreWindowBounds(day: int, size: int)
    requires size > 0 && DAY % size == 0 && Aligned(day, DAY)
    ensures DAY >= size && Aligned(day, size) && Aligned(day + DAY, size) && Aligned(day + DAY - size, size)
  {
    WindowsDoNotStraddleMidnight(BucketStart(day, size), size, day);
    WindowOf(day, day, DAY);
    NextIsAligned(day, DAY);
    var b := BucketStart(day + DAY, size);
    WindowsDoNotStraddleMidnight(b, size, day + DAY);
    WindowOf(day + DAY, day + DAY, DAY);
    NextIsAligned(b, size);
    AlignedApart(day, day + DAY, size);
  }

  /** The windows of a UTC day. */
  ghost function DayWindows(day: int, size: int): set<int>
    requires size > 0 && DAY % size == 0 && Aligned(day, DAY)
  {
    DayBoundsAreWindowBounds(day, size);
    WindowSet(day, day + DAY - size, size)
  }

  ghost predicate RowsAligned(buckets: Buckets, user: UserId, size: int)
    requires size > 0
  {
    forall key | key in buckets && key.0 == user :: Aligned(key.1, size)
  }

  /** On a whole day inside the range, the day's rows are exactly the stored rows of its windows. */
  lemma RowsOfADay(buckets: Buckets, user: UserId, from: int, to: int, size: int, day: int)
    requires size > 0 && DAY % size == 0 && RowsAligned(buckets, user, size)
    requires Aligned(day, DAY) && from <= day && day + DAY <= to
    ensures OnDay(buckets, user, from, to, day) == StoredIn(buckets, user, DayWindows(day, size))
  {
    DayBoundsAreWindowBounds(day, size);
    forall b
      ensures b in OnDay(buckets, user, from, to, day) <==> b in StoredIn(buckets, user, DayWindows(day, size))
    {
      WindowOf(b, day, DAY);
      if (user, b) in buckets && day <= b < day + DAY {
        assert Aligned(b, size);
        AlignedApart(b, day + DAY, size);
      }
    }
  }

  /**
   When windows divide the day and every window of a whole UTC day inside the range is in sync,
   the daily view of that day is a direct count of its raw events: it is listed exactly when the
   user has any, and its total, types and type counts are theirs.
   */
  lemma DailyEqualsRaw(buckets: Buckets, events: seq<Event>, user: UserId, from: int, to: int, size: int, day: int)
    requires RowsSound(buckets) && size > 0 && DAY % size == 0 && RowsAligned(buckets, user, size)
    requires Aligned(day, DAY) && from <= day && day + DAY <= to
    requires AllInSync(buckets, events, user, DayWindows(day, size), size)
    ensures var days, raw := Daily(buckets, user, from, to), Between(events, day, day + DAY);
            && (day in days <==> user in Users(raw))
            && (day in days ==> CountsRaw(days[day], raw, user))
  {
    var windows := DayWindows(day, size);
    DayIsItsWindows(buckets, user, from, to, size, day);
    DayOfWindowsEqualsRaw(buckets, events, user, from, to, size, day, windows);
  }

  lemma DayIsItsWindows(buckets: Buckets, user: UserId, from: int, to: int, size: int, day: int)
    requires size > 0 && DAY % size == 0 && RowsAligned(buckets, user, size)
    requires Aligned(day, DAY) && from <= day && day + DAY <= to
    ensures Tiles(DayWindows(day, size), size, day, day + DAY)
    ensures OnDay(buckets, user, from, to, day) == StoredIn(buckets, user, DayWindows(day, size))
  {
    DayBoundsAreWindowBounds(day, size);
    AlignedWindowsTile(day, day + DAY - size, size);
    RowsOfADay(buckets, user, from, to, size, day);
  }

  /** The same for any windows that partition the day and hold all of its rows. */
  lemma DayOfWindowsEqualsRaw(buckets: Buckets, events: seq<Event>, user: UserId, from: int, to: int, size: int,
                              day: int, windows: set<int>)
    requires RowsSound(buckets) && Tiles(windows, size, day, day + DAY)
             && AllInSync(buckets, events, user, windows, size)
    requires OnDay(buckets, user, from, to, day) == StoredIn(buckets, user, windows)
    ensures var days, raw := Daily(buckets, user, from, to), Between(events, day, day + DAY);
            (day in days <==> user in Users(raw)) && (day in days ==> CountsRaw(days[day], raw, user))
  {
    DaysAgreeWithBuckets(buckets, user, from, to, day);
    RowsMeanEvents(buckets, events, user, windows, size, day, day + DAY);
    var days := Daily(buckets, user, from, to);
    if day in days {
      DayEqualsRaw(buckets, events, user, OnDay(buckets, user, from, to, day), days[day], windows, size,
                   day, day + DAY);
    }
  }

  // ---------------------------------------------------------------- the range of a request

  const MAX_STATS_RANGE := 90 * DAY
  const DEFAULT_STATS_WINDOW := 7 * DAY

  datatype StatsRange = Range(from: int, to: int) | InvalidTimeRange | RangeTooLarge

  /** The range the rows are read for; the zero time asks for the default. */
  function RangeFor(from: int, to: int, now: int, size: int): StatsRange
    requires size > 0
  {
    var until := if to == 0 then now else to;
    var since := if from == 0 then until - DEFAULT_STATS_WINDOW else from;
    if since >= until then InvalidTimeRange
    else if until - since > MAX_STATS_RANGE then RangeTooLarge
    else Range(BucketStart(since, size), until)
  }

  /**
   The end defaults to the clock and the beginning to seven days before the end. A range is refused
   exactly when it is empty, or else longer than ninety days.
   */
  lemma RangeAnswers(from: int, to: int, now: int, size: int)
    requires size > 0
    ensures var until := if to == 0 then now else to;
            var since := if from == 0 then until - 7 * 86_400_000_000_000 else from;
            var r := RangeFor(from, to, now, size);
            && (r.InvalidTimeRange? <==> until <= since)
            && (r.RangeTooLarge? <==> until - since > 90 * 86_400_000_000_000)
            && (r.Range? <==> 0 < until - since <= 90 * 86_400_000_000_000)
            && (r.Range? ==> r.to == until && r.from <= since < r.from + size)
  {
  }

  /**
   The rows of an accepted range miss no instant that was asked for: the window of every such
   instant starts inside the range. What they add before it is less than one window, and nothing
   when the request begins on a boundary, as every day does when windows divide it.
   */
  lemma RangeMissesNothing(from: int, to: int, now: int, size: int, t: int)
    requires size > 0 && RangeFor(from, to, now, size).Range?
    ensures var until := if to == 0 then now else to;
            var since := if from == 0 then until - DEFAULT_STATS_WINDOW else from;
            var r := RangeFor(from, to, now, size);
            && Aligned(r.from, size) && r.from <= since < r.from + size && r.to == until
            && (since <= t < until ==> r.from <= BucketStart(t, size) < r.to)
            && (Aligned(since, size) ==> r.from == since)
            && (DAY % size == 0 && Aligned(since, DAY) ==> r.from == since)
  {
    var until := if to == 0 then now else to;
    var since := if from == 0 then until - DEFAULT_STATS_WINDOW else from;
    var start := BucketStart(since, size);
    if since <= t < until && BucketStart(t, size) < start {
      AlignedApart(BucketStart(t, size), start, size);
    }
    if Aligned(since, size) { WindowOf(since, since, size); }
    if DAY % size == 0 && Aligned(since, DAY) {
      DayBoundsAreWindowBounds(since, size);
      WindowOf(since, since, size);
    }
  }
}
