/**
 The whole aggregation: ingest, the scheduler's workers and the aggregations they start, with one
 set of tables. A worker at a window starts an aggregation of it; the aggregation runs statement by
 statement beside all others; only when it has committed, and its worker has heard of it, can the
 worker record the window as succeeded. What the run log says is thereby tied to what the rows hold.
 */
module Pipeline {
  import opened Collections
  import opened Options
  import opened Sums
  import opened Windows
  import opened Aggregation
  import opened Stats
  import opened Scheduling
  import A = AggregateProtocol
  import S = SchedulerProtocol

  datatype Config = Config(size: int, backfill: int, hash: int -> int)

  function Tables(c: Config): A.Config { A.Config(c.size, c.hash) }

  function Plan(c: Config): S.Config { S.Config(c.size, c.backfill) }

  /** `calls` names the aggregation that each worker started last. */
  datatype State = State(tables: A.State, plan: S.State, calls: map<S.WorkerId, A.CallId>)

  datatype Action =
    | Ingest(event: Event)
    | Decide(plan: S.Action)
    | Work(work: A.Action)
    | Begin(p: S.WorkerId, q: A.CallId)
    | Finish(p: S.WorkerId)

  /** The window a worker is about to aggregate. */
  function AtHand(w: S.Worker): Option<int> {
    match w
    case Attempting(window, _) => Some(window)
    case Requested(window) => Some(window)
    case _ => None
  }

  /** The window a worker has aggregated and is about to record. */
  function Done(w: S.Worker): Option<int> {
    match w
    case Aggregated(window, _) => Some(window)
    case Recomputed(window) => Some(window)
    case _ => None
  }

  ghost predicate GoodConfig(c: Config) {
    S.GoodConfig(Plan(c))
  }

  ghost predicate Enabled(c: Config, s: State, a: Action)
    requires GoodConfig(c)
  {
    match a
    case Ingest(e) => S.Enabled(Plan(c), s.plan, S.Ingest(e.at))
    case Decide(plan) => !plan.Ingest? && !plan.Aggregate? && S.Enabled(Plan(c), s.plan, plan)
    case Work(work) =>
      && (work.TryLock? || work.Execute? || work.Abort? || (work.Commit? && !work.reported))
      && A.Enabled(Tables(c), s.tables, work)
    case Begin(p, q) =>
      && p in s.plan.workers && AtHand(s.plan.workers[p]).Some? && p !in s.calls
      && A.Enabled(Tables(c), s.tables, A.Invoke(q, AtHand(s.plan.workers[p]).value))
    case Finish(p) =>
      && p in s.calls && A.Enabled(Tables(c), s.tables, A.Commit(s.calls[p], true))
      && S.Enabled(Plan(c), s.plan, S.Aggregate(p))
  }

  ghost function Apply(c: Config, s: State, a: Action): State
    requires GoodConfig(c) && Enabled(c, s, a)
  {
    match a
    case Ingest(e) =>
      State(A.Apply(Tables(c), s.tables, A.Ingest([e])), S.Apply(Plan(c), s.plan, S.Ingest(e.at)), s.calls)
    case Decide(plan) => s.(plan := S.Apply(Plan(c), s.plan, plan))
    case Work(work) => s.(tables := A.Apply(Tables(c), s.tables, work))
    case Begin(p, q) =>
      s.(tables := A.Apply(Tables(c), s.tables, A.Invoke(q, AtHand(s.plan.workers[p]).value)), calls := s.calls[p := q])
    case Finish(p) =>
      State(A.Apply(Tables(c), s.tables, A.Commit(s.calls[p], true)), S.Apply(Plan(c), s.plan, S.Aggregate(p)),
            s.calls - {p})
  }

  // ---------------------------------------------------------------- the two halves agree

  /** The aggregation under way for a worker is that of the window it has at hand, unless the worker has stopped. */
  ghost predicate CallOk(s: State, p: S.WorkerId)
    requires p in s.calls
  {
    && p in s.plan.workers && s.calls[p] in s.tables.calls
    && (s.plan.workers[p].Stopped? || AtHand(s.plan.workers[p]).Some?)
    && (AtHand(s.plan.workers[p]).Some? && A.StartOf(s.tables.calls[s.calls[p]]).Some? ==>
          A.StartOf(s.tables.calls[s.calls[p]]) == AtHand(s.plan.workers[p]))
  }

  /** What has succeeded, or is about to be recorded, has been aggregated. */
  ghost predicate Agree(s: State) {
    && s.plan.succeeded <= s.tables.asOf.Keys
    && (forall p | p in s.plan.workers && Done(s.plan.workers[p]).Some? ::
          Done(s.plan.workers[p]).value in s.tables.asOf)
    && (forall p | p in s.calls :: CallOk(s, p))
  }

  ghost predicate Inv(c: Config, s: State, base: int)
    requires GoodConfig(c)
  {
    && A.Inv(Tables(c), s.tables) && A.StartsAligned(Tables(c), s.tables)
    && S.Inv(Plan(c), s.plan, base) && Agree(s)
  }

  /**
   The bounds the scheduler needs: manual runs near the watermark, no backdating before the first windows are
   done.
   */
  ghost predicate InBounds(c: Config, s: State, a: Action, base: int)
    requires GoodConfig(c)
  {
    match a
    case Ingest(e) => S.NotBackdated(Plan(c), s.plan, S.Ingest(e.at), base)
    case Decide(plan) => S.ManualInBound(Plan(c), s.plan, plan, base)
    case _ => true
  }

  lemma TablesStep(c: Config, s: State, a: Action)
    requires GoodConfig(c) && Enabled(c, s, a) && A.Inv(Tables(c), s.tables) && A.StartsAligned(Tables(c), s.tables)
    ensures A.Inv(Tables(c), Apply(c, s, a).tables) && A.StartsAligned(Tables(c), Apply(c, s, a).tables)
  {
    match a
    case Ingest(e) =>
      A.InvStep(Tables(c), s.tables, A.Ingest([e]));
      A.StartsStep(Tables(c), s.tables, A.Ingest([e]));
    case Decide(_) =>
    case Work(work) =>
      A.InvStep(Tables(c), s.tables, work);
      A.StartsStep(Tables(c), s.tables, work);
    case Begin(p, q) =>
      A.InvStep(Tables(c), s.tables, A.Invoke(q, AtHand(s.plan.workers[p]).value));
      A.StartsStep(Tables(c), s.tables, A.Invoke(q, AtHand(s.plan.workers[p]).value));
    case Finish(p) =>
      A.InvStep(Tables(c), s.tables, A.Commit(s.calls[p], true));
      A.StartsStep(Tables(c), s.tables, A.Commit(s.calls[p], true));
  }

  lemma PlanStep(c: Config, s: State, a: Action, base: int)
    requires GoodConfig(c) && Enabled(c, s, a) && S.Inv(Plan(c), s.plan, base) && InBounds(c, s, a, base)
    ensures S.Inv(Plan(c), Apply(c, s, a).plan, base)
  {
    match a
    case Ingest(e) => S.InvStep(Plan(c), s.plan, base, S.Ingest(e.at));
    case Decide(plan) => S.InvStep(Plan(c), s.plan, base, plan);
    case Finish(p) => S.InvStep(Plan(c), s.plan, base, S.Aggregate(p));
    case _ =>
  }

  /** A window, once aggregated, stays so. */
  lemma AggregatedStays(c: Config, s: State, a: Action)
    requires GoodConfig(c) && Enabled(c, s, a)
    ensures s.tables.asOf.Keys <= Apply(c, s, a).tables.asOf.Keys
  {
  }

  lemma DoneStep(c: Config, s: State, s': State, a: Action, p: S.WorkerId)
    requires GoodConfig(c) && Agree(s) && Enabled(c, s, a) && s' == Apply(c, s, a)
    requires p in s'.plan.workers && Done(s'.plan.workers[p]).Some?
    ensures Done(s'.plan.workers[p]).value in s'.tables.asOf
  {
    AggregatedStays(c, s, a);
    if a.Finish? && a.p == p {
      assert CallOk(s, p);
    } else {
      assert p in s.plan.workers && s.plan.workers[p] == s'.plan.workers[p];
    }
  }

  lemma CallStep(c: Config, s: State, s': State, a: Action, base: int, p: S.WorkerId)
    requires GoodConfig(c) && Agree(s) && S.Inv(Plan(c), s.plan, base) && Enabled(c, s, a) && s' == Apply(c, s, a)
             && p in s'.calls
    ensures CallOk(s', p)
  {
    if a.Begin? && a.p == p {
      HandIsAligned(c, s, base, p);
      AlignedIsItsOwnStart(AtHand(s.plan.workers[p]).value, c.size);
    } else {
      assert CallOk(s, p);
    }
  }

  lemma HandIsAligned(c: Config, s: State, base: int, p: S.WorkerId)
    requires GoodConfig(c) && S.Inv(Plan(c), s.plan, base) && p in s.plan.workers && AtHand(s.plan.workers[p]).Some?
    ensures Aligned(AtHand(s.plan.workers[p]).value, c.size)
  {
    var w := s.plan.workers[p];
    assert S.WorkerOk(Plan(c), s.plan, base, w);
    if w.Attempting? { S.LeftIsTodo(Plan(c), s.plan, base, w.window, w.rest); }
  }

  lemma AgreeStep(c: Config, s: State, a: Action, base: int)
    requires GoodConfig(c) && Agree(s) && S.Inv(Plan(c), s.plan, base) && Enabled(c, s, a)
    ensures Agree(Apply(c, s, a))
  {
    var s' := Apply(c, s, a);
    AggregatedStays(c, s, a);
    forall w | w in s'.plan.succeeded
      ensures w in s'.tables.asOf.Keys
    {
      if w !in s.plan.succeeded { assert a.Decide? && a.plan.Record? && Done(s.plan.workers[a.plan.p]) == Some(w); }
    }
    forall p | p in s'.plan.workers && Done(s'.plan.workers[p]).Some?
      ensures Done(s'.plan.workers[p]).value in s'.tables.asOf
    {
      DoneStep(c, s, s', a, p);
    }
    forall p | p in s'.calls
      ensures CallOk(s', p)
    {
      CallStep(c, s, s', a, base, p);
    }
  }

  lemma InvStep(c: Config, s: State, a: Action, base: int)
    requires GoodConfig(c) && Inv(c, s, base) && Enabled(c, s, a) && InBounds(c, s, a, base)
    ensures Inv(c, Apply(c, s, a), base)
  {
    TablesStep(c, s, a);
    PlanStep(c, s, a, base);
    AgreeStep(c, s, a, base);
  }

  // ---------------------------------------------------------------- runs

  datatype Run = Run(states: seq<State>, actions: seq<Action>)

  ghost predicate EarliestIs(events: seq<Event>, earliest: Option<int>) {
    if earliest.None? then events == []
    else (exists e :: e in events && e.at == earliest.value) && forall e | e in events :: earliest.value <= e.at
  }

  /** Any tables that aggregations have left, a run log that agrees with them, and nothing in flight. */
  ghost predicate Starts(c: Config, s: State, base: int)
    requires GoodConfig(c)
  {
    && A.Inv(Tables(c), s.tables) && A.StartsAligned(Tables(c), s.tables) && s.tables.calls == map[]
    && s.plan.succeeded <= s.tables.asOf.Keys && s.calls == map[] && EarliestIs(s.tables.events, s.plan.earliest)
    && (S.StartsContiguous(Plan(c), s.plan, base) || S.StartsFresh(Plan(c), s.plan, base))
  }

  ghost predicate Valid(c: Config, run: Run, base: int)
    requires GoodConfig(c)
  {
    && |run.states| == |run.actions| + 1 && Starts(c, run.states[0], base)
    && forall i {:trigger run.actions[i]} | 0 <= i < |run.actions| ::
         && Enabled(c, run.states[i], run.actions[i]) && InBounds(c, run.states[i], run.actions[i], base)
         && run.states[i + 1] == Apply(c, run.states[i], run.actions[i])
  }

  lemma {:induction false} InvAlways(c: Config, run: Run, base: int, i: nat)
    requires GoodConfig(c) && Valid(c, run, base) && i < |run.states|
    ensures Inv(c, run.states[i], base)
  {
    if i > 0 {
      InvAlways(c, run, base, i - 1);
      InvStep(c, run.states[i - 1], run.actions[i - 1], base);
    } else {
      StartsInv(c, run.states[0], base);
    }
  }

  lemma StartsInv(c: Config, s: State, base: int)
    requires GoodConfig(c) && Starts(c, s, base)
    ensures Inv(c, s, base)
  {
    if S.StartsFresh(Plan(c), s.plan, base) { WindowOf(s.plan.earliest.value, base, c.size); }
  }

  // ---------------------------------------------------------------- what the watermark is worth

  /** The windows from the first one up to the watermark. */
  ghost function Covered(c: Config, s: State, base: int): (windows: set<int>)
    requires GoodConfig(c) && s.plan.succeeded != {}
    ensures forall b :: b in windows <==> Aligned(b, c.size) && base <= b <= S.Watermark(s.plan.succeeded).value
  {
    set b | base <= b <= S.Watermark(s.plan.succeeded).value && Aligned(b, c.size)
  }

  ghost function CoveredSpan(c: Config, s: State, base: int): seq<Event>
    requires GoodConfig(c) && s.plan.succeeded != {}
  {
    Between(s.tables.events, base, S.Watermark(s.plan.succeeded).value + c.size)
  }

  /** An event of the user came into a window after the last aggregation of the window had read its events. */
  ghost predicate IsLate(c: Config, s: State, user: UserId, b: int, k: int) {
    b in s.tables.asOf && s.tables.asOf[b] <= k < |s.tables.events| && A.LateFor(Tables(c), s.tables, user, b, k)
  }

  ghost predicate NothingLate(c: Config, s: State, user: UserId, windows: set<int>) {
    forall b, k | b in windows :: !IsLate(c, s, user, b, k)
  }

  /** Every window from the first one up to the watermark has been aggregated, and they partition the span. */
  lemma WindowsAreAggregated(c: Config, s: State, base: int)
    requires GoodConfig(c) && Inv(c, s, base) && s.plan.succeeded != {}
    ensures forall b | b in Covered(c, s, base) :: b in s.tables.asOf && s.tables.asOf[b] <= |s.tables.events|
    ensures Tiles(Covered(c, s, base), c.size, base, S.Watermark(s.plan.succeeded).value + c.size)
  {
    var top := S.Watermark(s.plan.succeeded).value;
    assert S.Contiguous(s.plan.succeeded, base, c.size);
    assert top in s.plan.succeeded && base <= top;
    AlignedWindowsTile(base, top, c.size);
    SameSet(Covered(c, s, base), WindowSet(base, top, c.size));
  }

  /** The row of a window counts the events that its last aggregation had seen. */
  lemma RowCountsWhatItSaw(c: Config, s: State, user: UserId, b: int)
    requires A.Inv(Tables(c), s.tables) && b in s.tables.asOf
    ensures s.tables.asOf[b] <= |s.tables.events|
    ensures CountedInAll(s.tables.buckets, user)(b)
            == Total(A.Window(Tables(c), s.tables.events[..s.tables.asOf[b]], b), user)
  {
    assert A.RowOk(Tables(c), s.tables, (user, b));
    NoRowNoEvents(A.Window(Tables(c), s.tables.events[..s.tables.asOf[b]], b), user);
  }

  /** It never counts more than the window holds, and all of it exactly if nothing is late. */
  lemma RowFallsShortIfLate(c: Config, s: State, user: UserId, b: int)
    requires A.Inv(Tables(c), s.tables) && b in s.tables.asOf
    ensures var counted, all := CountedInAll(s.tables.buckets, user)(b),
            Total(Between(s.tables.events, b, b + c.size), user);
            counted <= all && (counted == all <==> forall k :: !IsLate(c, s, user, b, k))
  {
    var t := s.tables;
    RowCountsWhatItSaw(c, s, user, b);
    if k :| IsLate(c, s, user, b, k) {
      A.LateEventCounts(Tables(c), t.events, t.asOf[b], k, user, b);
    } else {
      forall k | t.asOf[b] <= k < |t.events|
        ensures !(t.events[k].user == user && b <= t.events[k].at < b + c.size)
      {
        assert !IsLate(c, s, user, b, k);
      }
      A.NoLateCounts(Tables(c), t.events, t.asOf[b], user, b, "");
    }
  }

  lemma NoRowNoEvents(window: seq<Event>, user: UserId)
    ensures user !in Users(window) ==> Total(window, user) == 0
  {
    if user !in Users(window) {
      TotalIsSumOfCounts(window, user, {});
      assert Kinds(window, user) == {};
    }
  }

  /**
   In every state of every run, the user's rows from the first window up to the watermark never
   count more than the user's events of that span, and count them all exactly when no event came
   into one of the windows after its last aggregation had read.
   */
  lemma RowsAddUpToTheWatermark(c: Config, run: Run, base: int, i: nat, user: UserId)
    requires GoodConfig(c) && Valid(c, run, base) && i < |run.states| && run.states[i].plan.succeeded != {}
    ensures var s := run.states[i];
            var windows, span := Covered(c, s, base), CoveredSpan(c, s, base);
            var counted := Sum(StoredIn(s.tables.buckets, user, windows), CountedInAll(s.tables.buckets, user));
            counted <= Total(span, user) && (counted == Total(span, user) <==> NothingLate(c, s, user, windows))
  {
    var s := run.states[i];
    InvAlways(c, run, base, i);
    WindowsAreAggregated(c, s, base);
    TotalsCompare(c, s, base, user);
  }

  lemma TotalsCompare(c: Config, s: State, base: int, user: UserId)
    requires GoodConfig(c) && Inv(c, s, base) && s.plan.succeeded != {}
    requires forall b | b in Covered(c, s, base) :: b in s.tables.asOf
    requires Tiles(Covered(c, s, base), c.size, base, S.Watermark(s.plan.succeeded).value + c.size)
    ensures var windows, span := Covered(c, s, base), CoveredSpan(c, s, base);
            var counted := Sum(StoredIn(s.tables.buckets, user, windows), CountedInAll(s.tables.buckets, user));
            counted <= Total(span, user) && (counted == Total(span, user) <==> NothingLate(c, s, user, windows))
  {
    var windows := Covered(c, s, base);
    var counted, all := CountedInAll(s.tables.buckets, user), PerWindow(s.tables.events, OfUser(user), c.size);
    StoredRowsAreAll(s.tables.buckets, user, windows);
    SpanIsItsWindows(c, s, base, user);
    WindowsCompare(c, s, user, windows);
    SumsCompare(windows, counted, all);
  }

  lemma StoredRowsAreAll(buckets: Buckets, user: UserId, windows: set<int>)
    ensures Sum(StoredIn(buckets, user, windows), CountedInAll(buckets, user))
            == Sum(windows, CountedInAll(buckets, user))
  {
    SumIgnoresZeros(StoredIn(buckets, user, windows), windows, CountedInAll(buckets, user));
  }

  lemma WindowsCompare(c: Config, s: State, user: UserId, windows: set<int>)
    requires A.Inv(Tables(c), s.tables) && forall b | b in windows :: b in s.tables.asOf
    ensures var counted, all := CountedInAll(s.tables.buckets, user), PerWindow(s.tables.events, OfUser(user), c.size);
            && (forall b | b in windows :: counted(b) <= all(b))
            && ((forall b | b in windows :: counted(b) == all(b)) <==> NothingLate(c, s, user, windows))
  {
    var counted, all := CountedInAll(s.tables.buckets, user), PerWindow(s.tables.events, OfUser(user), c.size);
    forall b | b in windows
      ensures counted(b) <= all(b) && (counted(b) == all(b) <==> forall k :: !IsLate(c, s, user, b, k))
    {
      RowFallsShortIfLate(c, s, user, b);
      WindowCounts(s.tables.events, b, b + c.size, user, "");
    }
  }

  lemma SpanIsItsWindows(c: Config, s: State, base: int, user: UserId)
    requires GoodConfig(c) && s.plan.succeeded != {}
    requires Tiles(Covered(c, s, base), c.size, base, S.Watermark(s.plan.succeeded).value + c.size)
    ensures Total(CoveredSpan(c, s, base), user)
            == Sum(Covered(c, s, base), PerWindow(s.tables.events, OfUser(user), c.size))
  {
    var end := S.Watermark(s.plan.succeeded).value + c.size;
    WindowsAddUp(s.tables.events, OfUser(user), Covered(c, s, base), c.size, base, end);
    WindowCounts(s.tables.events, base, end, user, "");
  }

  /** When nothing came in late, the counts agree type by type as well. */
  lemma TypesAddUpToTheWatermark(c: Config, run: Run, base: int, i: nat, user: UserId, kind: string)
    requires GoodConfig(c) && Valid(c, run, base) && i < |run.states| && run.states[i].plan.succeeded != {}
    requires NothingLate(c, run.states[i], user, Covered(c, run.states[i], base))
    ensures var s := run.states[i]; var rows := StoredIn(s.tables.buckets, user, Covered(c, s, base));
            Sum(rows, Counted(s.tables.buckets, user, kind)) == CountOf(CoveredSpan(c, s, base), user, kind)
  {
    InvAlways(c, run, base, i);
    CoveredIsInSync(c, run.states[i], base, user);
    TypesAddUp(c, run.states[i], base, user, kind);
  }

  lemma TypesAddUp(c: Config, s: State, base: int, user: UserId, kind: string)
    requires GoodConfig(c) && s.plan.succeeded != {}
    requires Tiles(Covered(c, s, base), c.size, base, S.Watermark(s.plan.succeeded).value + c.size)
    requires AllInSync(s.tables.buckets, s.tables.events, user, Covered(c, s, base), c.size)
    ensures Sum(StoredIn(s.tables.buckets, user, Covered(c, s, base)), Counted(s.tables.buckets, user, kind))
            == CountOf(CoveredSpan(c, s, base), user, kind)
  {
    var windows, end := Covered(c, s, base), S.Watermark(s.plan.succeeded).value + c.size;
    var rows, span := StoredIn(s.tables.buckets, user, windows), CoveredSpan(c, s, base);
    assert span == Between(s.tables.events, base, end);
    TypeAddsUp(s.tables.buckets, s.tables.events, user, kind, windows, c.size, base, end);
    assert Sum(rows, Counted(s.tables.buckets, user, kind)) == CountOf(span, user, kind);
  }

  lemma CoveredIsInSync(c: Config, s: State, base: int, user: UserId)
    requires GoodConfig(c) && Inv(c, s, base) && s.plan.succeeded != {}
    requires NothingLate(c, s, user, Covered(c, s, base))
    ensures Tiles(Covered(c, s, base), c.size, base, S.Watermark(s.plan.succeeded).value + c.size)
    ensures AllInSync(s.tables.buckets, s.tables.events, user, Covered(c, s, base), c.size)
  {
    WindowsAreAggregated(c, s, base);
    CoveredIsUpToDate(c, s, base, user);
    A.UpToDateIsInSync(Tables(c), s.tables, user, Covered(c, s, base));
  }

  /** And every whole UTC day of the span reads as a direct count of its raw events. */
  lemma DaysUpToTheWatermarkAreRaw(c: Config, run: Run, base: int, i: nat, user: UserId, from: int, to: int, day: int)
    requires GoodConfig(c) && Valid(c, run, base) && i < |run.states| && run.states[i].plan.succeeded != {}
    requires NothingLate(c, run.states[i], user, Covered(c, run.states[i], base))
    requires DAY % c.size == 0 && Aligned(day, DAY) && from <= day && day + DAY <= to
    requires base <= day && day + DAY <= S.Watermark(run.states[i].plan.succeeded).value + c.size
    ensures var t := run.states[i].tables;
            var days, raw := Daily(t.buckets, user, from, to), Between(t.events, day, day + DAY);
            (day in days <==> user in Users(raw)) && (day in days ==> CountsRaw(days[day], raw, user))
  {
    var s := run.states[i];
    InvAlways(c, run, base, i);
    WindowsAreAggregated(c, s, base);
    CoveredIsUpToDate(c, s, base, user);
    forall b | b in DayWindows(day, c.size)
      ensures A.UpToDate(Tables(c), s.tables, user, b)
    {
      assert b in Covered(c, s, base);
    }
    A.DayIsRaw(Tables(c), s.tables, user, from, to, day);
  }

  lemma CoveredIsUpToDate(c: Config, s: State, base: int, user: UserId)
    requires GoodConfig(c) && s.plan.succeeded != {} && NothingLate(c, s, user, Covered(c, s, base))
    requires forall b | b in Covered(c, s, base) :: b in s.tables.asOf && s.tables.asOf[b] <= |s.tables.events|
    ensures forall b | b in Covered(c, s, base) :: A.UpToDate(Tables(c), s.tables, user, b)
  {
    forall b, k | b in Covered(c, s, base) && s.tables.asOf[b] <= k < |s.tables.events|
      ensures !A.LateFor(Tables(c), s.tables, user, b, k)
    {
      assert !IsLate(c, s, user, b, k);
    }
  }

  /**
   When no window is pending, the watermark is at the newest closed window, and the span ends where the open
   one begins.
   */
  lemma NothingPendingMeansAllClosed(c: Config, run: Run, base: int, i: nat)
    requires GoodConfig(c) && Valid(c, run, base) && i < |run.states| && run.states[i].plan.succeeded != {}
    ensures var s := run.states[i].plan; var top := S.Watermark(s.succeeded);
            (Pending(top, s.earliest, s.now, c.size, c.backfill) == [])
            <==> BucketStart(s.now, c.size) <= top.value + c.size
  {
    InvAlways(c, run, base, i);
    var s := run.states[i].plan;
    var from := S.Watermark(s.succeeded).value + c.size;
    NextIsAligned(from - c.size, c.size);
    NewestIsClosed(s.now, c.size);
    AlignedIsItsOwnStart(from, c.size);
    AlignedIsItsOwnStart(NewestClosed(s.now, c.size), c.size);
    AlignedApartOrSame(from, NewestClosed(s.now, c.size), c.size);
  }

  lemma AlignedApartOrSame(a: int, b: int, size: int)
    requires size > 0 && Aligned(a, size) && Aligned(b, size)
    ensures a > b <==> a >= b + size
  {
    if a > b { AlignedApart(b, a, size); }
  }
}
