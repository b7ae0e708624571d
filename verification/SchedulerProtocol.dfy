/**
 Scheduled passes by any number of workers, manual runs, ingest and the clock, interleaved.

 A pass reads the clock, then the watermark, then, only if nothing has succeeded yet, the earliest
 event; it works through the windows it found pending and stops at the first one that does not
 succeed. A success reaches the run log only after its aggregation has committed, and a worker can
 stop anywhere: by failing, by skipping a locked window, by being refused, or by crashing.
 */
module SchedulerProtocol {
  import opened Collections
  import opened Options
  import opened Sums
  import opened Windows
  import opened Scheduling

  type WorkerId = int

  datatype Config = Config(size: int, backfill: int)

  datatype Worker =
    | Started(newest: int)
    | NothingYet(newest: int)
    | Running(todo: seq<int>)
    | Attempting(window: int, rest: seq<int>)
    | Aggregated(window: int, rest: seq<int>)
    | Requested(window: int)
    | Recomputed(window: int)
    | Stopped

  /** `succeeded` are the windows with a successful run, `earliest` the time of the earliest event. */
  datatype State = State(now: int, earliest: Option<int>, succeeded: set<int>, workers: map<WorkerId, Worker>)

  datatype Action =
    | Tick(now: int)
    | Ingest(at: int)
    | StartPass(p: WorkerId)
    | ReadWatermark(p: WorkerId)
    | ReadEarliest(p: WorkerId)
    | RequestManual(p: WorkerId, at: int)
    | Attempt(p: WorkerId)
    | Aggregate(p: WorkerId)
    | Record(p: WorkerId)
    | Stop(p: WorkerId)

  ghost predicate GoodConfig(c: Config) {
    c.size > 0 && c.backfill > 0
  }

  ghost function Watermark(succeeded: set<int>): (last: Option<int>)
    ensures last.Some? <==> succeeded != {}
    ensures last.Some? ==> last.value in succeeded && forall w | w in succeeded :: w <= last.value
  {
    if succeeded == {} then None else Some(Max(succeeded))
  }

  /** Ingest admits only events near the clock, so never one of the first window of year 1. */
  ghost predicate Enabled(c: Config, s: State, a: Action)
    requires GoodConfig(c)
  {
    match a
    case Tick(_) => true
    case Ingest(at) => at >= c.size
    case StartPass(p) => p !in s.workers
    case ReadWatermark(p) => p in s.workers && s.workers[p].Started?
    case ReadEarliest(p) => p in s.workers && s.workers[p].NothingYet?
    case RequestManual(p, at) => p !in s.workers && Target(at, s.now, c.size) + c.size <= s.now
    case Attempt(p) =>
      && p in s.workers && s.workers[p].Running? && s.workers[p].todo != []
      && Target(s.workers[p].todo[0], s.now, c.size) + c.size <= s.now
    case Aggregate(p) => p in s.workers && (s.workers[p].Requested? || s.workers[p].Attempting?)
    case Record(p) => p in s.workers && (s.workers[p].Recomputed? || s.workers[p].Aggregated?)
    case Stop(p) => p in s.workers
  }

  ghost function AfterWatermark(c: Config, s: State, w: Worker): Worker
    requires GoodConfig(c) && w.Started?
  {
    var last := Watermark(s.succeeded);
    if last.None? then NothingYet(w.newest)
    else Running(Limited(Backlog(last.value + c.size, w.newest, c.size), c.backfill))
  }

  ghost function AfterEarliest(c: Config, s: State, w: Worker): Worker
    requires GoodConfig(c) && w.NothingYet?
  {
    if s.earliest.None? then Stopped
    else Running(Limited(Backlog(BucketStart(s.earliest.value, c.size), w.newest, c.size), c.backfill))
  }

  ghost function Apply(c: Config, s: State, a: Action): State
    requires GoodConfig(c) && Enabled(c, s, a)
  {
    match a
    case Tick(now) => s.(now := now)
    case Ingest(at) => s.(earliest := if s.earliest.Some? && s.earliest.value <= at then s.earliest else Some(at))
    case StartPass(p) => s.(workers := s.workers[p := Started(NewestClosed(s.now, c.size))])
    case ReadWatermark(p) => s.(workers := s.workers[p := AfterWatermark(c, s, s.workers[p])])
    case ReadEarliest(p) => s.(workers := s.workers[p := AfterEarliest(c, s, s.workers[p])])
    case RequestManual(p, at) => s.(workers := s.workers[p := Requested(Target(at, s.now, c.size))])
    case Attempt(p) =>
      var todo := s.workers[p].todo;
      s.(workers := s.workers[p := Attempting(Target(todo[0], s.now, c.size), todo[1..])])
    case Aggregate(p) =>
      var w := s.workers[p];
      s.(workers := s.workers[p := if w.Requested? then Recomputed(w.window) else Aggregated(w.window, w.rest)])
    case Record(p) =>
      var w := s.workers[p];
      s.(succeeded := s.succeeded + {w.window},
         workers := s.workers[p := if w.Recomputed? then Stopped else Running(w.rest)])
    case Stop(p) => s.(workers := s.workers[p := Stopped])
  }

  // ---------------------------------------------------------------- contiguity

  /** Every window from `base` up to the watermark has succeeded. */
  ghost predicate Contiguous(succeeded: set<int>, base: int, size: int)
    requires size > 0
  {
    && base in succeeded
    && forall w, top | top in succeeded && Aligned(w, size) && base <= w <= top :: w in succeeded
  }

  ghost predicate Within(succeeded: set<int>, w: int, size: int) {
    exists top :: top in succeeded && w <= top + size
  }

  /** A success keeps the windows contiguous exactly when it is at most one window past the watermark. */
  lemma ContiguousExactlyWhenNotAhead(succeeded: set<int>, base: int, size: int, w: int)
    requires size > 0 && Contiguous(succeeded, base, size) && Aligned(w, size)
    requires forall x | x in succeeded :: Aligned(x, size)
    ensures Contiguous(succeeded + {w}, base, size) <==> w <= Watermark(succeeded).value + size
  {
    var top := Watermark(succeeded).value;
    var more := succeeded + {w};
    NextIsAligned(top, size);
    if w <= top + size {
      forall x, y | y in more && Aligned(x, size) && base <= x <= y
        ensures x in more
      {
        if x < w && top < x { AlignedApart(top, x, size); }
      }
    } else {
      assert base <= top + size <= w && top + size !in succeeded && w in more;
    }
  }

  /** No window is missing between two that succeeded. */
  ghost predicate NoGap(succeeded: set<int>, size: int)
    requires size > 0
  {
    forall w, bottom, top | bottom in succeeded && top in succeeded && Aligned(w, size) && bottom <= w <= top ::
      w in succeeded
  }

  /** No aligned instant lies between a block of windows and one that touches it. */
  lemma NoneBetween(lo: int, hi: int, size: int, w: int, x: int)
    requires size > 0 && lo <= hi && Aligned(lo, size) && Aligned(hi, size) && Aligned(w, size) && Aligned(x, size)
    requires lo - size <= w <= hi + size && (lo <= x || w <= x) && (x <= hi || x <= w)
    ensures lo <= x <= hi || x == w
  {
    if w < x < lo { AlignedApart(w, x, size); AlignedApart(x, lo, size); }
    if hi < x < w { AlignedApart(hi, x, size); AlignedApart(x, w, size); }
  }

  /** Whatever recorded it, a success opens no gap exactly when it touches the windows already done. */
  lemma NoGapExactlyWhenAdjacent(succeeded: set<int>, size: int, w: int)
    requires size > 0 && succeeded != {} && NoGap(succeeded, size) && Aligned(w, size)
    requires forall x | x in succeeded :: Aligned(x, size)
    ensures NoGap(succeeded + {w}, size) <==> Min(succeeded) - size <= w <= Max(succeeded) + size
  {
    var lo, hi := Min(succeeded), Max(succeeded);
    var more := succeeded + {w};
    if lo - size <= w <= hi + size {
      forall x, y, z | y in more && z in more && Aligned(x, size) && y <= x <= z
        ensures x in more
      {
        assert (lo <= y || y == w) && (z <= hi || z == w);
        NoneBetween(lo, hi, size, w, x);
        if lo <= x <= hi { assert x in succeeded; }
      }
    } else {
      NextIsAligned(lo, size);
      NextIsAligned(hi, size);
      assert w in more && lo in more && hi in more;
      assert lo - size !in succeeded && hi + size !in succeeded;
    }
  }

  // ---------------------------------------------------------------- the invariant

  /** The window is the one everything starts from, or at most one past the watermark. */
  ghost predicate Reached(s: State, base: int, w: int, size: int) {
    w == base || Within(s.succeeded, w, size)
  }

  /** The window a worker will record next has been reached, and so on down its list. */
  ghost predicate WorkerOk(c: Config, s: State, base: int, w: Worker)
    requires GoodConfig(c)
  {
    match w
    case Running(todo) => TodoOk(c, s, base, todo)
    case Attempting(window, rest) => LeftOk(c, s, base, window, rest)
    case Aggregated(window, rest) => LeftOk(c, s, base, window, rest)
    case Requested(window) => Aligned(window, c.size) && Reached(s, base, window, c.size)
    case Recomputed(window) => Aligned(window, c.size) && Reached(s, base, window, c.size)
    case _ => true
  }

  /** The window at hand has been reached, and the rest of the list begins right after it. */
  ghost predicate LeftOk(c: Config, s: State, base: int, window: int, rest: seq<int>)
    requires GoodConfig(c)
  {
    TodoOk(c, s, base, [window] + rest)
  }

  ghost predicate TodoOk(c: Config, s: State, base: int, todo: seq<int>)
    requires GoodConfig(c)
  {
    && (forall i | 0 <= i < |todo| :: Aligned(todo[i], c.size) && todo[i] > 0)
    && (forall i | 0 <= i < |todo| - 1 :: todo[i + 1] == todo[i] + c.size)
    && (todo != [] ==> Reached(s, base, todo[0], c.size))
  }

  /** Nothing has succeeded yet, or some pass that saw nothing is still in flight. */
  ghost predicate Fresh(s: State) {
    s.succeeded == {} || exists p :: p in s.workers && s.workers[p].NothingYet?
  }

  ghost predicate Inv(c: Config, s: State, base: int)
    requires GoodConfig(c)
  {
    && base >= 0 && Aligned(base, c.size)
    && (s.succeeded == {} || Contiguous(s.succeeded, base, c.size))
    && (forall w | w in s.succeeded :: Aligned(w, c.size))
    && (forall p | p in s.workers :: WorkerOk(c, s, base, s.workers[p]))
    && (Fresh(s) && s.earliest.Some? ==> BucketStart(s.earliest.value, c.size) == base && base > 0)
  }

  /** Manual runs are asked for at most one window past the watermark, or for the first window. */
  ghost predicate ManualInBound(c: Config, s: State, a: Action, base: int)
    requires GoodConfig(c)
  {
    a.RequestManual? ==> Reached(s, base, Target(a.at, s.now, c.size), c.size)
  }

  /**
   While nothing has succeeded, or a pass that saw nothing is in flight, no event is backdated before the
   first window.
   */
  ghost predicate NotBackdated(c: Config, s: State, a: Action, base: int)
    requires GoodConfig(c)
  {
    a.Ingest? && Fresh(s) ==> s.earliest.Some? && BucketStart(a.at, c.size) >= base
  }

  /** Once something has succeeded and no pass that saw nothing is in flight, it stays so. */
  lemma PastStep(c: Config, s: State, a: Action)
    requires GoodConfig(c) && Enabled(c, s, a)
    ensures Fresh(Apply(c, s, a)) ==> Fresh(s)
  {
    var s' := Apply(c, s, a);
    if !Fresh(s) {
      forall p
        ensures !(p in s'.workers && s'.workers[p].NothingYet?)
      {
        assert !(p in s.workers && s.workers[p].NothingYet?);
      }
    }
  }

  lemma BacklogIsOk(c: Config, s: State, base: int, from: int, newest: int)
    requires GoodConfig(c) && Aligned(from, c.size) && from > 0 && Reached(s, base, from, c.size)
    ensures TodoOk(c, s, base, Limited(Backlog(from, newest, c.size), c.backfill))
  {
    var backlog := Backlog(from, newest, c.size);
    var todo := Limited(backlog, c.backfill);
    AlignedIsItsOwnStart(from, c.size);
    if from <= newest {
      StartsAreTheAlignedInstants(from, BucketStart(newest, c.size), c.size);
      forall i | 0 <= i < |todo|
        ensures Aligned(todo[i], c.size) && todo[i] > 0
      {
        assert backlog[i] in backlog;
      }
    }
  }

  lemma WatermarkStep(c: Config, s: State, base: int, a: Action)
    requires GoodConfig(c) && Inv(c, s, base) && Enabled(c, s, a) && a.ReadWatermark?
    ensures Inv(c, Apply(c, s, a), base)
  {
    var s' := Apply(c, s, a);
    var last := Watermark(s.succeeded);
    if last.Some? {
      assert last.value in s.succeeded;
      NextIsAligned(last.value, c.size);
      BacklogIsOk(c, s, base, last.value + c.size, s.workers[a.p].newest);
      PastStep(c, s, a);
    }
    OthersStayOk(c, s, s', base, a.p);
  }

  lemma EarliestStep(c: Config, s: State, base: int, a: Action)
    requires GoodConfig(c) && Inv(c, s, base) && Enabled(c, s, a) && a.ReadEarliest?
    ensures Inv(c, Apply(c, s, a), base)
  {
    var s' := Apply(c, s, a);
    assert Fresh(s);
    AlignedIsItsOwnStart(base, c.size);
    if s.earliest.Some? { BacklogIsOk(c, s, base, base, s.workers[a.p].newest); }
    OthersStayOk(c, s, s', base, a.p);
  }

  /** Calls that did not move stay within reach as successes are added. */
  lemma OthersStayOk(c: Config, s: State, s': State, base: int, p: WorkerId)
    requires GoodConfig(c) && s.succeeded <= s'.succeeded
    requires forall q | q in s'.workers && q != p :: q in s.workers && s'.workers[q] == s.workers[q]
    requires forall q | q in s.workers :: WorkerOk(c, s, base, s.workers[q])
    ensures forall q | q in s'.workers && q != p :: WorkerOk(c, s', base, s'.workers[q])
  {
    forall x | Reached(s, base, x, c.size)
      ensures Reached(s', base, x, c.size)
    {
      if x != base {
        var top :| top in s.succeeded && x <= top + c.size;
        assert top in s'.succeeded;
      }
    }
    forall q | q in s'.workers && q != p
      ensures WorkerOk(c, s', base, s'.workers[q])
    {
      assert WorkerOk(c, s, base, s.workers[q]);
    }
  }

  lemma LeftIsTodo(c: Config, s: State, base: int, window: int, rest: seq<int>)
    requires GoodConfig(c) && LeftOk(c, s, base, window, rest)
    ensures Aligned(window, c.size) && window > 0 && Reached(s, base, window, c.size)
    ensures (forall i | 0 <= i < |rest| :: Aligned(rest[i], c.size) && rest[i] > 0)
    ensures (forall i | 0 <= i < |rest| - 1 :: rest[i + 1] == rest[i] + c.size)
            && (rest != [] ==> rest[0] == window + c.size)
  {
    var todo := [window] + rest;
    assert todo[0] == window;
    assert forall i | 0 <= i < |rest| :: todo[i + 1] == rest[i];
    if rest != [] { assert todo[1] == todo[0] + c.size; }
    forall i | 0 <= i < |rest| - 1
      ensures rest[i + 1] == rest[i] + c.size
    {
      assert todo[i + 2] == todo[i + 1] + c.size;
    }
  }

  /** Once the window at hand has succeeded, the rest of the list has been reached. */
  lemma RestIsTodo(c: Config, s: State, base: int, window: int, rest: seq<int>)
    requires GoodConfig(c) && LeftOk(c, s, base, window, rest) && window in s.succeeded
    ensures TodoOk(c, s, base, rest)
  {
    LeftIsTodo(c, s, base, window, rest);
    if rest != [] { assert Within(s.succeeded, rest[0], c.size); }
  }

  lemma RecordStep(c: Config, s: State, base: int, a: Action)
    requires GoodConfig(c) && Inv(c, s, base) && Enabled(c, s, a) && a.Record?
    ensures Inv(c, Apply(c, s, a), base)
  {
    var w := s.workers[a.p];
    var s' := Apply(c, s, a);
    var window := w.window;
    assert WorkerOk(c, s, base, w);
    if w.Aggregated? { LeftIsTodo(c, s, base, window, w.rest); }
    assert Aligned(window, c.size) && Reached(s, base, window, c.size);
    assert window in s'.succeeded;
    if s.succeeded == {} {
      assert window == base && s'.succeeded == {base};
    } else {
      assert base in s.succeeded && base <= Watermark(s.succeeded).value;
      ContiguousExactlyWhenNotAhead(s.succeeded, base, c.size, window);
    }
    OthersStayOk(c, s, s', base, a.p);
    if w.Aggregated? { RestIsTodo(c, s', base, window, w.rest); }
    PastStep(c, s, a);
  }

  lemma IngestStep(c: Config, s: State, base: int, a: Action)
    requires GoodConfig(c) && Inv(c, s, base) && Enabled(c, s, a) && a.Ingest? && NotBackdated(c, s, a, base)
    ensures Inv(c, Apply(c, s, a), base)
  {
    var s' := Apply(c, s, a);
    OthersStayOk(c, s, s', base, 0);
    if 0 in s.workers { assert WorkerOk(c, s, base, s.workers[0]); }
    PastStep(c, s, a);
    if Fresh(s) && a.at < s.earliest.value {
      WindowOf(a.at, BucketStart(a.at, c.size), c.size);
      if BucketStart(a.at, c.size) > base {
        AlignedApart(base, BucketStart(a.at, c.size), c.size);
      }
    }
  }

  lemma MoveStep(c: Config, s: State, base: int, a: Action)
    requires GoodConfig(c) && Inv(c, s, base) && Enabled(c, s, a) && ManualInBound(c, s, a, base)
    requires a.Tick? || a.StartPass? || a.RequestManual? || a.Attempt? || a.Aggregate? || a.Stop?
    ensures Inv(c, Apply(c, s, a), base)
  {
    var s' := Apply(c, s, a);
    var p := if a.Tick? then 0 else a.p;
    if p in s.workers { assert WorkerOk(c, s, base, s.workers[p]); }
    if a.Attempt? {
      var todo := s.workers[p].todo;
      AlignedIsItsOwnStart(todo[0], c.size);
      assert [todo[0]] + todo[1..] == todo;
    }
    OthersStayOk(c, s, s', base, p);
    PastStep(c, s, a);
  }

  lemma InvStep(c: Config, s: State, base: int, a: Action)
    requires GoodConfig(c) && Inv(c, s, base) && Enabled(c, s, a)
    requires ManualInBound(c, s, a, base) && NotBackdated(c, s, a, base)
    ensures Inv(c, Apply(c, s, a), base)
  {
    match a
    case Ingest(_) => IngestStep(c, s, base, a);
    case ReadWatermark(_) => WatermarkStep(c, s, base, a);
    case ReadEarliest(_) => EarliestStep(c, s, base, a);
    case Record(_) => RecordStep(c, s, base, a);
    case _ => MoveStep(c, s, base, a);
  }

  // ---------------------------------------------------------------- runs

  datatype Run = Run(states: seq<State>, actions: seq<Action>)

  ghost predicate Steps(c: Config, run: Run)
    requires GoodConfig(c)
  {
    && |run.states| == |run.actions| + 1
    && forall i {:trigger run.actions[i]} | 0 <= i < |run.actions| ::
         Enabled(c, run.states[i], run.actions[i]) && run.states[i + 1] == Apply(c, run.states[i], run.actions[i])
  }

  ghost predicate ManualsInBound(c: Config, run: Run, base: int)
    requires GoodConfig(c) && Steps(c, run)
  {
    forall k | 0 <= k < |run.actions| :: ManualInBound(c, run.states[k], run.actions[k], base)
  }

  /** A start with some windows done, all of them from `base` to the watermark, and no pass in flight. */
  ghost predicate StartsContiguous(c: Config, s: State, base: int)
    requires GoodConfig(c)
  {
    && base >= 0 && s.workers == map[] && Contiguous(s.succeeded, base, c.size)
    && forall w | w in s.succeeded :: Aligned(w, c.size)
  }

  /** A start with events but no window done: the first pass begins at the window of the earliest event. */
  ghost predicate StartsFresh(c: Config, s: State, base: int)
    requires GoodConfig(c)
  {
    && s.workers == map[] && s.succeeded == {} && s.earliest.Some? && s.earliest.value >= c.size
    && BucketStart(s.earliest.value, c.size) == base
  }

  lemma {:induction false} StaysPast(c: Config, run: Run, i: nat)
    requires GoodConfig(c) && Steps(c, run) && !Fresh(run.states[0]) && i < |run.states|
    ensures !Fresh(run.states[i])
  {
    if i > 0 {
      StaysPast(c, run, i - 1);
      PastStep(c, run.states[i - 1], run.actions[i - 1]);
    }
  }

  /**
   From any contiguous set of succeeded windows, every interleaving of passes, failures, skips,
   crashes, late events and clock changes keeps the windows contiguous up to the watermark, as long
   as manual runs stay within one window of it.
   */
  lemma StaysContiguous(c: Config, run: Run, base: int, i: nat)
    requires GoodConfig(c) && Steps(c, run) && StartsContiguous(c, run.states[0], base) && ManualsInBound(c, run, base)
    requires i < |run.states|
    ensures Inv(c, run.states[i], base) && Contiguous(run.states[i].succeeded, base, c.size)
  {
    ContiguousStart(c, run.states[0], base);
    StaysPast(c, run, i);
    InvFromContiguous(c, run, base, i);
  }

  lemma {:induction false} InvFromContiguous(c: Config, run: Run, base: int, i: nat)
    requires GoodConfig(c) && Steps(c, run) && StartsContiguous(c, run.states[0], base) && ManualsInBound(c, run, base)
    requires i < |run.states|
    ensures Inv(c, run.states[i], base)
  {
    if i == 0 {
      ContiguousStart(c, run.states[0], base);
    } else {
      InvFromContiguous(c, run, base, i - 1);
      ContiguousStart(c, run.states[0], base);
      StaysPast(c, run, i - 1);
      InvStepAt(c, run, base, i - 1);
    }
  }

  lemma ContiguousStart(c: Config, s: State, base: int)
    requires GoodConfig(c) && StartsContiguous(c, s, base)
    ensures Inv(c, s, base) && !Fresh(s)
  {
  }

  lemma InvStepAt(c: Config, run: Run, base: int, i: nat)
    requires GoodConfig(c) && Steps(c, run) && ManualsInBound(c, run, base) && i + 1 < |run.states|
    requires Inv(c, run.states[i], base) && NotBackdated(c, run.states[i], run.actions[i], base)
    ensures Inv(c, run.states[i + 1], base)
  {
    assert ManualInBound(c, run.states[i], run.actions[i], base);
    InvStep(c, run.states[i], base, run.actions[i]);
  }

  /**
   From nothing the same holds if, until the first successes are in, no event is backdated before
   the window of the earliest one. Passes that all saw an empty run log then agree where to begin.
   */
  lemma {:induction false} FreshStartStaysContiguous(c: Config, run: Run, base: int, i: nat)
    requires GoodConfig(c) && Steps(c, run) && StartsFresh(c, run.states[0], base) && ManualsInBound(c, run, base)
    requires forall k | 0 <= k < |run.actions| :: NotBackdated(c, run.states[k], run.actions[k], base)
    requires i < |run.states|
    ensures Inv(c, run.states[i], base)
    ensures run.states[i].succeeded == {} || Contiguous(run.states[i].succeeded, base, c.size)
  {
    if i > 0 {
      FreshStartStaysContiguous(c, run, base, i - 1);
      assert NotBackdated(c, run.states[i - 1], run.actions[i - 1], base);
      InvStepAt(c, run, base, i - 1);
    } else {
      WindowOf(run.states[0].earliest.value, base, c.size);
    }
  }

  // ---------------------------------------------------------------- only closed windows

  /** Before state `j` there was a moment at which the window had closed. */
  ghost predicate HasClosed(c: Config, run: Run, j: nat, w: int) {
    exists k: nat :: k < j && k < |run.states| && w + c.size <= run.states[k].now
  }

  ghost predicate AtHandHasClosed(c: Config, run: Run, j: nat, w: Worker) {
    match w
    case Attempting(window, _) => HasClosed(c, run, j, window)
    case Aggregated(window, _) => HasClosed(c, run, j, window)
    case Requested(window) => HasClosed(c, run, j, window)
    case Recomputed(window) => HasClosed(c, run, j, window)
    case _ => true
  }

  ghost predicate AllHaveClosed(c: Config, run: Run, j: nat)
    requires |run.states| > j
  {
    && (forall p | p in run.states[j].workers :: AtHandHasClosed(c, run, j, run.states[j].workers[p]))
    && (forall w | w in run.states[j].succeeded && w !in run.states[0].succeeded :: HasClosed(c, run, j, w))
  }

  lemma ClosedStep(c: Config, run: Run, j: nat)
    requires GoodConfig(c) && Steps(c, run) && j < |run.actions| && AllHaveClosed(c, run, j)
    ensures AllHaveClosed(c, run, j + 1)
  {
    var s, s', a := run.states[j], run.states[j + 1], run.actions[j];
    assert s' == Apply(c, s, a);
    forall w | HasClosed(c, run, j, w) || w + c.size <= s.now
      ensures HasClosed(c, run, j + 1, w)
    {
    }
    forall p | p in s'.workers
      ensures AtHandHasClosed(c, run, j + 1, s'.workers[p])
    {
      if p in s.workers { assert AtHandHasClosed(c, run, j, s.workers[p]); }
    }
    if a.Record? { assert AtHandHasClosed(c, run, j, s.workers[a.p]); }
  }

  /** A window that succeeds, in a pass or by hand, had closed at some moment before. */
  lemma {:induction false} OnlyClosedWindowsSucceed(c: Config, run: Run, j: nat)
    requires GoodConfig(c) && Steps(c, run) && run.states[0].workers == map[] && j < |run.states|
    ensures AllHaveClosed(c, run, j)
  {
    if j > 0 {
      OnlyClosedWindowsSucceed(c, run, j - 1);
      ClosedStep(c, run, j - 1);
    }
  }

  // ---------------------------------------------------------------- a pass finds what is pending

  /** The windows a pass has before it: those closed when it started, from the first one on, as many as allowed. */
  ghost predicate WorksThrough(c: Config, w: Worker, first: int, newest: int)
    requires GoodConfig(c)
  {
    && w.Running?
    && (forall x :: x in w.todo <==> Aligned(x, c.size) && first <= x <= newest && x < first + c.backfill * c.size)
    && (w.todo != [] ==> w.todo[0] == first)
    && (forall i | 0 <= i < |w.todo| - 1 :: w.todo[i + 1] == w.todo[i] + c.size)
  }

  /**
   A pass that reads a watermark works through the windows right after it; one that reads the
   earliest event through those from the event's window on. In particular, if the first of them was
   closed when the pass started, it is the first on the list.
   */
  lemma PassFindsWhatIsPending(c: Config, s: State, a: Action)
    requires GoodConfig(c) && Enabled(c, s, a) && (forall x | x in s.succeeded :: Aligned(x, c.size))
    ensures var s' := Apply(c, s, a);
            && (a.ReadWatermark? && s.succeeded != {} ==>
                  WorksThrough(c, s'.workers[a.p], Max(s.succeeded) + c.size, s.workers[a.p].newest))
            && (a.ReadWatermark? && s.succeeded == {} ==>
                  s'.workers[a.p] == NothingYet(s.workers[a.p].newest))
            && (a.ReadEarliest? && s.earliest.Some? ==>
                  exists first :: Aligned(first, c.size) && first <= s.earliest.value < first + c.size
                               && WorksThrough(c, s'.workers[a.p], first, s.workers[a.p].newest))
            && (a.ReadEarliest? && s.earliest.None? ==> s'.workers[a.p].Stopped?)
            && (a.StartPass? ==>
                  exists newest :: s'.workers[a.p] == Started(newest) && Aligned(newest, c.size)
                                && newest + c.size <= s.now < newest + 2 * c.size)
  {
    var s' := Apply(c, s, a);
    if a.StartPass? { NewestIsClosed(s.now, c.size); }
    if a.ReadWatermark? && s.succeeded != {} {
      WatermarkIsMax(s.succeeded);
      NextIsAligned(Max(s.succeeded), c.size);
      ListIsWorkedThrough(c, s'.workers[a.p], Max(s.succeeded) + c.size, s.workers[a.p].newest);
    }
    if a.ReadEarliest? && s.earliest.Some? {
      var first := BucketStart(s.earliest.value, c.size);
      ListIsWorkedThrough(c, s'.workers[a.p], first, s.workers[a.p].newest);
    }
  }

  lemma WatermarkIsMax(succeeded: set<int>)
    requires succeeded != {}
    ensures Watermark(succeeded) == Some(Max(succeeded))
  {
  }

  lemma ListIsWorkedThrough(c: Config, w: Worker, first: int, newest: int)
    requires GoodConfig(c) && Aligned(first, c.size)
    requires w == Running(Limited(Backlog(first, newest, c.size), c.backfill))
    ensures WorksThrough(c, w, first, newest)
  {
    forall x
      ensures x in w.todo <==> Aligned(x, c.size) && first <= x <= newest && x < first + c.backfill * c.size
    {
      LimitedBacklogIs(first, newest, c.size, c.backfill, x);
    }
    LimitedBacklogIs(first, newest, c.size, c.backfill, first);
  }

  /** A run from `s` that ends in `s'`. */
  ghost predicate Goes(c: Config, s: State, run: Run, s': State)
    requires GoodConfig(c)
  {
    Steps(c, run) && run.states[0] == s && run.states[|run.actions|] == s'
  }

  lemma GoOn(c: Config, s: State, run: Run, s': State, a: Action, s'': State) returns (longer: Run)
    requires GoodConfig(c) && Goes(c, s, run, s') && Enabled(c, s', a) && s'' == Apply(c, s', a)
    ensures Goes(c, s, longer, s'')
  {
    longer := Run(run.states + [s''], run.actions + [a]);
    forall i | 0 <= i < |longer.actions|
      ensures Enabled(c, longer.states[i], longer.actions[i])
      ensures longer.states[i + 1] == Apply(c, longer.states[i], longer.actions[i])
    {
    }
  }

  /** A worker with windows before it can aggregate and record the first of them. */
  lemma FirstCanSucceed(c: Config, s: State, run: Run, s': State, p: WorkerId) returns (longer: Run, s'': State)
    requires GoodConfig(c) && Goes(c, s, run, s') && p in s'.workers && s'.workers[p].Running?
    requires s'.workers[p].todo != []
    requires var w := s'.workers[p].todo[0]; Aligned(w, c.size) && w != 0 && w + c.size <= s'.now
    ensures var todo := s'.workers[p].todo;
            && Goes(c, s, longer, s'')
            && s'' == s'.(succeeded := s'.succeeded + {todo[0]}, workers := s'.workers[p := Running(todo[1..])])
  {
    var todo := s'.workers[p].todo;
    AlignedIsItsOwnStart(todo[0], c.size);
    var begun := s'.(workers := s'.workers[p := Attempting(todo[0], todo[1..])]);
    var done := s'.(workers := s'.workers[p := Aggregated(todo[0], todo[1..])]);
    s'' := s'.(succeeded := s'.succeeded + {todo[0]}, workers := s'.workers[p := Running(todo[1..])]);
    longer := GoOn(c, s, run, s', Attempt(p), begun);
    assert begun.workers[p := Aggregated(todo[0], todo[1..])] == done.workers;
    longer := GoOn(c, s, longer, begun, Aggregate(p), done);
    assert done.workers[p := Running(todo[1..])] == s''.workers;
    longer := GoOn(c, s, longer, done, Record(p), s'');
  }

  /**
   From every state in which the window after the watermark is closed, a pass that nothing gets in
   the way of records it, whatever other workers are doing.
   */
  lemma NextWindowCanSucceed(c: Config, s: State, p: WorkerId) returns (run: Run, s': State)
    requires GoodConfig(c) && p !in s.workers && s.succeeded != {} && forall x | x in s.succeeded :: Aligned(x, c.size)
    requires Max(s.succeeded) + c.size != 0 && Max(s.succeeded) + 2 * c.size <= s.now
    ensures Goes(c, s, run, s') && s'.succeeded == s.succeeded + {Max(s.succeeded) + c.size}
  {
    var next, newest := Max(s.succeeded) + c.size, NewestClosed(s.now, c.size);
    NextIsAligned(Max(s.succeeded), c.size);
    NewestIsClosed(s.now, c.size);
    if newest < next { AlignedApart(newest, next, c.size); }
    run := Run([s], []);
    var s1 := Apply(c, s, StartPass(p));
    run := GoOn(c, s, run, s, StartPass(p), s1);
    PassFindsWhatIsPending(c, s1, ReadWatermark(p));
    var s2 := Apply(c, s1, ReadWatermark(p));
    run := GoOn(c, s, run, s1, ReadWatermark(p), s2);
    FirstOnTheList(c, s2.workers[p], next, newest);
    run, s' := FirstCanSucceed(c, s, run, s2, p);
  }

  lemma FirstOnTheList(c: Config, w: Worker, first: int, newest: int)
    requires GoodConfig(c) && WorksThrough(c, w, first, newest) && Aligned(first, c.size) && first <= newest
    ensures w.todo != [] && w.todo[0] == first
  {
    TimesOrder(0, c.backfill, c.size);
    assert first in w.todo;
  }

  /** From every state with nothing done, a pass can record the window of the earliest event once it is closed. */
  lemma FirstWindowCanSucceed(c: Config, s: State, p: WorkerId) returns (run: Run, s': State)
    requires GoodConfig(c) && p !in s.workers && s.succeeded == {} && s.earliest.Some? && s.earliest.value >= c.size
    requires BucketStart(s.earliest.value, c.size) + c.size <= s.now
    ensures Goes(c, s, run, s') && s'.succeeded == {BucketStart(s.earliest.value, c.size)}
  {
    var first, newest := BucketStart(s.earliest.value, c.size), NewestClosed(s.now, c.size);
    NewestIsClosed(s.now, c.size);
    if newest < first { AlignedApart(newest, first, c.size); }
    run := Run([s], []);
    var s1 := Apply(c, s, StartPass(p));
    run := GoOn(c, s, run, s, StartPass(p), s1);
    var s2 := Apply(c, s1, ReadWatermark(p));
    run := GoOn(c, s, run, s1, ReadWatermark(p), s2);
    var s3 := Apply(c, s2, ReadEarliest(p));
    run := GoOn(c, s, run, s2, ReadEarliest(p), s3);
    ListIsWorkedThrough(c, s3.workers[p], first, newest);
    FirstOnTheList(c, s3.workers[p], first, newest);
    run, s' := FirstCanSucceed(c, s, run, s3, p);
  }

  // ---------------------------------------------------------------- why backdating matters

  /**
   Three windows from `base` are closed, the third has an event, and an event of the first is about
   to come in late. The windows may have any size, lie anywhere, and be limited to any number a pass.
   */
  datatype Scene = Scene(c: Config, base: int, now: int, event: int, late: int)

  ghost predicate Plausible(v: Scene) {
    && GoodConfig(v.c) && v.base > 0 && Aligned(v.base, v.c.size)
    && v.base + 3 * v.c.size <= v.now < v.base + 4 * v.c.size
    && v.base + 2 * v.c.size <= v.event < v.base + 3 * v.c.size
    && v.base <= v.late < v.base + v.c.size
  }

  function Top(v: Scene): int { v.base + 2 * v.c.size }

  lemma SceneIsAligned(v: Scene)
    requires Plausible(v)
    ensures v.base >= v.c.size && Aligned(v.base + v.c.size, v.c.size) && Aligned(Top(v), v.c.size)
    ensures BucketStart(v.event, v.c.size) == Top(v) == NewestClosed(v.now, v.c.size)
    ensures BucketStart(v.late, v.c.size) == v.base
  {
    NextIsAligned(v.base, v.c.size);
    NextIsAligned(v.base + v.c.size, v.c.size);
    NextIsAligned(Top(v), v.c.size);
    AlignedApart(0, v.base, v.c.size);
    WindowOf(v.event, Top(v), v.c.size);
    WindowOf(v.late, v.base, v.c.size);
    WindowOf(v.now, Top(v) + v.c.size, v.c.size);
  }

  ghost function Two(v: Scene, earliest: int, succeeded: set<int>, first: Worker, second: Worker): State {
    State(v.now, Some(earliest), succeeded, map[1 := first, 2 := second])
  }

  /** A run of the scene that has come to the state `s`. */
  ghost predicate Leads(v: Scene, run: Run, s: State)
    requires Plausible(v)
  {
    Steps(v.c, run) && StartsFresh(v.c, run.states[0], Top(v)) && run.states[|run.actions|] == s
  }

  lemma Move(v: Scene, run: Run, s: State, a: Action, s': State) returns (longer: Run)
    requires Plausible(v) && Leads(v, run, s) && Enabled(v.c, s, a) && s' == Apply(v.c, s, a)
    ensures Leads(v, longer, s')
  {
    longer := GoOn(v.c, run.states[0], run, s, a, s');
  }

  lemma TwoPassesSeeNothing(v: Scene) returns (run: Run)
    requires Plausible(v)
    ensures Leads(v, run, Two(v, v.event, {}, NothingYet(Top(v)), NothingYet(Top(v))))
  {
    SceneIsAligned(v);
    var started, idle := Started(Top(v)), NothingYet(Top(v));
    var s0 := State(v.now, Some(v.event), {}, map[]);
    var s1 := State(v.now, Some(v.event), {}, map[1 := started]);
    run := Run([s0], []);
    run := Move(v, run, s0, StartPass(1), s1);
    run := Move(v, run, s1, StartPass(2), Two(v, v.event, {}, started, started));
    run := Move(v, run, Two(v, v.event, {}, started, started), ReadWatermark(1), Two(v, v.event, {}, idle, started));
    run := Move(v, run, Two(v, v.event, {}, idle, started), ReadWatermark(2), Two(v, v.event, {}, idle, idle));
  }

  /** What a pass finds pending that reads the earliest event after it saw an empty run log. */
  ghost function Found(v: Scene, earliest: int): seq<int>
    requires Plausible(v)
  {
    Limited(Backlog(BucketStart(earliest, v.c.size), Top(v), v.c.size), v.c.backfill)
  }

  lemma FoundBegins(v: Scene)
    requires Plausible(v)
    ensures Found(v, v.event) == [Top(v)]
    ensures var found := Found(v, v.late); found != [] && found[0] == v.base
  {
    SceneIsAligned(v);
    AlignedIsItsOwnStart(Top(v), v.c.size);
    AlignedIsItsOwnStart(v.base, v.c.size);
    PendingIsClosedAndNew(None, Some(v.late), v.now, v.c.size, v.c.backfill);
    PendingIsClosedAndNew(None, Some(v.event), v.now, v.c.size, v.c.backfill);
    var starts := Starts(Top(v), Top(v), v.c.size);
    assert |starts| == 1;
  }

  /** The first pass reads the event in the third window, then the late one comes in and the second pass reads that. */
  lemma BothPassesAreUnderWay(v: Scene) returns (run: Run)
    requires Plausible(v)
    ensures Leads(v, run, Two(v, v.late, {}, Running([Top(v)]), Running(Found(v, v.late))))
  {
    SceneIsAligned(v);
    FoundBegins(v);
    var idle, top := NothingYet(Top(v)), Running([Top(v)]);
    run := TwoPassesSeeNothing(v);
    run := Move(v, run, Two(v, v.event, {}, idle, idle), ReadEarliest(1), Two(v, v.event, {}, top, idle));
    run := Move(v, run, Two(v, v.event, {}, top, idle), Ingest(v.late), Two(v, v.late, {}, top, idle));
    run := Move(v, run, Two(v, v.late, {}, top, idle), ReadEarliest(2),
                Two(v, v.late, {}, top, Running(Found(v, v.late))));
  }

  /** A worker aggregates and records the first window of its list. */
  lemma Succeeds(v: Scene, run: Run, s: State, p: WorkerId, todo: seq<int>, s': State) returns (longer: Run)
    requires Plausible(v) && Leads(v, run, s) && todo != [] && p in s.workers && s.workers[p] == Running(todo)
    requires Aligned(todo[0], v.c.size) && todo[0] != 0 && todo[0] + v.c.size <= s.now
    requires s' == s.(succeeded := s.succeeded + {todo[0]}, workers := s.workers[p := Running(todo[1..])])
    ensures Leads(v, longer, s')
  {
    var last;
    longer, last := FirstCanSucceed(v.c, run.states[0], run, s, p);
  }

  lemma SecondPassCrashes(v: Scene) returns (run: Run)
    requires Plausible(v)
    ensures Leads(v, run, Two(v, v.late, {v.base, Top(v)}, Running([]), Stopped))
  {
    SceneIsAligned(v);
    FoundBegins(v);
    var found := Found(v, v.late);
    var s0 := Two(v, v.late, {}, Running([Top(v)]), Running(found));
    var s1 := Two(v, v.late, {Top(v)}, Running([]), Running(found));
    var s2 := Two(v, v.late, {v.base, Top(v)}, Running([]), Running(found[1..]));
    run := BothPassesAreUnderWay(v);
    OneMore({}, Top(v), {Top(v)});
    assert [Top(v)][1..] == [] && s1.workers == s0.workers[1 := Running([])];
    run := Succeeds(v, run, s0, 1, [Top(v)], s1);
    OneMore({Top(v)}, v.base, {v.base, Top(v)});
    assert s2.workers == s1.workers[2 := Running(found[1..])];
    run := Succeeds(v, run, s1, 2, found, s2);
    run := Move(v, run, s2, Stop(2), Two(v, v.late, {v.base, Top(v)}, Running([]), Stopped));
  }

  /** A window is missing, nobody is at work on it, and no pass at any later time offers it. */
  ghost predicate GapForGood(c: Config, s: State, missing: int)
    requires GoodConfig(c)
  {
    && Aligned(missing, c.size) && missing !in s.succeeded
    && (exists x, y :: x in s.succeeded && y in s.succeeded && x < missing < y)
    && (forall p | p in s.workers :: s.workers[p].Stopped? || s.workers[p] == Running([]))
    && (forall now, w | w in Pending(Watermark(s.succeeded), s.earliest, now, c.size, c.backfill) :: w > missing)
  }

  lemma SecondIsMissed(v: Scene)
    requires Plausible(v)
    ensures GapForGood(v.c, Two(v, v.late, {v.base, Top(v)}, Running([]), Stopped), v.base + v.c.size)
  {
    SceneIsAligned(v);
    var succeeded := {v.base, Top(v)};
    assert v.base in succeeded && Top(v) in succeeded;
    assert Watermark(succeeded) == Some(Top(v));
    forall now, w | w in Pending(Some(Top(v)), Some(v.late), now, v.c.size, v.c.backfill)
      ensures w > v.base + v.c.size
    {
      PendingIsClosedAndNew(Some(Top(v)), Some(v.late), now, v.c.size, v.c.backfill);
    }
  }

  /**
   With an empty run log, two passes, one backdated event between their reads and a crash leave a
   gap for good, whatever the size of the windows, wherever they lie and however many a pass may
   take: the first and the third window succeed, the one between does not, no worker has it left to
   do, and no later pass ever offers it, because the watermark is past it.
   */
  lemma BackdatedEventCanLeaveAGap(v: Scene)
    requires Plausible(v)
    ensures exists run: Run ::
              && Steps(v.c, run) && StartsFresh(v.c, run.states[0], Top(v))
              && GapForGood(v.c, run.states[|run.actions|], v.base + v.c.size)
  {
    var run := SecondPassCrashes(v);
    SecondIsMissed(v);
    assert GapForGood(v.c, run.states[|run.actions|], v.base + v.c.size);
  }
}
