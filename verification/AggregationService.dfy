/**
 The aggregation repository and service run one call at a time: a run of one window, and the
 scheduled pass that runs every pending window until one does not succeed.
 */
module AggregationService {
  import opened Collections
  import opened Options
  import opened Windows
  import opened Aggregation
  import opened Scheduling
  import opened Stats
  import opened Sums
  import S = SchedulerProtocol

  datatype Status = Succeeded | Failed | Skipped

  datatype Trigger = Schedule | Manual

  datatype RunRecord = RunRecord(start: int, end: int, status: Status, trigger: Trigger, touched: nat)

  /** What meets an aggregation in the database: nothing, another transaction on the window, or an error. */
  datatype Attempt = Free | Busy | Broken

  datatype Aggregated = Touched(users: nat) | BucketLocked | DatabaseError

  // ---------------------------------------------------------------- queries on the run log and the events

  function SucceededStarts(runs: seq<RunRecord>): set<int> {
    set r | r in runs && r.status.Succeeded? :: r.start
  }

  function LastSucceeded(runs: seq<RunRecord>): (last: Option<int>)
    ensures last.None? <==> SucceededStarts(runs) == {}
    ensures last.Some? ==>
              last.value in SucceededStarts(runs) && forall w | w in SucceededStarts(runs) :: w <= last.value
  {
    if runs == [] then None
    else
      var before, r := runs[..|runs| - 1], runs[|runs| - 1];
      assert runs == before + [r];
      assert SucceededStarts(runs) == SucceededStarts(before) + if r.status.Succeeded? then {r.start} else {};
      var last := LastSucceeded(before);
      if !r.status.Succeeded? then last
      else if last.None? then Some(r.start) else Some(Greatest(last.value, r.start))
  }

  function Earliest(events: seq<Event>): (earliest: Option<int>)
    ensures earliest.None? <==> events == []
    ensures earliest.Some? ==>
              (exists e :: e in events && e.at == earliest.value) && forall e | e in events :: earliest.value <= e.at
  {
    if events == [] then None
    else
      var before, e := events[..|events| - 1], events[|events| - 1];
      assert events == before + [e];
      var earliest := Earliest(before);
      assert e in events;
      if earliest.None? then Some(e.at) else Some(Least(earliest.value, e.at))
  }

  class Repository {
    var events: seq<Event>
    var buckets: Buckets
    var runs: seq<RunRecord>

    constructor (events: seq<Event>)
      ensures this.events == events && buckets == map[] && runs == []
    {
      this.events := events;
      buckets := map[];
      runs := [];
    }

    method Aggregate(start: int, end: int, attempt: Attempt) returns (result: Aggregated)
      modifies this`buckets
      ensures attempt.Free? ==>
                && result == Touched(|Users(Between(events, start, end))|)
                && buckets == AggregateStatement(events, old(buckets), start, end)
      ensures !attempt.Free? ==>
                buckets == old(buckets) && result == if attempt.Busy? then BucketLocked else DatabaseError
    {
      match attempt {
        case Busy => return BucketLocked;
        case Broken => return DatabaseError;
        case Free =>
          var rolled := Rolled(PerType(Between(events, start, end)));
          buckets := Upsert(buckets, start, rolled);
          RowsAffected(Between(events, start, end));
          return Touched(|rolled|);
      }
    }

    method RecordRun(run: RunRecord)
      modifies this`runs
      ensures runs == old(runs) + [run]
    {
      runs := runs + [run];
    }
  }

  // ---------------------------------------------------------------- the service

  /** What a run of one window leaves in the table. */
  function AfterAttempt(events: seq<Event>, buckets: Buckets, start: int, size: int, attempt: Attempt): Buckets {
    if attempt.Free? then AggregateStatement(events, buckets, start, start + size) else buckets
  }

  function StatusOf(attempt: Attempt): Status {
    match attempt case Free => Succeeded case Busy => Skipped case Broken => Failed
  }

  function RecordOf(start: int, end: int, trigger: Trigger, result: Aggregated): RunRecord {
    match result
    case BucketLocked => RunRecord(start, end, Skipped, trigger, 0)
    case DatabaseError => RunRecord(start, end, Failed, trigger, 0)
    case Touched(users) => RunRecord(start, end, Succeeded, trigger, users)
  }

  /** The record of a run: its window, how it went and how many users it touched. */
  function TrueRecord(events: seq<Event>, start: int, size: int, trigger: Trigger, attempt: Attempt): RunRecord {
    RunRecord(start, start + size, StatusOf(attempt), trigger,
              if attempt.Free? then |Users(Between(events, start, start + size))| else 0)
  }

  lemma AttemptLeaves(events: seq<Event>, buckets: Buckets, after: Buckets, start: int, size: int, trigger: Trigger,
                      attempt: Attempt, result: Aggregated)
    requires attempt.Free? ==> result == Touched(|Users(Between(events, start, start + size))|)
                               && after == AggregateStatement(events, buckets, start, start + size)
    requires !attempt.Free? ==> after == buckets && result == if attempt.Busy? then BucketLocked else DatabaseError
    ensures after == AfterAttempt(events, buckets, start, size, attempt)
    ensures RecordOf(start, start + size, trigger, result) == TrueRecord(events, start, size, trigger, attempt)
  {
  }

  /** What successful runs of the windows, in order, leave in the table. */
  function AfterAll(events: seq<Event>, buckets: Buckets, windows: seq<int>, size: int): Buckets {
    if windows == [] then buckets
    else
      var last := windows[|windows| - 1];
      AggregateStatement(events, AfterAll(events, buckets, windows[..|windows| - 1], size), last, last + size)
  }

  class Service {
    const repo: Repository
    const size: int
    const backfill: int

    constructor (repo: Repository, size: int, backfill: int)
      ensures this.repo == repo && this.size > 0 && this.backfill > 0
      ensures this.size == if size > 0 then size else 4 * HOUR
      ensures this.backfill == if backfill > 0 then backfill else 12
    {
      this.repo := repo;
      this.size := if size > 0 then size else 4 * HOUR;
      this.backfill := if backfill > 0 then backfill else 12;
    }

    ghost predicate Valid()
      reads this, repo
    {
      size > 0 && backfill > 0 && forall w | w in SucceededStarts(repo.runs) :: Aligned(w, size)
    }

    /**
     No event of the first window of year 1 and no run before it, so that no pending window starts
     at the zero time, which a run would take for a missing timestamp. Ingest admits only events
     near the clock.
     */
    ghost predicate Modern()
      reads this, repo
    {
      ModernBy(repo.events, repo.runs, size)
    }

    /**
     Every row is of a user with events in its window, and the windows of all successes are in sync with the
     events.
     */
    ghost predicate Settled()
      reads this, repo
    {
      SettledBy(repo.events, repo.buckets, repo.runs, size)
    }

    /** No window is missing between two that succeeded. */
    ghost predicate NoHoles()
      requires size > 0
      reads this, repo
    {
      S.NoGap(SucceededStarts(repo.runs), size)
    }

    /** The windows done begin no later than the events. */
    ghost predicate Complete()
      reads this, repo
    {
      FromTheStart(repo.events, repo.runs)
    }

    /** Every pending window at `now`, before the limit on one pass. */
    function AllPending(now: int): seq<int>
      requires size > 0
      reads repo
    {
      PendingOf(repo.events, repo.runs, now, size)
    }

    method PendingBuckets(now: int) returns (pending: seq<int>)
      requires Valid()
      ensures pending == Limited(AllPending(now), backfill)
      ensures |pending| <= backfill && forall w | w in pending :: Aligned(w, size) && w + size <= now
      ensures Modern() ==> forall w | w in pending :: w > 0
      ensures forall w | w in pending, done | done in SucceededStarts(repo.runs) :: done < w
    {
      var newest := BucketStart(now, size) - size;
      var last, earliest := LastSucceeded(repo.runs), Earliest(repo.events);
      PendingIsClosedAndNew(last, earliest, now, size, backfill);
      pending := [];
      var from;
      if last.Some? {
        from := last.value + size;
      } else {
        if earliest.None? {
          return;
        }
        from := BucketStart(earliest.value, size);
      }
      if from > newest {
        return;
      }
      pending := BucketsBetween(from, newest, size);
      if |pending| > backfill {
        pending := pending[..backfill];
      }
      if Modern() { PendingArePositive(last, earliest, now); }
    }

    lemma PendingArePositive(last: Option<int>, earliest: Option<int>, now: int)
      requires size > 0 && backfill > 0
      requires last.Some? ==> last.value >= 0 && Aligned(last.value, size)
      requires earliest.Some? ==> earliest.value >= size
      ensures forall w | w in Pending(last, earliest, now, size, backfill) :: w > 0
    {
      var pending := Pending(last, earliest, now, size, backfill);
      PendingIsClosedAndNew(last, earliest, now, size, backfill);
      if pending != [] {
        var from := FirstPending(last, earliest, size).value;
        var first := BucketStart(from, size);
        AlignedIsItsOwnStart(NewestClosed(now, size), size) by { NewestIsClosed(now, size); }
        if last.Some? {
          NextIsAligned(last.value, size);
          AlignedIsItsOwnStart(from, size);
        } else {
          AlignedIsItsOwnStart(from, size);
        }
        StartsAreTheAlignedInstants(first, BucketStart(NewestClosed(now, size), size), size);
        forall w | w in pending
          ensures w > 0
        {
          assert w in Backlog(from, NewestClosed(now, size), size);
        }
      }
    }

    /** A run of the window that `at` falls in; refused while that window is open. */
    method RunBucket(at: int, trigger: Trigger, now: int, later: int, attempt: Attempt) returns (run: Option<RunRecord>)
      requires Valid()
      modifies repo
      ensures Valid() && repo.events == old(repo.events)
      ensures old(Modern()) && Target(at, now, size) >= 0 ==> Modern()
      ensures run.None? <==> Target(at, now, size) + size > later
      ensures at == 0 && now <= later ==> run.Some?
      ensures old(Settled()) ==> Settled()
      ensures old(Complete()) ==>
                (Complete() <==> run.None? || KeepsTheStart(repo.events, old(repo.runs), run.value))
      ensures run.None? ==> repo.runs == old(repo.runs) && repo.buckets == old(repo.buckets)
      ensures run.Some? ==>
                var start := Target(at, now, size);
                && run.value == TrueRecord(repo.events, start, size, trigger, attempt)
                && repo.runs == old(repo.runs) + [run.value]
                && repo.buckets == AfterAttempt(repo.events, old(repo.buckets), start, size, attempt)
    {
      var instant := if at == 0 then now - size else at;
      var start := BucketStart(instant, size);
      var end := start + size;
      RunWithoutTimestampIsNeverRefused(now, now, size);
      if end > later {
        return None;
      }
      ghost var runs, buckets := repo.runs, repo.buckets;
      var record := RunClosed(start, trigger, attempt);
      RunSettles(repo.events, buckets, runs, start, size, attempt, record);
      if old(Complete()) { RunBeginsAtTheStart(repo.events, runs, record); }
      return Some(record);
    }

    lemma TargetOfPending(w: int, now: int)
      requires size > 0 && Aligned(w, size) && w > 0
      ensures Target(w, now, size) == w
    {
      AlignedIsItsOwnStart(w, size);
    }

    /** The attempt on a closed window, and its record in the run log. */
    method RunClosed(start: int, trigger: Trigger, attempt: Attempt) returns (record: RunRecord)
      requires Valid() && Aligned(start, size)
      modifies repo
      ensures Valid() && repo.events == old(repo.events) && repo.runs == old(repo.runs) + [record]
      ensures old(Modern()) && start >= 0 ==> Modern()
      ensures record == TrueRecord(repo.events, start, size, trigger, attempt)
      ensures repo.buckets == AfterAttempt(repo.events, old(repo.buckets), start, size, attempt)
    {
      ghost var runs, buckets := repo.runs, repo.buckets;
      var result := repo.Aggregate(start, start + size, attempt);
      record := RecordOf(start, start + size, trigger, result);
      AttemptLeaves(repo.events, buckets, repo.buckets, start, size, trigger, attempt, result);
      repo.RecordRun(record);
      RunStaysAligned(runs, size, record);
      RunStaysModern(repo.events, runs, size, record);
    }

    /**
     One scheduled pass. The clock never goes back before its first reading. The pass runs the
     pending windows in order, records every attempt, and stops at the first that does not succeed.
     */
    method RunPending(clock: nat -> int, outlook: int -> Attempt) returns (done: seq<RunRecord>)
      requires Valid() && Modern() && forall i: nat :: clock(0) <= clock(i)
      modifies repo
      ensures Valid() && Modern() && repo.events == old(repo.events) && repo.runs == old(repo.runs) + done
      ensures PassOk(done, Limited(old(AllPending(clock(0))), backfill), outlook)
      ensures repo.buckets == AfterAll(repo.events, old(repo.buckets),
                                       Limited(old(AllPending(clock(0))), backfill)[..SuccessesOf(done)], size)
      ensures old(Settled()) ==> Settled()
      ensures old(NoHoles()) ==> NoHoles()
      ensures old(Complete()) ==> Complete()
    {
      ghost var runs, buckets := repo.runs, repo.buckets;
      var pending := PendingBuckets(clock(0));
      done := [];
      var i := 0;
      while i < |pending|
        invariant 0 <= i <= |pending| && Valid() && Modern() && repo.events == old(repo.events)
        invariant InPass(repo.events, buckets, runs, repo.buckets, repo.runs, done, pending, i, size, outlook)
        invariant old(Settled()) ==> Settled()
      {
        assert pending[i] in pending;
        TargetOfPending(pending[i], clock(2 * i + 1));
        ghost var log, table := repo.runs, repo.buckets;
        var run := RunBucket(pending[i], Schedule, clock(2 * i + 1), clock(2 * i + 2), outlook(pending[i]));
        InPassMoves(repo.events, buckets, runs, table, log, done, pending, i, size, outlook, run.value);
        done := done + [run.value];
        if !run.value.status.Succeeded? {
          PassKeepsLog(repo.events, runs, done, clock(0), size, backfill, outlook);
          return;
        }
        i := i + 1;
      }
      PassKeepsLog(repo.events, runs, done, clock(0), size, backfill, outlook);
    }

    /**
     The worker's ticks while the clock stands still and nothing fails: the backlog is gone after
     exactly as many passes as it takes, and then the rows count everything that is closed.
     */
    method CatchUp(now: int, passes: nat)
      requires Valid() && Modern()
      modifies repo
      ensures Valid() && Modern() && repo.events == old(repo.events)
      ensures |AllPending(now)| == AfterPasses(old(|AllPending(now)|), backfill, passes)
      ensures AllPending(now) == [] <==> passes >= PassesNeeded(old(|AllPending(now)|), backfill)
      ensures old(Settled()) ==> Settled()
      ensures old(NoHoles()) ==> NoHoles()
      ensures old(Complete()) ==> Complete()
    {
      ghost var pending, settled, whole, complete := |AllPending(now)|, Settled(), NoHoles(), Complete();
      for k := 0 to passes
        invariant Valid() && Modern() && repo.events == old(repo.events)
        invariant |AllPending(now)| == AfterPasses(pending, backfill, k)
        invariant (settled ==> Settled()) && (whole ==> NoHoles()) && (complete ==> Complete())
      {
        Tick(now);
      }
      PassesFinish(pending, backfill, passes);
    }

    /** One tick at a clock that stands still, with nothing failing. */
    method Tick(now: int)
      requires Valid() && Modern()
      modifies repo
      ensures Valid() && Modern() && repo.events == old(repo.events)
      ensures |AllPending(now)| == AfterPass(old(|AllPending(now)|), backfill)
      ensures old(Settled()) ==> Settled()
      ensures old(NoHoles()) ==> NoHoles()
      ensures old(Complete()) ==> Complete()
    {
      ghost var runs := repo.runs;
      var done := RunPending(_ => now, _ => Free);
      PassShrinksTheBacklog(repo.events, runs, done, now, size, backfill, _ => Free);
    }
  }

  // ---------------------------------------------------------------- a log that has caught up

  /**
   When no window is missing in the log and none is pending, a user's rows from the first window
   to the last add up to all of the user's events of that span, which ends no earlier than the
   newest closed window.
   */
  lemma CaughtUpCountsEverything(events: seq<Event>, buckets: Buckets, runs: seq<RunRecord>, now: int, size: int,
                                 user: UserId, kind: string)
    requires size > 0 && SucceededStarts(runs) != {} && forall w | w in SucceededStarts(runs) :: Aligned(w, size)
    requires S.NoGap(SucceededStarts(runs), size) && InSyncFor(buckets, events, SucceededStarts(runs), size)
    requires PendingOf(events, runs, now, size) == []
    ensures var first, last := Min(SucceededStarts(runs)), Max(SucceededStarts(runs));
            var span, rows := Between(events, first, last + size), StoredIn(buckets, user, SucceededStarts(runs));
            && Sum(rows, Counted(buckets, user, kind)) == CountOf(span, user, kind)
            && Sum(rows, CountedInAll(buckets, user)) == Total(span, user)
            && NewestClosed(now, size) <= last
  {
    var windows := SucceededStarts(runs);
    var first, last := Min(windows), Max(windows);
    AlignedWindowsTile(first, last, size);
    SameSet(windows, WindowSet(first, last, size));
    forall b | b in windows
      ensures InSync(buckets, events, user, b, size)
    {
    }
    RowsAddUpToEvents(buckets, events, user, kind, windows, size, first, last + size);
    NothingPendingPast(events, runs, now, size);
  }

  /**
   What is pending, before the limit on one pass, is exactly the closed windows past every success;
   before the first success, those that do not end before all events.
   */
  lemma PendingIsExactly(events: seq<Event>, runs: seq<RunRecord>, now: int, size: int, w: int)
    requires size > 0 && forall d | d in SucceededStarts(runs) :: Aligned(d, size)
    ensures w in PendingOf(events, runs, now, size) <==>
              && Aligned(w, size) && w + size <= now
              && if SucceededStarts(runs) == {} then exists e :: e in events && e.at < w + size
                 else forall d | d in SucceededStarts(runs) :: d < w
  {
    BacklogIsExactly(LastSucceeded(runs), Earliest(events), now, size, w);
  }

  /** While nothing has succeeded, the window of every event is pending from the moment it closes. */
  lemma EveryClosedEventIsPending(events: seq<Event>, runs: seq<RunRecord>, now: int, size: int, e: Event)
    requires size > 0 && SucceededStarts(runs) == {} && e in events && BucketStart(e.at, size) + size <= now
    ensures BucketStart(e.at, size) in PendingOf(events, runs, now, size)
  {
    PendingIsExactly(events, runs, now, size, BucketStart(e.at, size));
  }

  /** The windows done begin no later than the events. */
  ghost predicate FromTheStart(events: seq<Event>, runs: seq<RunRecord>) {
    SucceededStarts(runs) != {} ==> forall e | e in events :: BegunBy(SucceededStarts(runs), e.at)
  }

  ghost predicate BegunBy(succeeded: set<int>, t: int) {
    exists d :: d in succeeded && d <= t
  }

  /** The run fails, is not the first to succeed, or is of a window no event is before. */
  ghost predicate KeepsTheStart(events: seq<Event>, runs: seq<RunRecord>, record: RunRecord) {
    !record.status.Succeeded? || SucceededStarts(runs) != {} || forall e | e in events :: record.start <= e.at
  }

  lemma RunBeginsAtTheStart(events: seq<Event>, runs: seq<RunRecord>, record: RunRecord)
    requires FromTheStart(events, runs)
    ensures FromTheStart(events, runs + [record]) <==> KeepsTheStart(events, runs, record)
  {
    var before, after := SucceededStarts(runs), SucceededStarts(runs + [record]);
    SucceededTakes(runs, record);
    if record.status.Succeeded? {
      assert record.start in after;
      forall e | e in events
        ensures BegunBy(after, e.at) <==> BegunBy(before, e.at) || record.start <= e.at
      {
        assert record.start in after;
      }
    }
  }

  /** A pass begins at the window of the earliest event, or goes on where others began. */
  lemma PassBeginsAtTheStart(events: seq<Event>, runs: seq<RunRecord>, done: seq<RunRecord>, now: int,
                             size: int, backfill: int, outlook: int -> Attempt)
    requires size > 0 && backfill > 0 && forall w | w in SucceededStarts(runs) :: Aligned(w, size)
    requires PassOk(done, Limited(PendingOf(events, runs, now, size), backfill), outlook)
    ensures FromTheStart(events, runs) ==> FromTheStart(events, runs + done)
  {
    var before, after := SucceededStarts(runs), SucceededStarts(runs + done);
    if FromTheStart(events, runs) && after != {} {
      if before != {} {
        MoreRunsSucceed(runs, done);
        forall e | e in events
          ensures BegunBy(after, e.at)
        {
          assert BegunBy(before, e.at);
        }
      } else {
        FirstOfAPass(events, runs, done, now, size, backfill, outlook);
      }
    }
  }

  lemma MoreRunsSucceed(runs: seq<RunRecord>, done: seq<RunRecord>)
    ensures SucceededStarts(runs) <= SucceededStarts(runs + done)
  {
    forall r | r in runs
      ensures r in runs + done
    {
    }
  }

  lemma FirstOfAPass(events: seq<Event>, runs: seq<RunRecord>, done: seq<RunRecord>, now: int,
                     size: int, backfill: int, outlook: int -> Attempt)
    requires size > 0 && backfill > 0 && SucceededStarts(runs) == {} && SucceededStarts(runs + done) != {}
    requires PassOk(done, Limited(PendingOf(events, runs, now, size), backfill), outlook)
    ensures forall e | e in events :: BegunBy(SucceededStarts(runs + done), e.at)
  {
    var after := SucceededStarts(runs + done);
    var first := Pick(after);
    var r :| r in runs + done && r.status.Succeeded? && r.start == first;
    assert r in runs ==> r.start in SucceededStarts(runs);
    var i :| 0 <= i < |done| && done[i] == r;
    assert done[0].status.Succeeded? && done[0] in runs + done;
    assert done[0].start in after;
    PendingIsClosedAndNew(None, Earliest(events), now, size, backfill);
    assert done[0].start == BucketStart(Earliest(events).value, size);
    forall e | e in events
      ensures BegunBy(after, e.at)
    {
      assert done[0].start in after && done[0].start <= e.at;
    }
  }

  /**
   When the log begins no later than the events, no window is missing in it and none is pending, a
   user's rows add up to all of the user's events before the end of the last window done, which is
   no earlier than the end of the newest closed window: no closed window is left out.
   */
  lemma CaughtUpCountsAllClosed(events: seq<Event>, buckets: Buckets, runs: seq<RunRecord>, now: int, size: int,
                                user: UserId, kind: string)
    requires size > 0 && forall w | w in SucceededStarts(runs) :: Aligned(w, size)
    requires S.NoGap(SucceededStarts(runs), size) && InSyncFor(buckets, events, SucceededStarts(runs), size)
    requires FromTheStart(events, runs) && PendingOf(events, runs, now, size) == []
    ensures if SucceededStarts(runs) == {} then forall e | e in events :: now < BucketStart(e.at, size) + size
            else
              var last, rows := Max(SucceededStarts(runs)), StoredIn(buckets, user, SucceededStarts(runs));
              && Sum(rows, Counted(buckets, user, kind))
                 == Count(events, (e: Event) => e.user == user && e.kind == kind && e.at < last + size)
              && Sum(rows, CountedInAll(buckets, user))
                 == Count(events, (e: Event) => e.user == user && e.at < last + size)
              && now < last + 2 * size
  {
    if SucceededStarts(runs) == {} {
      forall e | e in events
        ensures now < BucketStart(e.at, size) + size
      {
        if BucketStart(e.at, size) + size <= now { EveryClosedEventIsPending(events, runs, now, size, e); }
      }
    } else {
      var first, last := Min(SucceededStarts(runs)), Max(SucceededStarts(runs));
      CaughtUpCountsEverything(events, buckets, runs, now, size, user, kind);
      NewestIsClosed(now, size);
      forall e | e in events
        ensures first <= e.at
      {
        assert BegunBy(SucceededStarts(runs), e.at);
      }
      CountsFromTheStart(events, first, last + size, user, kind);
    }
  }

  lemma CountsFromTheStart(events: seq<Event>, start: int, end: int, user: UserId, kind: string)
    requires forall e | e in events :: start <= e.at
    ensures CountOf(Between(events, start, end), user, kind)
         == Count(events, (e: Event) => e.user == user && e.kind == kind && e.at < end)
    ensures Total(Between(events, start, end), user) == Count(events, (e: Event) => e.user == user && e.at < end)
  {
    WindowCounts(events, start, end, user, kind);
    CountAgrees(events, InSpan(OfKind(user, kind), start, end),
                (e: Event) => e.user == user && e.kind == kind && e.at < end);
    CountAgrees(events, InSpan(OfUser(user), start, end), (e: Event) => e.user == user && e.at < end);
  }

  lemma NothingPendingPast(events: seq<Event>, runs: seq<RunRecord>, now: int, size: int)
    requires size > 0 && SucceededStarts(runs) != {} && forall w | w in SucceededStarts(runs) :: Aligned(w, size)
    requires PendingOf(events, runs, now, size) == []
    ensures NewestClosed(now, size) <= Max(SucceededStarts(runs))
  {
    var last := LastSucceeded(runs).value;
    var from, newest := last + size, NewestClosed(now, size);
    NextIsAligned(last, size);
    NewestIsClosed(now, size);
    AlignedIsItsOwnStart(from, size);
    AlignedIsItsOwnStart(newest, size);
    if last < newest { AlignedApart(last, newest, size); }
  }

  // ---------------------------------------------------------------- the log has no holes

  lemma {:induction false} PassLeavesNoHole(runs: seq<RunRecord>, done: seq<RunRecord>, size: int)
    requires size > 0 && S.NoGap(SucceededStarts(runs), size)
             && forall w | w in SucceededStarts(runs) :: Aligned(w, size)
    requires forall i | 0 <= i < |done| :: Aligned(done[i].start, size)
    requires forall i | 0 <= i < |done| - 1 :: done[i].status.Succeeded? && done[i + 1].start == done[i].start + size
    requires done != [] ==> SucceededStarts(runs) == {} || done[0].start - size in SucceededStarts(runs)
    ensures S.NoGap(SucceededStarts(runs + done), size)
            && forall w | w in SucceededStarts(runs + done) :: Aligned(w, size)
    decreases |done|
  {
    if done == [] {
      NothingAdded(runs, done);
    } else {
      var first, more := done[0], runs + [done[0]];
      SucceededTakes(runs, first);
      if first.status.Succeeded? { NextLeavesNoHole(SucceededStarts(runs), first.start, size); }
      if |done| > 1 { assert first.start in SucceededStarts(more); }
      PassLeavesNoHole(more, done[1..], size);
      FirstThenRest(runs, done);
    }
  }

  lemma NextLeavesNoHole(succeeded: set<int>, w: int, size: int)
    requires size > 0 && S.NoGap(succeeded, size) && Aligned(w, size) && forall x | x in succeeded :: Aligned(x, size)
    requires succeeded == {} || w - size in succeeded
    ensures S.NoGap(succeeded + {w}, size)
  {
    if succeeded != {} {
      S.NoGapExactlyWhenAdjacent(succeeded, size, w);
    }
  }

  /** A pass begins right after the watermark, so it leaves no window out. */
  lemma PassKeepsNoHoles(events: seq<Event>, runs: seq<RunRecord>, done: seq<RunRecord>, now: int,
                         size: int, backfill: int, outlook: int -> Attempt)
    requires size > 0 && backfill > 0 && forall w | w in SucceededStarts(runs) :: Aligned(w, size)
    requires PassOk(done, Limited(PendingOf(events, runs, now, size), backfill), outlook)
    ensures S.NoGap(SucceededStarts(runs), size) ==> S.NoGap(SucceededStarts(runs + done), size)
  {
    if S.NoGap(SucceededStarts(runs), size) {
      var pending := Limited(PendingOf(events, runs, now, size), backfill);
      PendingFollows(events, runs, now, size, backfill);
      assert forall i | 0 <= i < |done| :: done[i].start == pending[i];
      PassLeavesNoHole(runs, done, size);
    }
  }

  lemma PassKeepsLog(events: seq<Event>, runs: seq<RunRecord>, done: seq<RunRecord>, now: int,
                     size: int, backfill: int, outlook: int -> Attempt)
    requires size > 0 && backfill > 0 && forall w | w in SucceededStarts(runs) :: Aligned(w, size)
    requires PassOk(done, Limited(PendingOf(events, runs, now, size), backfill), outlook)
    ensures S.NoGap(SucceededStarts(runs), size) ==> S.NoGap(SucceededStarts(runs + done), size)
    ensures FromTheStart(events, runs) ==> FromTheStart(events, runs + done)
  {
    PassKeepsNoHoles(events, runs, done, now, size, backfill, outlook);
    PassBeginsAtTheStart(events, runs, done, now, size, backfill, outlook);
  }

  lemma PendingFollows(events: seq<Event>, runs: seq<RunRecord>, now: int, size: int, backfill: int)
    requires size > 0 && backfill > 0 && forall w | w in SucceededStarts(runs) :: Aligned(w, size)
    ensures var pending := Limited(PendingOf(events, runs, now, size), backfill);
            && (forall i | 0 <= i < |pending| :: Aligned(pending[i], size))
            && (forall i | 0 <= i < |pending| - 1 :: pending[i + 1] == pending[i] + size)
            && (pending != [] ==> SucceededStarts(runs) == {} || pending[0] - size in SucceededStarts(runs))
  {
    var last := LastSucceeded(runs);
    var pending := Pending(last, Earliest(events), now, size, backfill);
    PendingIsClosedAndNew(last, Earliest(events), now, size, backfill);
    assert forall i | 0 <= i < |pending| :: pending[i] in pending;
    if last.Some? {
      NextIsAligned(last.value, size);
      AlignedIsItsOwnStart(last.value + size, size);
    }
    assert pending == Limited(PendingOf(events, runs, now, size), backfill);
  }

  // ---------------------------------------------------------------- what the rows of aggregated windows mean

  ghost predicate Grounded(buckets: Buckets, events: seq<Event>, size: int) {
    forall key | key in buckets :: key.0 in Users(Between(events, key.1, key.1 + size))
  }

  ghost predicate InSyncFor(buckets: Buckets, events: seq<Event>, windows: set<int>, size: int) {
    forall user, w | w in windows :: InSync(buckets, events, user, w, size)
  }

  lemma StatementGrounds(events: seq<Event>, buckets: Buckets, w: int, size: int)
    requires Grounded(buckets, events, size)
    ensures Grounded(AggregateStatement(events, buckets, w, w + size), events, size)
  {
    var after := AggregateStatement(events, buckets, w, w + size);
    forall key | key in after
      ensures key.0 in Users(Between(events, key.1, key.1 + size))
    {
      RowHasACause(events, buckets, w, w + size, key);
    }
  }

  /** A row was there before, or its user has events in the window. */
  lemma RowHasACause(events: seq<Event>, buckets: Buckets, start: int, end: int, key: (UserId, int))
    requires key in AggregateStatement(events, buckets, start, end)
    ensures key in buckets || (key.1 == start && key.0 in Users(Between(events, start, end)))
  {
    AggregateRow(events, buckets, start, end, key);
  }

  /** Aggregating a window brings it into sync, whatever was stored, and leaves the others as they were. */
  lemma StatementSyncs(events: seq<Event>, buckets: Buckets, w: int, size: int, user: UserId, b: int)
    requires Grounded(buckets, events, size) && (b == w || InSync(buckets, events, user, b, size))
    ensures InSync(AggregateStatement(events, buckets, w, w + size), events, user, b, size)
  {
    AggregateRow(events, buckets, w, w + size, (user, b));
    RowIsInSync(events, buckets, AggregateStatement(events, buckets, w, w + size), w, size, user, b);
  }

  lemma RowIsInSync(events: seq<Event>, buckets: Buckets, after: Buckets, w: int, size: int, user: UserId, b: int)
    requires Grounded(buckets, events, size) && (b == w || InSync(buckets, events, user, b, size))
    requires var key, window := (user, b), Between(events, w, w + size);
             if b == w && user in Users(window) then key in after && after[key] == Direct(window, user)
             else (key in after <==> key in buckets) && (key in after ==> after[key] == buckets[key])
    ensures InSync(after, events, user, b, size)
  {
    var key := (user, b);
    assert key in buckets ==> key.0 in Users(Between(events, key.1, key.1 + size));
  }

  ghost predicate ModernBy(events: seq<Event>, runs: seq<RunRecord>, size: int) {
    (forall e | e in events :: e.at >= size) && forall w | w in SucceededStarts(runs) :: w >= 0
  }

  lemma RunStaysAligned(runs: seq<RunRecord>, size: int, record: RunRecord)
    requires size > 0 && Aligned(record.start, size) && forall w | w in SucceededStarts(runs) :: Aligned(w, size)
    ensures forall w | w in SucceededStarts(runs + [record]) :: Aligned(w, size)
  {
    SucceededTakes(runs, record);
  }

  lemma RunStaysModern(events: seq<Event>, runs: seq<RunRecord>, size: int, record: RunRecord)
    ensures ModernBy(events, runs, size) && record.start >= 0 ==> ModernBy(events, runs + [record], size)
  {
    SucceededTakes(runs, record);
  }

  ghost predicate SettledBy(events: seq<Event>, buckets: Buckets, runs: seq<RunRecord>, size: int) {
    Grounded(buckets, events, size) && InSyncFor(buckets, events, SucceededStarts(runs), size)
  }

  lemma RunSettles(events: seq<Event>, buckets: Buckets, runs: seq<RunRecord>, start: int, size: int,
                   attempt: Attempt, record: RunRecord)
    requires record.start == start && record.status == StatusOf(attempt)
    ensures SettledBy(events, buckets, runs, size) ==>
              SettledBy(events, AfterAttempt(events, buckets, start, size, attempt), runs + [record], size)
  {
    SucceededTakes(runs, record);
    AttemptSettles(events, buckets, SucceededStarts(runs), start, size, attempt);
  }

  lemma AttemptSettles(events: seq<Event>, buckets: Buckets, windows: set<int>, w: int, size: int, attempt: Attempt)
    ensures Grounded(buckets, events, size) && InSyncFor(buckets, events, windows, size) ==>
              var after := AfterAttempt(events, buckets, w, size, attempt);
              Grounded(after, events, size)
              && InSyncFor(after, events, windows + if attempt.Free? then {w} else {}, size)
  {
    if attempt.Free? && Grounded(buckets, events, size) && InSyncFor(buckets, events, windows, size) {
      var after := AggregateStatement(events, buckets, w, w + size);
      StatementGrounds(events, buckets, w, size);
      forall user, b | b in windows + {w}
        ensures InSync(after, events, user, b, size)
      {
        StatementSyncs(events, buckets, w, size, user, b);
      }
    }
  }

  /** Every window that successful runs have gone through is in sync with the events they read. */
  lemma {:induction false} AfterAllIsInSync(events: seq<Event>, buckets: Buckets, windows: seq<int>, size: int,
                                            user: UserId, b: int)
    requires Grounded(buckets, events, size) && (b in windows || InSync(buckets, events, user, b, size))
    ensures InSync(AfterAll(events, buckets, windows, size), events, user, b, size)
  {
    if windows != [] {
      var n := |windows| - 1;
      var before := AfterAll(events, buckets, windows[..n], size);
      AfterAllGrounds(events, buckets, windows[..n], size);
      LastOrBefore(windows, b);
      if b != windows[n] { AfterAllIsInSync(events, buckets, windows[..n], size, user, b); }
      StatementSyncs(events, before, windows[n], size, user, b);
    }
  }

  lemma {:induction false} AfterAllGrounds(events: seq<Event>, buckets: Buckets, windows: seq<int>, size: int)
    requires Grounded(buckets, events, size)
    ensures Grounded(AfterAll(events, buckets, windows, size), events, size)
  {
    if windows != [] {
      var n := |windows| - 1;
      AfterAllGrounds(events, buckets, windows[..n], size);
      StatementGrounds(events, AfterAll(events, buckets, windows[..n], size), windows[n], size);
    }
  }

  lemma AfterAllTakes(events: seq<Event>, buckets: Buckets, windows: seq<int>, i: nat, size: int)
    requires i < |windows|
    ensures AfterAll(events, buckets, windows[..i + 1], size)
         == AfterAttempt(events, AfterAll(events, buckets, windows[..i], size), windows[i], size, Free)
  {
    assert windows[..i + 1][..i] == windows[..i];
  }

  /** The first `n` pending windows have run and succeeded. */
  ghost predicate Underway(done: seq<RunRecord>, pending: seq<int>, n: nat, outlook: int -> Attempt) {
    && |done| == n <= |pending|
    && forall i | 0 <= i < n :: done[i].start == pending[i] && outlook(pending[i]).Free? && done[i].status.Succeeded?
  }

  /** So far the pass has added `done` to the log, and the table is that of the windows it went through. */
  ghost predicate InPass(events: seq<Event>, before: Buckets, runs: seq<RunRecord>, table: Buckets,
                         log: seq<RunRecord>, done: seq<RunRecord>, pending: seq<int>, n: nat, size: int,
                         outlook: int -> Attempt) {
    && Underway(done, pending, n, outlook) && log == runs + done
    && table == AfterAll(events, before, pending[..n], size)
  }

  lemma InPassMoves(events: seq<Event>, before: Buckets, runs: seq<RunRecord>, table: Buckets,
                    log: seq<RunRecord>, done: seq<RunRecord>, pending: seq<int>, n: nat, size: int,
                    outlook: int -> Attempt, run: RunRecord)
    requires InPass(events, before, runs, table, log, done, pending, n, size, outlook) && n < |pending|
    requires run.start == pending[n] && run.status == StatusOf(outlook(pending[n]))
    ensures var more := done + [run];
            var after := AfterAttempt(events, table, pending[n], size, outlook(pending[n]));
            if run.status.Succeeded?
            then InPass(events, before, runs, after, log + [run], more, pending, n + 1, size, outlook)
            else && PassOk(more, pending, outlook) && log + [run] == runs + more && SuccessesOf(more) == n
                 && after == AfterAll(events, before, pending[..n], size)
  {
    PassMoves(done, pending, n, outlook, run);
    AfterAllTakes(events, before, pending, n, size);
    Associates(runs, done, [run]);
  }

  lemma PassMoves(done: seq<RunRecord>, pending: seq<int>, n: nat, outlook: int -> Attempt, run: RunRecord)
    requires Underway(done, pending, n, outlook) && n < |pending|
    requires run.start == pending[n] && run.status == StatusOf(outlook(pending[n]))
    ensures if run.status.Succeeded? then Underway(done + [run], pending, n + 1, outlook)
            else PassOk(done + [run], pending, outlook) && SuccessesOf(done + [run]) == n
  {
  }

  /** How many runs of a pass succeeded: all, or all but the last. */
  function SuccessesOf(done: seq<RunRecord>): nat {
    if done != [] && !done[|done| - 1].status.Succeeded? then |done| - 1 else |done|
  }

  /** The runs of one pass: a prefix of the pending windows, cut short only by a run that did not succeed. */
  ghost predicate PassOk(done: seq<RunRecord>, pending: seq<int>, outlook: int -> Attempt) {
    && |done| <= |pending|
    && (forall i | 0 <= i < |done| :: done[i].start == pending[i] && done[i].status == StatusOf(outlook(pending[i])))
    && (forall i | 0 <= i < |done| - 1 :: done[i].status.Succeeded?)
    && (|done| < |pending| ==> done != [] && !done[|done| - 1].status.Succeeded?)
  }

  lemma SucceededTakes(runs: seq<RunRecord>, run: RunRecord)
    ensures SucceededStarts(runs + [run]) == SucceededStarts(runs) + if run.status.Succeeded? then {run.start} else {}
  {
  }

  // ---------------------------------------------------------------- progress

  lemma BacklogShrinks(from: int, newest: int, size: int, k: nat)
    requires size > 0 && Aligned(from, size) && Aligned(newest, size) && 0 < k <= |Backlog(from, newest, size)|
    ensures var last := Backlog(from, newest, size)[k - 1];
            last + size > from && |Backlog(last + size, newest, size)| == |Backlog(from, newest, size)| - k
  {
    AlignedIsItsOwnStart(from, size);
    AlignedIsItsOwnStart(newest, size);
    var backlog := Starts(from, newest, size);
    var last := backlog[k - 1];
    StepsAreAligned(from, k, size);
    assert from + k * size == last + size && k * size > 0;
    AlignedIsItsOwnStart(from + k * size, size);
    SpanShrinks(from, newest, size, k);
  }

  lemma SpanShrinks(from: int, newest: int, size: int, k: nat)
    requires size > 0 && Aligned(from, size) && Aligned(newest, size) && Aligned(from + k * size, size)
             && k <= Span(from, newest, size)
    ensures Span(from + k * size, newest, size) == Span(from, newest, size) - k
  {
    var n := Span(from, newest, size);
    if k < n {
      Distributes(k, n - 1 - k, size);
      SpanIs(from + k * size, newest, size, n - k);
    } else if n > 0 {
      Distributes(n - 1, 1, size);
    }
  }

  lemma Distributes(a: int, b: int, size: int)
    ensures (a + b) * size == a * size + b * size
  {
  }

  lemma SpanIs(from: int, to: int, size: int, n: nat)
    requires size > 0 && Aligned(from, size) && Aligned(to, size) && n > 0 && from + (n - 1) * size == to
    ensures Span(from, to, size) == n
  {
    var m := Span(from, to, size);
    TimesOrder(n - 1, 0, size);
    TimesOrder(m - 1, n - 1, size);
    TimesOrder(n - 1, m - 1, size);
  }

  lemma LastOfPass(runs: seq<RunRecord>, done: seq<RunRecord>)
    requires done != [] && (forall i | 0 <= i < |done| :: done[i].status.Succeeded?)
    requires forall i | 0 <= i < |done| - 1 :: done[i].start < done[i + 1].start
    requires forall w | w in SucceededStarts(runs) :: w < done[0].start
    ensures LastSucceeded(runs + done) == Some(done[|done| - 1].start)
  {
    var all, last := runs + done, done[|done| - 1];
    assert last in all;
    assert last.start in SucceededStarts(all);
    forall w | w in SucceededStarts(all)
      ensures w <= last.start
    {
      LastIsGreatest(runs, done, w);
    }
    GreatestIsLast(all, last.start);
  }

  lemma GreatestIsLast(runs: seq<RunRecord>, w: int)
    requires w in SucceededStarts(runs) && forall x | x in SucceededStarts(runs) :: x <= w
    ensures LastSucceeded(runs) == Some(w)
  {
  }

  lemma LastIsGreatest(runs: seq<RunRecord>, done: seq<RunRecord>, w: int)
    requires done != [] && forall i | 0 <= i < |done| - 1 :: done[i].start < done[i + 1].start
    requires forall x | x in SucceededStarts(runs) :: x < done[0].start
    requires w in SucceededStarts(runs + done)
    ensures w <= done[|done| - 1].start
  {
    var n := |done| - 1;
    var r :| r in runs + done && r.status.Succeeded? && r.start == w;
    if r in runs {
      assert w in SucceededStarts(runs);
      Ascending(done, 0, n);
    } else {
      var i :| 0 <= i < |done| && done[i] == r;
      Ascending(done, i, n);
    }
  }

  lemma {:induction false} Ascending(done: seq<RunRecord>, i: nat, j: nat)
    requires i <= j < |done| && forall k | 0 <= k < |done| - 1 :: done[k].start < done[k + 1].start
    ensures done[i].start <= done[j].start
    decreases j
  {
    if i < j { Ascending(done, i, j - 1); }
  }

  lemma PassReachesItsLimit(all: seq<int>, done: seq<RunRecord>, backfill: int, outlook: int -> Attempt)
    requires backfill > 0 && PassOk(done, Limited(all, backfill), outlook) && forall w | w in all :: outlook(w).Free?
    ensures |done| == if |all| > backfill then backfill else |all|
  {
    assert forall i | 0 <= i < |Limited(all, backfill)| :: Limited(all, backfill)[i] == all[i] && all[i] in all;
  }

  /**
   At a fixed clock, a pass in which nothing fails shrinks the `n` pending windows by
   `min(n, backfill)`: what it leaves pending is what it did not reach.
   */
  lemma PassShrinksTheBacklog(events: seq<Event>, runs: seq<RunRecord>, done: seq<RunRecord>, now: int,
                              size: int, backfill: int, outlook: int -> Attempt)
    requires size > 0 && backfill > 0 && forall w | w in SucceededStarts(runs) :: Aligned(w, size)
    requires PassOk(done, Limited(PendingOf(events, runs, now, size), backfill), outlook)
    requires forall w | w in PendingOf(events, runs, now, size) :: outlook(w).Free?
    ensures |PendingOf(events, runs + done, now, size)| == AfterPass(|PendingOf(events, runs, now, size)|, backfill)
  {
    var all := PendingOf(events, runs, now, size);
    PassReachesItsLimit(all, done, backfill, outlook);
    PassTakesOff(events, runs, done, now, size, backfill, outlook);
  }

  lemma PassTakesOff(events: seq<Event>, runs: seq<RunRecord>, done: seq<RunRecord>, now: int,
                     size: int, backfill: int, outlook: int -> Attempt)
    requires size > 0 && backfill > 0 && forall w | w in SucceededStarts(runs) :: Aligned(w, size)
    requires PassOk(done, Limited(PendingOf(events, runs, now, size), backfill), outlook)
    requires forall w | w in PendingOf(events, runs, now, size) :: outlook(w).Free?
    ensures |PendingOf(events, runs + done, now, size)| == |PendingOf(events, runs, now, size)| - |done|
  {
    if done == [] {
      NothingAdded(runs, done);
    } else {
      PassMovesTheWatermark(events, runs, done, now, size, backfill, outlook);
      WatermarkTakesOff(events, runs, runs + done, now, size, |done|);
    }
  }

  lemma WatermarkTakesOff(events: seq<Event>, runs: seq<RunRecord>, more: seq<RunRecord>, now: int, size: int, k: nat)
    requires size > 0 && forall w | w in SucceededStarts(runs) :: Aligned(w, size)
    requires 0 < k <= |PendingOf(events, runs, now, size)|
             && LastSucceeded(more) == Some(PendingOf(events, runs, now, size)[k - 1])
    ensures |PendingOf(events, more, now, size)| == |PendingOf(events, runs, now, size)| - k
  {
    FirstPendingIsAligned(LastSucceeded(runs), Earliest(events), size);
    NewestIsClosed(now, size);
    var from := FirstPending(LastSucceeded(runs), Earliest(events), size).value;
    assert PendingOf(events, runs, now, size) == Backlog(from, NewestClosed(now, size), size);
    BacklogShrinks(from, NewestClosed(now, size), size, k);
    PendingPast(events, more, now, size, PendingOf(events, runs, now, size)[k - 1]);
  }

  lemma PassMovesTheWatermark(events: seq<Event>, runs: seq<RunRecord>, done: seq<RunRecord>, now: int,
                              size: int, backfill: int, outlook: int -> Attempt)
    requires size > 0 && backfill > 0 && forall w | w in SucceededStarts(runs) :: Aligned(w, size)
    requires PassOk(done, Limited(PendingOf(events, runs, now, size), backfill), outlook) && done != []
    requires forall w | w in PendingOf(events, runs, now, size) :: outlook(w).Free?
    ensures LastSucceeded(runs + done) == Some(PendingOf(events, runs, now, size)[|done| - 1])
  {
    var all := PendingOf(events, runs, now, size);
    var pending := Limited(all, backfill);
    PendingIsClosedAndNew(LastSucceeded(runs), Earliest(events), now, size, backfill);
    assert pending == Pending(LastSucceeded(runs), Earliest(events), now, size, backfill);
    assert forall i | 0 <= i < |done| :: pending[i] == all[i] && all[i] in all && done[i].status.Succeeded?;
    forall i | 0 <= i < |done| - 1
      ensures done[i].start < done[i + 1].start
    {
      assert pending[i + 1] == pending[i] + size;
    }
    assert pending[0] in pending;
    LastOfPass(runs, done);
  }

  lemma PendingPast(events: seq<Event>, runs: seq<RunRecord>, now: int, size: int, last: int)
    requires size > 0 && LastSucceeded(runs) == Some(last)
    ensures PendingOf(events, runs, now, size) == Backlog(last + size, NewestClosed(now, size), size)
  {
  }

  function PendingOf(events: seq<Event>, runs: seq<RunRecord>, now: int, size: int): seq<int>
    requires size > 0
  {
    var from := FirstPending(LastSucceeded(runs), Earliest(events), size);
    if from.None? then [] else Backlog(from.value, NewestClosed(now, size), size)
  }

  lemma FirstPendingIsAligned(last: Option<int>, earliest: Option<int>, size: int)
    requires size > 0 && (last.Some? ==> Aligned(last.value, size))
    ensures var from := FirstPending(last, earliest, size); from.Some? ==> Aligned(from.value, size)
  {
    if last.Some? { NextIsAligned(last.value, size); }
  }
}
