/** Which windows are pending: the arithmetic shared by the scheduled pass and its model under concurrency. */
module Scheduling {
  import opened Options
  import opened Windows

  function NewestClosed(now: int, size: int): int
    requires size > 0
  {
    BucketStart(now, size) - size
  }

  /** The instant a run is asked for; the zero time stands for "the newest closed window". */
  function Target(at: int, now: int, size: int): int
    requires size > 0
  {
    BucketStart(if at == 0 then now - size else at, size)
  }

  /** Every window from `from` to the newest closed one. */
  function Backlog(from: int, newest: int, size: int): seq<int>
    requires size > 0
  {
    if from > newest then [] else Starts(BucketStart(from, size), BucketStart(newest, size), size)
  }

  function Limited(backlog: seq<int>, backfill: int): seq<int>
    requires backfill > 0
  {
    if |backlog| > backfill then backlog[..backfill] else backlog
  }

  function FirstPending(last: Option<int>, earliest: Option<int>, size: int): Option<int>
    requires size > 0
  {
    if last.Some? then Some(last.value + size)
    else if earliest.Some? then Some(BucketStart(earliest.value, size))
    else None
  }

  function Pending(last: Option<int>, earliest: Option<int>, now: int, size: int, backfill: int): seq<int>
    requires size > 0 && backfill > 0
  {
    var from := FirstPending(last, earliest, size);
    if from.None? then [] else Limited(Backlog(from.value, NewestClosed(now, size), size), backfill)
  }

  lemma AlignedIsItsOwnStart(b: int, size: int)
    requires size > 0 && Aligned(b, size)
    ensures BucketStart(b, size) == b
  {
    WindowOf(b, b, size);
  }

  lemma NewestIsClosed(now: int, size: int)
    requires size > 0
    ensures Aligned(NewestClosed(now, size), size)
            && NewestClosed(now, size) + size <= now < NewestClosed(now, size) + 2 * size
  {
    NextIsAligned(BucketStart(now, size), size);
  }

  /**
   No pending window is open, whatever the watermark, and every one is past an aligned watermark;
   they are consecutive, and without a limit they reach the newest closed window.
   */
  lemma PendingIsClosedAndNew(last: Option<int>, earliest: Option<int>, now: int, size: int, backfill: int)
    requires size > 0 && backfill > 0
    ensures var pending := Pending(last, earliest, now, size, backfill);
            && |pending| <= backfill
            && (forall w | w in pending :: Aligned(w, size) && w + size <= now)
            && (last.Some? && Aligned(last.value, size) ==> forall w | w in pending :: last.value < w)
            && (forall i | 0 <= i < |pending| - 1 :: pending[i + 1] == pending[i] + size)
            && (|pending| > 0 ==> pending[0] == BucketStart(FirstPending(last, earliest, size).value, size))
  {
    NewestIsClosed(now, size);
    var from := FirstPending(last, earliest, size);
    if from.Some? && from.value <= NewestClosed(now, size) {
      var newest := NewestClosed(now, size);
      AlignedIsItsOwnStart(newest, size);
      var first := BucketStart(from.value, size);
      StartsAreTheAlignedInstants(first, newest, size);
      var backlog, pending := Backlog(from.value, newest, size), Pending(last, earliest, now, size, backfill);
      assert pending <= backlog;
      forall w | w in pending
        ensures Aligned(w, size) && first <= w <= newest
      {
        assert w in backlog;
      }
      if last.Some? && Aligned(last.value, size) {
        NextIsAligned(last.value, size);
        AlignedIsItsOwnStart(from.value, size);
      }
    }
  }

  /** The windows from an aligned start that a pass may take: the aligned ones up to the newest, as many as allowed. */
  lemma LimitedBacklogIs(from: int, newest: int, size: int, backfill: int, w: int)
    requires size > 0 && backfill > 0 && Aligned(from, size)
    ensures var todo := Limited(Backlog(from, newest, size), backfill);
            && (w in todo <==> Aligned(w, size) && from <= w <= newest && w < from + backfill * size)
            && (todo != [] ==> todo[0] == from)
            && (forall i | 0 <= i < |todo| - 1 :: todo[i + 1] == todo[i] + size)
  {
    AlignedIsItsOwnStart(from, size);
    if from <= newest {
      var last := BucketStart(newest, size);
      StartsAreTheAlignedInstants(from, last, size);
      if Aligned(w, size) && last < w { AlignedApart(last, w, size); }
      StartsOfPrefix(from, last, size, backfill, w);
    }
  }

  lemma StartsOfPrefix(from: int, to: int, size: int, n: int, w: int)
    requires size > 0 && n > 0 && Aligned(from, size) && Aligned(to, size)
    ensures w in Limited(Starts(from, to, size), n) <==> w in Starts(from, to, size) && w < from + n * size
  {
    var starts := Starts(from, to, size);
    if w in starts {
      var i :| 0 <= i < |starts| && starts[i] == w;
      TimesOrder(i, n, size);
      if i < n { assert Limited(starts, n)[i] == w; }
    }
    if w in Limited(starts, n) {
      var i :| 0 <= i < |Limited(starts, n)| && Limited(starts, n)[i] == w;
      assert starts[i] == w;
      TimesOrder(i, n, size);
    }
  }

  /**
   The backlog is exactly the closed windows past the watermark; with nothing done yet, those from
   the window of the earliest event on.
   */
  lemma BacklogIsExactly(last: Option<int>, earliest: Option<int>, now: int, size: int, w: int)
    requires size > 0 && (last.Some? ==> Aligned(last.value, size))
    ensures var from := FirstPending(last, earliest, size);
            (from.Some? && w in Backlog(from.value, NewestClosed(now, size), size))
            <==> Aligned(w, size) && w + size <= now
                 && if last.Some? then last.value < w else earliest.Some? && earliest.value < w + size
  {
    var from, newest := FirstPending(last, earliest, size), NewestClosed(now, size);
    NewestIsClosed(now, size);
    AlignedIsItsOwnStart(newest, size);
    if Aligned(w, size) && newest < w { AlignedApart(newest, w, size); }
    if last.Some? {
      NextIsAligned(last.value, size);
      if Aligned(w, size) && last.value < w { AlignedApart(last.value, w, size); }
    }
    if from.Some? {
      if last.None? && Aligned(w, size) { NotBefore(earliest.value, w, size); }
      AlignedIsItsOwnStart(from.value, size);
      StartsAreTheAlignedInstants(from.value, newest, size);
    }
  }

  lemma NotBefore(t: int, w: int, size: int)
    requires size > 0 && Aligned(w, size)
    ensures t < w + size <==> BucketStart(t, size) <= w
  {
    if w < BucketStart(t, size) { AlignedApart(w, BucketStart(t, size), size); }
  }

  /** A run asked for without a timestamp is never refused while the clock does not go back. */
  lemma RunWithoutTimestampIsNeverRefused(now: int, later: int, size: int)
    requires size > 0 && now <= later
    ensures Target(0, now, size) == NewestClosed(now, size) && Target(0, now, size) + size <= later
  {
    NewestIsClosed(now, size);
    WindowOf(now - size, NewestClosed(now, size), size);
  }

  // ---------------------------------------------------------------- catching up

  function AfterPass(pending: nat, backfill: int): (left: nat)
    requires backfill > 0
  {
    if pending > backfill then pending - backfill else 0
  }

  function AfterPasses(pending: nat, backfill: int, passes: nat): nat
    requires backfill > 0
    decreases passes
  {
    if passes == 0 then pending else AfterPass(AfterPasses(pending, backfill, passes - 1), backfill)
  }

  /** Passes until nothing is left. */
  function PassesNeeded(pending: nat, backfill: int): (passes: nat)
    requires backfill > 0
    decreases pending
  {
    if pending == 0 then 0 else 1 + PassesNeeded(AfterPass(pending, backfill), backfill)
  }

  lemma {:induction false} PassesFinish(pending: nat, backfill: int, passes: nat)
    requires backfill > 0
    ensures AfterPasses(pending, backfill, passes) == 0 <==> passes >= PassesNeeded(pending, backfill)
    decreases passes
  {
    if passes > 0 {
      FirstPassFirst(pending, backfill, passes - 1);
      PassesFinish(AfterPass(pending, backfill), backfill, passes - 1);
    }
  }

  lemma {:induction false} FirstPassFirst(pending: nat, backfill: int, passes: nat)
    requires backfill > 0
    ensures AfterPasses(pending, backfill, passes + 1) == AfterPasses(AfterPass(pending, backfill), backfill, passes)
    decreases passes
  {
    if passes > 0 { FirstPassFirst(pending, backfill, passes - 1); }
  }

  /** They are as many as the quotient of the pending windows and the limit, rounded up. */
  lemma {:induction false} PassesNeededRoundsUp(pending: nat, backfill: int)
    requires backfill > 0
    ensures PassesNeeded(pending, backfill) == (pending + backfill - 1) / backfill
    decreases pending
  {
    if pending == 0 {
      QuotientIsUnique(backfill - 1, 0, backfill - 1, backfill);
    } else if pending <= backfill {
      QuotientIsUnique(pending + backfill - 1, 1, pending - 1, backfill);
    } else {
      PassesNeededRoundsUp(pending - backfill, backfill);
      OneBackfillMore(pending - 1, backfill);
    }
  }

  lemma OneBackfillMore(t: int, backfill: int)
    requires backfill > 0
    ensures (t + backfill) / backfill == t / backfill + 1
  {
    var q := t / backfill;
    assert t == backfill * q + t % backfill;
    assert backfill * (q + 1) == backfill * q + backfill;
    QuotientIsUnique(t + backfill, q + 1, t % backfill, backfill);
  }
}
