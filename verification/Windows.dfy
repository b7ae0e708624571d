/**
 Window arithmetic. Time is nanoseconds since the start of year 1 UTC, the instant from which
 truncation counts, so UTC midnights are the multiples of a day.
 */
module Windows {
  const SECOND := 1_000_000_000
  const HOUR := 3600 * SECOND
  const DAY := 24 * HOUR

  /** The start of the window that holds `t`: the only multiple of `size` in `(t - size, t]`. */
  function BucketStart(t: int, size: int): (b: int)
    requires size > 0
    ensures b % size == 0 && b <= t < b + size
  {
    Multiple(t, size);
    t - t % size
  }

  predicate Aligned(b: int, size: int)
    requires size > 0
  {
    b % size == 0
  }

  lemma TimesOrder(a: int, b: int, size: int)
    requires size > 0
    ensures size * a < size * b <==> a < b
    ensures a * size < b * size <==> a < b
  {
    if a < b {
      assert size * (b - a) > 0;
      assert size * b == size * a + size * (b - a);
    } else {
      assert size * (a - b) >= 0;
      assert size * a == size * b + size * (a - b);
    }
  }

  lemma QuotientIsUnique(t: int, q: int, r: int, size: int)
    requires size > 0 && t == size * q + r && 0 <= r < size
    ensures t / size == q && t % size == r
  {
    assert t == size * (t / size) + t % size;
    assert size * (t / size + 1) == size * (t / size) + size && size * (q + 1) == size * q + size;
    TimesOrder(t / size, q + 1, size);
    TimesOrder(q, t / size + 1, size);
  }

  lemma MultipleIsAligned(k: int, size: int)
    requires size > 0
    ensures (size * k) % size == 0 && (size * k) / size == k
  {
    QuotientIsUnique(size * k, k, 0, size);
  }

  lemma Multiple(t: int, size: int)
    requires size > 0
    ensures t - t % size == size * (t / size) && (t - t % size) % size == 0
  {
    assert t == size * (t / size) + t % size;
    MultipleIsAligned(t / size, size);
  }

  /** Aligned instants less than a window apart are equal. */
  lemma AlignedApart(a: int, b: int, size: int)
    requires size > 0 && Aligned(a, size) && Aligned(b, size) && a < b
    ensures a + size <= b
  {
    assert a == size * (a / size) && b == size * (b / size);
    TimesOrder(a / size, b / size, size);
    assert size * (a / size + 1) == a + size;
    TimesOrder(b / size, a / size + 1, size);
  }

  lemma NextIsAligned(b: int, size: int)
    requires size > 0 && Aligned(b, size)
    ensures Aligned(b + size, size) && Aligned(b - size, size)
  {
    assert b == size * (b / size);
    MultipleIsAligned(b / size + 1, size);
    MultipleIsAligned(b / size - 1, size);
    assert size * (b / size + 1) == b + size && size * (b / size - 1) == b - size;
  }

  lemma StepsAreAligned(b: int, i: int, size: int)
    requires size > 0 && Aligned(b, size)
    ensures Aligned(b + i * size, size)
  {
    assert b == size * (b / size);
    MultipleIsAligned(b / size + i, size);
    assert size * (b / size + i) == b + i * size;
  }

  /** `t` lies in the window that starts at the aligned instant `b` exactly when `b` is its bucket start. */
  lemma WindowOf(t: int, b: int, size: int)
    requires size > 0 && Aligned(b, size)
    ensures b <= t < b + size <==> BucketStart(t, size) == b
  {
    var s := BucketStart(t, size);
    if b <= t < b + size && s != b {
      if s < b { AlignedApart(s, b, size); } else { AlignedApart(b, s, size); }
    }
  }

  /** How many windows there are from the aligned start `from` up to and including `to`. */
  function Span(from: int, to: int, size: int): (n: nat)
    requires size > 0 && Aligned(from, size) && Aligned(to, size)
    ensures from <= to ==> n > 0 && from + (n - 1) * size == to
    ensures from > to ==> n == 0
  {
    if from > to then 0 else
      assert from == size * (from / size) && to == size * (to / size);
      TimesOrder(to / size, from / size, size);
      assert size * (to / size - from / size) == to - from;
      to / size - from / size + 1
  }

  /** The window starts from `from` to `to`, in order. */
  function Starts(from: int, to: int, size: int): (starts: seq<int>)
    requires size > 0 && Aligned(from, size) && Aligned(to, size)
  {
    seq(Span(from, to, size), i => from + i * size)
  }

  /** Exactly the aligned instants of `[from, to]`, ascending, a window apart. */
  lemma StartsAreTheAlignedInstants(from: int, to: int, size: int)
    requires size > 0 && Aligned(from, size) && Aligned(to, size)
    ensures var starts := Starts(from, to, size);
            && (forall b :: b in starts <==> Aligned(b, size) && from <= b <= to)
            && (forall i | 0 <= i < |starts| - 1 :: starts[i + 1] == starts[i] + size)
  {
    var starts := Starts(from, to, size);
    forall b
      ensures b in starts <==> Aligned(b, size) && from <= b <= to
    {
      if b in starts {
        var i :| 0 <= i < |starts| && starts[i] == b;
        StepsAreAligned(from, i, size);
        TimesOrder(|starts| - 1, i, size);
        assert 0 <= i * size;
      }
      if Aligned(b, size) && from <= b <= to {
        var i := Span(from, b, size) - 1;
        TimesOrder(|starts| - 1, i, size);
        assert starts[i] == b;
      }
    }
    forall i | 0 <= i < |starts| - 1
      ensures starts[i + 1] == starts[i] + size
    {
      assert (i + 1) * size == i * size + size;
    }
  }

  /**
   The half-open windows partition the covered span: every instant from the first start to the
   end of the last window lies in exactly one of them, and no other instant lies in any.
   */
  lemma StartsPartitionTheSpan(from: int, to: int, size: int, t: int)
    requires size > 0 && Aligned(from, size) && Aligned(to, size) && from <= to
    ensures var starts := Starts(from, to, size);
            && (from <= t < to + size <==> exists i :: 0 <= i < |starts| && starts[i] <= t < starts[i] + size)
            && (forall i, j | 0 <= i < |starts| && 0 <= j < |starts| && starts[i] <= t < starts[i] + size
                            && starts[j] <= t < starts[j] + size :: i == j)
  {
    var starts := Starts(from, to, size);
    var s := BucketStart(t, size);
    assert forall b :: b in starts <==> Aligned(b, size) && from <= b <= to
           by { StartsAreTheAlignedInstants(from, to, size); }
    forall i | 0 <= i < |starts|
      ensures starts[i] <= t < starts[i] + size <==> starts[i] == s
    {
      assert starts[i] in starts;
      WindowOf(t, starts[i], size);
    }
    CoveredByItsBucket(from, to, size, t);
    assert (s in starts) <==> exists i :: 0 <= i < |starts| && starts[i] == s;
    forall i, j | 0 <= i < |starts| && 0 <= j < |starts| && starts[i] == s && starts[j] == s
      ensures i == j
    {
      TimesOrder(i, j, size);
      TimesOrder(j, i, size);
    }
  }

  lemma CoveredByItsBucket(from: int, to: int, size: int, t: int)
    requires size > 0 && Aligned(from, size) && Aligned(to, size) && from <= to
    ensures from <= t < to + size <==> from <= BucketStart(t, size) <= to
  {
    var s := BucketStart(t, size);
    if s < from { AlignedApart(s, from, size); }
    if to < s { AlignedApart(to, s, size); }
  }

  method BucketsBetween(from: int, to: int, size: int) returns (buckets: seq<int>)
    requires size > 0
    ensures buckets == Starts(BucketStart(from, size), BucketStart(to, size), size)
    ensures forall b :: b in buckets <==> Aligned(b, size) && from < b + size && b <= to
  {
    var first, last := BucketStart(from, size), BucketStart(to, size);
    ghost var n := Span(first, last, size);
    buckets := [];
    var b := first;
    while b <= last
      invariant |buckets| <= n && b == first + |buckets| * size
      invariant buckets == Starts(first, last, size)[..|buckets|]
      decreases last - b
    {
      assert n * size == (n - 1) * size + size;
      assert (|buckets| + 1) * size == |buckets| * size + size;
      buckets := buckets + [b];
      b := b + size;
    }
    if n > 0 { TimesOrder(n - 1, |buckets|, size); }
    StartsAreTheAlignedInstants(first, last, size);
    forall b
      ensures Aligned(b, size) ==> (first <= b <= last <==> from < b + size && b <= to)
    {
      if Aligned(b, size) {
        if b < first { AlignedApart(b, first, size); }
        if last < b { AlignedApart(last, b, size); }
      }
    }
  }

  /** When a window divides a day evenly, it lies within one UTC day. */
  lemma WindowsDoNotStraddleMidnight(b: int, size: int, t: int)
    requires size > 0 && DAY % size == 0 && Aligned(b, size) && b <= t < b + size
    ensures BucketStart(t, DAY) == BucketStart(b, DAY)
  {
    var midnight := BucketStart(t, DAY);
    assert DAY == size * (DAY / size) && midnight == DAY * (midnight / DAY);
    assert midnight == size * ((DAY / size) * (midnight / DAY)) by {
      assert (size * (DAY / size)) * (midnight / DAY) == size * ((DAY / size) * (midnight / DAY));
    }
    MultipleIsAligned((DAY / size) * (midnight / DAY), size);
    if b < midnight { AlignedApart(b, midnight, size); }
    WindowOf(b, midnight, DAY);
  }
}
