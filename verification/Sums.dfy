/** Sums over finite sets, the meaning of `sum` and `count` in a grouped query. */
module Sums {
  ghost function Sum<K>(s: set<K>, f: K -> int): int {
    if s == {} then 0 else var k :| k in s; f(k) + Sum(s - {k}, f)
  }

  lemma {:induction false} SumTakes<K>(s: set<K>, f: K -> int, k: K)
    requires k in s
    ensures Sum(s, f) == f(k) + Sum(s - {k}, f)
    decreases |s|
  {
    var first :| first in s && Sum(s, f) == f(first) + Sum(s - {first}, f);
    if first != k {
      SumTakes(s - {first}, f, k);
      SumTakes(s - {k}, f, first);
      assert s - {first} - {k} == s - {k} - {first};
    }
  }

  lemma {:induction false} SumAgrees<K>(s: set<K>, f: K -> int, g: K -> int)
    requires forall k | k in s :: f(k) == g(k)
    ensures Sum(s, f) == Sum(s, g)
    decreases |s|
  {
    if k :| k in s {
      SumTakes(s, f, k);
      SumTakes(s, g, k);
      SumAgrees(s - {k}, f, g);
    }
  }

  lemma {:induction false} SumGrows<K>(s: set<K>, f: K -> int, g: K -> int)
    requires forall k | k in s :: f(k) <= g(k)
    ensures Sum(s, f) <= Sum(s, g)
    decreases |s|
  {
    if k :| k in s {
      SumTakes(s, f, k);
      SumTakes(s, g, k);
      SumGrows(s - {k}, f, g);
    }
  }

  /** When one function never exceeds another, the sums agree exactly if the functions do. */
  lemma SumsCompare<K>(s: set<K>, f: K -> int, g: K -> int)
    requires forall k | k in s :: f(k) <= g(k)
    ensures Sum(s, f) <= Sum(s, g)
    ensures Sum(s, f) == Sum(s, g) <==> forall k | k in s :: f(k) == g(k)
  {
    SumGrows(s, f, g);
    if k :| k in s && f(k) < g(k) {
      SumTakes(s, f, k);
      SumTakes(s, g, k);
      SumGrows(s - {k}, f, g);
    } else {
      SumAgrees(s, f, g);
    }
  }

  lemma {:induction false} SumOfZeros<K>(s: set<K>, f: K -> int)
    requires forall k | k in s :: f(k) == 0
    ensures Sum(s, f) == 0
    decreases |s|
  {
    if k :| k in s {
      SumTakes(s, f, k);
      SumOfZeros(s - {k}, f);
    }
  }

  lemma {:induction false} SumIsNatural<K>(s: set<K>, f: K -> int)
    requires forall k | k in s :: f(k) >= 0
    ensures Sum(s, f) >= 0
    decreases |s|
  {
    if k :| k in s {
      SumTakes(s, f, k);
      SumIsNatural(s - {k}, f);
    }
  }

  lemma {:induction false} SumAdds<K>(s: set<K>, f: K -> int, g: K -> int)
    ensures Sum(s, k => f(k) + g(k)) == Sum(s, f) + Sum(s, g)
    decreases |s|
  {
    if k :| k in s {
      SumTakes(s, f, k);
      SumTakes(s, g, k);
      SumTakes(s, k => f(k) + g(k), k);
      SumAdds(s - {k}, f, g);
    }
  }

  /** Keys that contribute nothing can be added to the index set. */
  lemma {:induction false} SumIgnoresZeros<K>(s: set<K>, more: set<K>, f: K -> int)
    requires s <= more && forall k | k in more - s :: f(k) == 0
    ensures Sum(more, f) == Sum(s, f)
    decreases |more - s|
  {
    if k :| k in more - s {
      SumTakes(more, f, k);
      SumIgnoresZeros(s, more - {k}, f);
    } else {
      forall k | k in more
        ensures k in s
      {
        assert k !in more - s;
      }
      assert more == s;
    }
  }

  ghost function At<A, B>(a: A, f: (A, B) -> int): B -> int { b => f(a, b) }

  ghost function AtSecond<A, B>(b: B, f: (A, B) -> int): A -> int { a => f(a, b) }

  ghost function RowSums<A, B>(t: set<B>, f: (A, B) -> int): A -> int { a => Sum(t, At(a, f)) }

  ghost function ColumnSums<A, B>(s: set<A>, f: (A, B) -> int): B -> int { b => Sum(s, AtSecond(b, f)) }

  lemma ColumnsTake<A, B>(s: set<A>, t: set<B>, f: (A, B) -> int, a: A)
    requires a in s
    ensures Sum(t, ColumnSums(s, f)) == Sum(t, At(a, f)) + Sum(t, ColumnSums(s - {a}, f))
  {
    var both := b => At(a, f)(b) + ColumnSums(s - {a}, f)(b);
    SumAdds(t, At(a, f), ColumnSums(s - {a}, f));
    forall b | b in t
      ensures ColumnSums(s, f)(b) == both(b)
    {
      SumTakes(s, AtSecond(b, f), a);
    }
    SumAgrees(t, ColumnSums(s, f), both);
  }

  /** A double sum may be taken in either order. */
  lemma {:induction false} SumSwaps<A, B>(s: set<A>, t: set<B>, f: (A, B) -> int)
    ensures Sum(s, RowSums(t, f)) == Sum(t, ColumnSums(s, f))
    decreases |s|
  {
    if a :| a in s {
      var rest := s - {a};
      SumTakes(s, RowSums(t, f), a);
      SumSwaps(rest, t, f);
      ColumnsTake(s, t, f, a);
    } else {
      SumOfZeros(t, ColumnSums(s, f));
    }
  }

  function Count<E>(s: seq<E>, p: E -> bool): nat {
    if s == [] then 0 else Count(s[..|s| - 1], p) + if p(s[|s| - 1]) then 1 else 0
  }

  lemma CountTakes<E>(s: seq<E>, e: E, p: E -> bool)
    ensures Count(s + [e], p) == Count(s, p) + if p(e) then 1 else 0
  {
    assert (s + [e])[..|s|] == s;
  }

  lemma {:induction false} CountAgrees<E>(s: seq<E>, p: E -> bool, q: E -> bool)
    requires forall e | e in s :: p(e) == q(e)
    ensures Count(s, p) == Count(s, q)
  {
    if s != [] {
      assert s == s[..|s| - 1] + [s[|s| - 1]];
      CountAgrees(s[..|s| - 1], p, q);
    }
  }

  /** A longer sequence counts at least as much, and more exactly when what was added counts. */
  lemma {:induction false} CountExtends<E>(s: seq<E>, n: nat, p: E -> bool)
    requires n <= |s|
    ensures Count(s[..n], p) <= Count(s, p)
    ensures Count(s[..n], p) == Count(s, p) <==> forall k | n <= k < |s| :: !p(s[k])
    decreases |s|
  {
    if n < |s| {
      var m := |s| - 1;
      CountExtends(s[..m], n, p);
      assert s[..m][..n] == s[..n];
      assert forall k | n <= k < m :: s[..m][k] == s[k];
    } else {
      assert s[..n] == s;
    }
  }

  lemma CountsLate<E>(s: seq<E>, n: nat, k: nat, p: E -> bool)
    requires n <= k < |s| && p(s[k])
    ensures Count(s[..n], p) < Count(s, p)
  {
    CountExtends(s, n, p);
  }

  ghost function InGroup<E, K(!new)>(p: E -> bool, key: E -> K, k: K): E -> bool {
    e => p(e) && key(e) == k
  }

  /** The size of each group. */
  ghost function GroupSize<E, K(!new)>(s: seq<E>, p: E -> bool, key: E -> K): K -> int {
    k => Count(s, InGroup(p, key, k))
  }

  /** Grouping loses nothing: the sizes of the groups add up to the size of the whole. */
  lemma {:induction false} GroupsAddUp<E, K(!new)>(s: seq<E>, p: E -> bool, key: E -> K, keys: set<K>)
    requires forall e | e in s && p(e) :: key(e) in keys
    ensures Count(s, p) == Sum(keys, GroupSize(s, p, key))
  {
    if s == [] {
      SumOfZeros(keys, GroupSize(s, p, key));
    } else {
      var before, e := s[..|s| - 1], s[|s| - 1];
      var f, g := GroupSize(s, p, key), GroupSize(before, p, key);
      assert s == before + [e];
      GroupsAddUp(before, p, key, keys);
      if p(e) {
        assert e in s;
        SumTakes(keys, f, key(e));
        SumTakes(keys, g, key(e));
        SumAgrees(keys - {key(e)}, f, g);
      } else {
        SumAgrees(keys, f, g);
      }
    }
  }

  // ---------------------------------------------------------------- least and greatest

  ghost function Pick<K>(s: set<K>): (k: K)
    requires s != {}
    ensures k in s
  {
    var k :| k in s; k
  }

  ghost function Min(s: set<int>): (m: int)
    requires s != {}
    ensures m in s && forall y | y in s :: m <= y
  {
    var x := Pick(s);
    if s == {x} then x else
      assert s == {x} + (s - {x});
      assert s - {x} != {};
      var m := Min(s - {x});
      if x < m then x else m
  }

  ghost function Max(s: set<int>): (m: int)
    requires s != {}
    ensures m in s && forall y | y in s :: y <= m
  {
    var x := Pick(s);
    if s == {x} then x else
      assert s == {x} + (s - {x});
      assert s - {x} != {};
      var m := Max(s - {x});
      if m < x then x else m
  }

  /** An id nobody has drawn. */
  ghost function Unused(used: set<int>): (id: int)
    ensures id !in used
  {
    if used == {} then 0 else Max(used) + 1
  }
}
