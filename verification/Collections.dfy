/** Facts about sets and sequences that the verifier does not see unasked. */
module Collections {
  lemma SameSet<T>(a: set<T>, b: set<T>)
    requires (forall x | x in a :: x in b) && forall x | x in b :: x in a
    ensures a == b
  {
  }

  lemma OneMore<T>(s: set<T>, x: T, s': set<T>)
    requires forall y :: y in s' <==> y in s || y == x
    ensures s + {x} == s'
  {
  }

  lemma Associates<T>(a: seq<T>, b: seq<T>, c: seq<T>)
    ensures a + (b + c) == a + b + c
  {
  }

  lemma NothingAdded<T>(a: seq<T>, b: seq<T>)
    requires b == []
    ensures a + b == a
  {
  }

  lemma FirstThenRest<T>(a: seq<T>, b: seq<T>)
    requires b != []
    ensures a + [b[0]] + b[1..] == a + b
  {
  }

  lemma LastOrBefore<T>(s: seq<T>, x: T)
    requires s != []
    ensures x in s <==> x in s[..|s| - 1] || x == s[|s| - 1]
  {
    assert s == s[..|s| - 1] + [s[|s| - 1]];
  }
}
