/** Small facts of sequence algebra shared by both backends' proofs. */
module Sequences {
  /** Concatenation is associative. */
  lemma AppendAssociative<T>(a: seq<T>, b: seq<T>, c: seq<T>)
    ensures (a + b) + c == a + (b + c)
  {
  }

  /** Occurrences add up over a concatenation. */
  lemma MultisetOfAppend<T>(a: seq<T>, b: seq<T>, x: T)
    ensures multiset(a + b)[x] == multiset(a)[x] + multiset(b)[x]
  {
    assert multiset(a + b) == multiset(a) + multiset(b);
  }

  /** An element moves past a block that is empty whenever it is not. */
  lemma Regroup<T>(x: seq<T>, t1: seq<T>, r: seq<T>, u: seq<T>, t2: seq<T>)
    requires t1 == [] || r == []
    requires t1 + u == t2
    ensures (x + t1) + (r + u) == (x + r) + t2
  {
    if t1 == [] {
      assert x + t1 == x;
      assert t2 == u;
    } else {
      assert r + u == u;
      assert x + r == x;
    }
  }
}
