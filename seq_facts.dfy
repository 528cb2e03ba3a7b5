/**
 * Small facts about sequence concatenation, stated once so that proofs over the walks can
 * rewrite with them step by step instead of leaving the solver to rediscover them.
 */
module SeqFacts {
  lemma Assoc<T>(a: seq<T>, b: seq<T>, c: seq<T>)
    ensures (a + b) + c == a + (b + c)
  {
  }

  lemma ConsTail<T>(e: T, r: seq<T>)
    ensures ([e] + r)[0] == e && ([e] + r)[1..] == r
  {
  }

  lemma HeadTail<T>(s: seq<T>)
    requires s != []
    ensures s == [s[0]] + s[1..]
  {
  }

  /** The prefixes of `d + r` that end at or just after `d`. */
  lemma PrefixOfAppend<T>(d: seq<T>, r: seq<T>)
    requires r != []
    ensures (d + r)[..|d|] == d && (d + r)[..|d| + 1] == d + [r[0]]
    ensures (d + [r[0]]) + r[1..] == d + r
  {
    assert r == [r[0]] + r[1..];
  }

  lemma AppendNil<T>(a: seq<T>)
    ensures a + [] == a && [] + a == a
  {
  }

  /** A multiset added to both sides cancels. */
  lemma BagCancel<T>(a: multiset<T>, b: multiset<T>, o: multiset<T>)
    requires a + o == b + o
    ensures a == b
  {
    forall z
      ensures a[z] == b[z]
    {
      assert (a + o)[z] == (b + o)[z];
    }
  }
}
