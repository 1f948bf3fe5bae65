/** Python's `random.sample`, `random.shuffle` and `random.choice`, modelled as
    nondeterministic choice: nothing is said about which elements come out,
    only that they are distinct positions of the pool (a sub-multiset) or a
    rearrangement of it (the same multiset). */
module Sampling {

  /** `random.sample(pool, k)`: k distinct positions of the pool, in any order. */
  method Sample<T(==)>(pool: seq<T>, k: nat) returns (picked: seq<T>)
    requires k <= |pool|
    ensures |picked| == k
    ensures multiset(picked) <= multiset(pool)
  {
    var rest := multiset(pool);
    picked := [];
    while |picked| < k
      invariant |picked| <= k
      invariant multiset(picked) + rest == multiset(pool)
    {
      assert |rest| == |pool| - |picked|;
      var x :| x in rest;
      picked := picked + [x];
      rest := rest - multiset{x};
    }
  }

  /** `random.shuffle(s)`: a permutation of s. */
  method Shuffle<T(==)>(s: seq<T>) returns (r: seq<T>)
    ensures multiset(r) == multiset(s)
  {
    var rest := multiset(s);
    r := [];
    while rest != multiset{}
      invariant multiset(r) + rest == multiset(s)
      decreases |rest|
    {
      var x :| x in rest;
      r := r + [x];
      rest := rest - multiset{x};
    }
  }

  /** `random.choice(pool)`: some element of a non-empty pool. */
  method Choice<T>(pool: seq<T>) returns (x: T)
    requires pool != []
    ensures x in pool
  {
    var i :| 0 <= i < |pool|;
    x := pool[i];
  }

  /** The rows of a SQL query without ORDER BY: every key exactly once, in an
      order the database chooses. */
  method Enumerate<K(==)>(keys: set<K>) returns (s: seq<K>)
    ensures forall i, j :: 0 <= i < j < |s| ==> s[i] != s[j]
    ensures forall k :: k in s <==> k in keys
  {
    var todo := keys;
    s := [];
    while todo != {}
      invariant forall i, j :: 0 <= i < j < |s| ==> s[i] != s[j]
      invariant todo <= keys
      invariant forall k :: k in s ==> k in keys && k !in todo
      invariant forall k :: k in keys ==> k in s || k in todo
      decreases |todo|
    {
      var k :| k in todo;
      s := s + [k];
      todo := todo - {k};
    }
  }
}
