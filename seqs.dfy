/** Sequence vocabulary for the list comprehensions, dictionaries-of-lists,
    `sorted`, slices and SQL `ORDER BY ... LIMIT` the routers use. */
module Seqs {
  import opened Basics

  /** No two elements share a key (for example, no repeated question id). */
  predicate UniqueBy<T, K(==)>(s: seq<T>, key: T -> K)
  {
    forall i, j :: 0 <= i < j < |s| ==> key(s[i]) != key(s[j])
  }

  predicate Distinct<T(==)>(s: seq<T>)
  {
    forall i, j :: 0 <= i < j < |s| ==> s[i] != s[j]
  }

  /** `[x for x in s if p(x)]` */
  function Filter<T>(s: seq<T>, p: T -> bool): (r: seq<T>)
    ensures |r| <= |s|
    ensures forall x :: x in r ==> x in s && p(x)
  {
    if s == [] then []
    else
      var r := Filter(s[..|s| - 1], p);
      if p(s[|s| - 1]) then r + [s[|s| - 1]] else r
  }

  lemma {:induction false} FilterAppend<T>(a: seq<T>, b: seq<T>, p: T -> bool)
    ensures Filter(a + b, p) == Filter(a, p) + Filter(b, p)
    decreases |b|
  {
    if b == [] {
      assert a + b == a;
    } else {
      var b' := b[..|b| - 1];
      assert (a + b)[..|a + b| - 1] == a + b';
      FilterAppend(a, b', p);
    }
  }

  /** A filter keeps exactly the elements satisfying the predicate, each as
      often as it occurs in the input. */
  lemma {:induction false} FilterCount<T>(s: seq<T>, p: T -> bool, x: T)
    ensures multiset(Filter(s, p))[x] == if p(x) then multiset(s)[x] else 0
  {
    if s != [] {
      var s' := s[..|s| - 1];
      assert s == s' + [s[|s| - 1]];
      FilterCount(s', p, x);
    }
  }

  lemma FilterSubMultiset<T>(s: seq<T>, p: T -> bool)
    ensures multiset(Filter(s, p)) <= multiset(s)
  {
    forall x | true
      ensures multiset(Filter(s, p))[x] <= multiset(s)[x]
    {
      FilterCount(s, p, x);
    }
  }

  lemma FilterMembership<T>(s: seq<T>, p: T -> bool, x: T)
    ensures x in Filter(s, p) <==> x in s && p(x)
  {
    FilterCount(s, p, x);
    assert x in Filter(s, p) <==> multiset(Filter(s, p))[x] > 0;
    assert x in s <==> multiset(s)[x] > 0;
  }

  /** A unique key occurs at most once, so each element occurs at most once. */
  lemma {:induction false} UniqueAtMostOnce<T, K>(s: seq<T>, key: T -> K, x: T)
    requires UniqueBy(s, key)
    ensures multiset(s)[x] <= 1
  {
    if s != [] {
      var s' := s[..|s| - 1];
      assert s == s' + [s[|s| - 1]];
      UniqueAtMostOnce(s', key, x);
    }
  }

  lemma TwoPositions<T>(s: seq<T>, i: int, j: int)
    requires 0 <= i < j < |s| && s[i] == s[j]
    ensures multiset(s)[s[i]] >= 2
  {
    assert s == s[..j] + [s[j]] + s[j + 1..];
    assert s[i] in s[..j];
  }

  /** Drawing distinct positions of a pool whose keys are unique yields
      unique keys: this is how every `random.sample` keeps ids apart. */
  lemma SubMultisetUnique<T, K>(s: seq<T>, pool: seq<T>, key: T -> K)
    requires multiset(s) <= multiset(pool)
    requires UniqueBy(pool, key)
    ensures UniqueBy(s, key)
  {
    forall i, j | 0 <= i < j < |s|
      ensures key(s[i]) != key(s[j])
    {
      if s[i] == s[j] {
        TwoPositions(s, i, j);
        UniqueAtMostOnce(pool, key, s[i]);
      } else {
        assert s[i] in multiset(s) && s[j] in multiset(s);
        assert s[i] in pool && s[j] in pool;
        var a :| 0 <= a < |pool| && pool[a] == s[i];
        var b :| 0 <= b < |pool| && pool[b] == s[j];
        assert a != b;
        if a < b {
          assert key(pool[a]) != key(pool[b]);
        } else {
          assert key(pool[b]) != key(pool[a]);
        }
      }
    }
  }

  lemma FilterUnique<T, K>(s: seq<T>, p: T -> bool, key: T -> K)
    requires UniqueBy(s, key)
    ensures UniqueBy(Filter(s, p), key)
  {
    FilterSubMultiset(s, p);
    SubMultisetUnique(Filter(s, p), s, key);
  }

  /** Concatenating key-disjoint unique sequences keeps keys unique. */
  lemma AppendUnique<T, K>(a: seq<T>, b: seq<T>, key: T -> K)
    requires UniqueBy(a, key) && UniqueBy(b, key)
    requires forall x, y :: x in a && y in b ==> key(x) != key(y)
    ensures UniqueBy(a + b, key)
  {
    forall i, j | 0 <= i < j < |a + b|
      ensures key((a + b)[i]) != key((a + b)[j])
    {
      if j < |a| {
      } else if i >= |a| {
        assert (a + b)[i] == b[i - |a|] && (a + b)[j] == b[j - |a|];
      } else {
        assert (a + b)[i] in a && (a + b)[j] in b;
      }
    }
  }

  /** `sum(f(x) for x in s)` */
  function SumOf<T>(s: seq<T>, f: T -> int): int
  {
    if s == [] then 0 else SumOf(s[..|s| - 1], f) + f(s[|s| - 1])
  }

  lemma SumOfSnoc<T>(s: seq<T>, x: T, f: T -> int)
    ensures SumOf(s + [x], f) == SumOf(s, f) + f(x)
  {
    assert (s + [x])[..|s|] == s;
  }

  /** The elements of a sequence, as a set. */
  function Elems<T>(s: seq<T>): set<T>
  {
    set x | x in s
  }

  lemma {:induction false} ElemsSnoc<T>(s: seq<T>, x: T)
    ensures Elems(s + [x]) == Elems(s) + {x}
  {
    assert forall y :: y in s + [x] <==> y in s || y == x;
  }

  /** A sequence has at least as many positions as distinct elements, and
      exactly as many when no element repeats. */
  lemma {:induction false} ElemsCard<T>(s: seq<T>)
    ensures |Elems(s)| <= |s|
    ensures Distinct(s) ==> |Elems(s)| == |s|
    decreases |s|
  {
    if s != [] {
      var s', x := s[..|s| - 1], s[|s| - 1];
      assert s == s' + [x];
      ElemsCard(s');
      ElemsSnoc(s', x);
    }
  }

  // ---------------------------------------------------------------------
  // Ordering: Python's `sorted` and SQL's ORDER BY, on an integer sort key.

  predicate SortedBy<T>(s: seq<T>, key: T -> int)
  {
    forall i, j :: 0 <= i < j < |s| ==> key(s[i]) <= key(s[j])
  }

  function Insert<T>(x: T, s: seq<T>, key: T -> int): (r: seq<T>)
    ensures multiset(r) == multiset(s) + multiset{x}
    ensures |r| == |s| + 1
  {
    if s == [] then [x]
    else if key(x) <= key(s[0]) then [x] + s
    else
      assert s == [s[0]] + s[1..];
      [s[0]] + Insert(x, s[1..], key)
  }

  /** Stable insertion sort, ascending by `key`. */
  function SortBy<T>(s: seq<T>, key: T -> int): (r: seq<T>)
    ensures multiset(r) == multiset(s)
    ensures |r| == |s|
  {
    if s == [] then []
    else
      assert s == [s[0]] + s[1..];
      Insert(s[0], SortBy(s[1..], key), key)
  }

  lemma {:induction false} InsertSorted<T>(x: T, s: seq<T>, key: T -> int)
    requires SortedBy(s, key)
    ensures SortedBy(Insert(x, s, key), key)
  {
    if s != [] && key(x) > key(s[0]) {
      var t := s[1..];
      InsertSorted(x, t, key);
      var r := Insert(x, t, key);
      forall y | y in r
        ensures key(s[0]) <= key(y)
      {
        InsertBelow(x, s, key, y);
      }
      ConsSorted(s[0], r, key);
    }
  }

  /** Inserting past the head keeps every element at or above the head. */
  lemma InsertBelow<T>(x: T, s: seq<T>, key: T -> int, y: T)
    requires SortedBy(s, key) && s != [] && key(x) > key(s[0])
    requires y in Insert(x, s[1..], key)
    ensures key(s[0]) <= key(y)
  {
    var t := s[1..];
    assert y in multiset(Insert(x, t, key));
    if y != x {
      assert y in multiset(t);
      var k :| 0 <= k < |t| && t[k] == y;
      assert s[k + 1] == y;
    }
  }

  /** A head no larger than any element of a sorted tail gives a sorted sequence. */
  lemma ConsSorted<T>(h: T, r: seq<T>, key: T -> int)
    requires SortedBy(r, key)
    requires forall y | y in r :: key(h) <= key(y)
    ensures SortedBy([h] + r, key)
  {
    forall i, j | 0 <= i < j < |[h] + r|
      ensures key(([h] + r)[i]) <= key(([h] + r)[j])
    {
      if i == 0 {
        assert ([h] + r)[j] == r[j - 1];
      } else {
        assert ([h] + r)[i] == r[i - 1] && ([h] + r)[j] == r[j - 1];
      }
    }
  }

  /** Sorting yields an ordered permutation of its input. */
  lemma {:induction false} SortBySorted<T>(s: seq<T>, key: T -> int)
    ensures SortedBy(SortBy(s, key), key)
    ensures multiset(SortBy(s, key)) == multiset(s)
  {
    if s != [] {
      SortBySorted(s[1..], key);
      InsertSorted(s[0], SortBy(s[1..], key), key);
    }
  }

  /** SQL `LIMIT n`; SQLite reads a negative limit as "no limit". */
  function SqlLimit<T>(s: seq<T>, limit: int): (r: seq<T>)
    ensures |r| == if limit < 0 then |s| else Min(limit, |s|)
    ensures r <= s
  {
    if limit < 0 then s else s[..Min(limit, |s|)]
  }

  /** Python's normalisation of one slice bound for a positive step. */
  function PyIndex(i: int, n: nat): (r: nat)
    ensures r <= n
    ensures 0 <= i <= n ==> r == i
    ensures i > n ==> r == n
    ensures i < 0 ==> r == Max(i + n, 0)
  {
    if i < 0 then (if i + n < 0 then 0 else i + n)
    else if i > n then n
    else i
  }

  /** Python's `s[start:stop]`. */
  function PySlice<T>(s: seq<T>, start: int, stop: int): (r: seq<T>)
    ensures |r| <= |s|
  {
    var a := PyIndex(start, |s|);
    var b := PyIndex(stop, |s|);
    if a < b then s[a..b] else []
  }

  /** Python's `s[-n:]` for n >= 1: the last min(n, |s|) elements. */
  function LastN<T>(s: seq<T>, n: nat): (r: seq<T>)
    requires n >= 1
    ensures |r| == Min(n, |s|)
    ensures forall i :: 0 <= i < |r| ==> r[i] == s[|s| - |r| + i]
  {
    PySlice(s, -(n as int), |s|)
  }

  // ---------------------------------------------------------------------
  // Grouping: an insertion-ordered Python dict from a key to the list of
  // the rows that have it.

  datatype Group<K, T> = Group(key: K, members: seq<T>)

  function GroupKeys<K, T>(gs: seq<Group<K, T>>): (ks: seq<K>)
    ensures |ks| == |gs|
    ensures forall j :: 0 <= j < |gs| ==> ks[j] == gs[j].key
  {
    seq(|gs|, j requires 0 <= j < |gs| => gs[j].key)
  }

  /** `d.setdefault(k, []).append(x)` on an insertion-ordered dict. */
  function AddTo<K(==), T>(gs: seq<Group<K, T>>, k: K, x: T): seq<Group<K, T>>
  {
    if gs == [] then [Group(k, [x])]
    else if gs[0].key == k then [gs[0].(members := gs[0].members + [x])] + gs[1..]
    else [gs[0]] + AddTo(gs[1..], k, x)
  }

  function GroupBy<K(==), T>(s: seq<T>, key: T -> K): seq<Group<K, T>>
  {
    if s == [] then []
    else AddTo(GroupBy(s[..|s| - 1], key), key(s[|s| - 1]), s[|s| - 1])
  }

  /** The rows of `s` whose key is `k`, in order. */
  function WithKey<K(==), T>(s: seq<T>, key: T -> K, k: K): seq<T>
  {
    Filter(s, x => key(x) == k)
  }

  function TotalMembers<K, T>(gs: seq<Group<K, T>>): int
  {
    if gs == [] then 0 else |gs[0].members| + TotalMembers(gs[1..])
  }

  function SumGroups<K, T>(gs: seq<Group<K, T>>, f: T -> int): int
  {
    if gs == [] then 0 else SumOf(gs[0].members, f) + SumGroups(gs[1..], f)
  }

  lemma GroupKeysCons<K, T>(g: Group<K, T>, gs: seq<Group<K, T>>)
    ensures GroupKeys([g] + gs) == [g.key] + GroupKeys(gs)
  {
  }

  lemma {:induction false} AddToKeys<K, T>(gs: seq<Group<K, T>>, k: K, x: T)
    ensures GroupKeys(AddTo(gs, k, x))
         == if k in GroupKeys(gs) then GroupKeys(gs) else GroupKeys(gs) + [k]
    decreases |gs|
  {
    if gs != [] {
      assert gs == [gs[0]] + gs[1..];
      GroupKeysCons(gs[0], gs[1..]);
      if gs[0].key == k {
        GroupKeysCons(gs[0].(members := gs[0].members + [x]), gs[1..]);
      } else {
        AddToKeys(gs[1..], k, x);
        GroupKeysCons(gs[0], AddTo(gs[1..], k, x));
      }
    }
  }

  lemma {:induction false} AddToAt<K, T>(gs: seq<Group<K, T>>, k: K, x: T, j: nat)
    requires Distinct(GroupKeys(gs)) && j < |gs|
    ensures j < |AddTo(gs, k, x)|
    ensures AddTo(gs, k, x)[j]
         == if gs[j].key == k then gs[j].(members := gs[j].members + [x]) else gs[j]
    decreases j
  {
    if j > 0 {
      if gs[0].key == k {
        assert GroupKeys(gs)[0] != GroupKeys(gs)[j];
      } else {
        assert GroupKeys(gs[1..]) == GroupKeys(gs)[1..];
        AddToAt(gs[1..], k, x, j - 1);
      }
    }
  }

  lemma {:induction false} AddToLast<K, T>(gs: seq<Group<K, T>>, k: K, x: T)
    requires k !in GroupKeys(gs)
    ensures |AddTo(gs, k, x)| == |gs| + 1
    ensures AddTo(gs, k, x)[|gs|] == Group(k, [x])
    decreases |gs|
  {
    if gs != [] {
      assert GroupKeys(gs)[0] == gs[0].key;
      assert GroupKeys(gs[1..]) == GroupKeys(gs)[1..];
      AddToLast(gs[1..], k, x);
    }
  }

  lemma DistinctSnoc<T>(s: seq<T>, x: T)
    requires Distinct(s) && x !in s
    ensures Distinct(s + [x])
  {
  }

  lemma WithKeySnoc<K, T>(s: seq<T>, key: T -> K, k: K, x: T)
    ensures WithKey(s + [x], key, k) == WithKey(s, key, k) + (if key(x) == k then [x] else [])
  {
    assert (s + [x])[..|s|] == s;
  }

  lemma WithKeyEmpty<K, T>(s: seq<T>, key: T -> K, k: K)
    requires forall i :: 0 <= i < |s| ==> key(s[i]) != k
    ensures WithKey(s, key, k) == []
  {
    if WithKey(s, key, k) != [] {
      var y := WithKey(s, key, k)[0];
      FilterMembership(s, z => key(z) == k, y);
    }
  }

  /** The group keys are distinct and cover the key of every row. */
  lemma {:induction false} GroupByKeys<K, T>(s: seq<T>, key: T -> K)
    ensures Distinct(GroupKeys(GroupBy(s, key)))
    ensures forall i :: 0 <= i < |s| ==> key(s[i]) in GroupKeys(GroupBy(s, key))
  {
    if s != [] {
      var s', x := s[..|s| - 1], s[|s| - 1];
      GroupByKeys(s', key);
      var g := GroupBy(s', key);
      AddToKeys(g, key(x), x);
      if key(x) !in GroupKeys(g) {
        DistinctSnoc(GroupKeys(g), key(x));
      }
      forall i | 0 <= i < |s|
        ensures key(s[i]) in GroupKeys(GroupBy(s, key))
      {
        if i < |s'| {
          assert s[i] == s'[i];
        }
      }
    }
  }

  /** Grouping partitions the rows: each group holds exactly the rows with
      its key, in their original order, and no group is empty. */
  lemma {:induction false} GroupByMembers<K, T>(s: seq<T>, key: T -> K, j: nat)
    requires j < |GroupBy(s, key)|
    ensures GroupBy(s, key)[j].members == WithKey(s, key, GroupBy(s, key)[j].key)
    ensures GroupBy(s, key)[j].members != []
  {
    var s', x := s[..|s| - 1], s[|s| - 1];
    assert s == s' + [x];
    var g := GroupBy(s', key);
    GroupByKeys(s', key);
    AddToKeys(g, key(x), x);
    WithKeySnoc(s', key, GroupBy(s, key)[j].key, x);
    if j < |g| {
      AddToAt(g, key(x), x, j);
      GroupByMembers(s', key, j);
    } else {
      AddToLast(g, key(x), x);
      forall i | 0 <= i < |s'|
        ensures key(s'[i]) != key(x)
      {
      }
      WithKeyEmpty(s', key, key(x));
    }
  }

  lemma {:induction false} AddToTotals<K, T>(gs: seq<Group<K, T>>, k: K, x: T, f: T -> int)
    ensures TotalMembers(AddTo(gs, k, x)) == TotalMembers(gs) + 1
    ensures SumGroups(AddTo(gs, k, x), f) == SumGroups(gs, f) + f(x)
    decreases |gs|
  {
    if gs == [] {
      assert SumOf([x], f) == f(x) by { SumOfSnoc([], x, f); }
    } else if gs[0].key == k {
      var r := AddTo(gs, k, x);
      assert r[1..] == gs[1..];
      SumOfSnoc(gs[0].members, x, f);
    } else {
      AddToTotals(gs[1..], k, x, f);
      assert AddTo(gs, k, x)[1..] == AddTo(gs[1..], k, x);
    }
  }

  /** The per-key counts add up to the number of rows, and the per-key sums
      of any measure add up to its total. */
  lemma {:induction false} GroupByTotals<K, T>(s: seq<T>, key: T -> K, f: T -> int)
    ensures TotalMembers(GroupBy(s, key)) == |s|
    ensures SumGroups(GroupBy(s, key), f) == SumOf(s, f)
  {
    if s != [] {
      var s', x := s[..|s| - 1], s[|s| - 1];
      GroupByTotals(s', key, f);
      AddToTotals(GroupBy(s', key), key(x), x, f);
    }
  }
}
