/** ORDER BY: an insertion sort under a total preorder, and what a sorted
    permutation of a table is. */
module Ordering {
  import opened Relational

  /** `le` orders every pair of values, transitively (ties allowed). */
  ghost predicate TotalPreorder<T(!new)>(le: (T, T) -> bool) {
    && (forall x, y :: le(x, y) || le(y, x))
    && (forall x, y, z :: le(x, y) && le(y, z) ==> le(x, z))
  }

  predicate SortedBy<T>(s: seq<T>, le: (T, T) -> bool) {
    forall i, j :: 0 <= i < j < |s| ==> le(s[i], s[j])
  }

  /** Puts `x` before the first element it is `le` to. */
  function Insert<T>(x: T, s: seq<T>, le: (T, T) -> bool): (r: seq<T>)
    ensures multiset(r) == multiset(s) + multiset{x}
  {
    if s == [] then [x]
    else if le(x, s[0]) then [x] + s
    else
      assert s == [s[0]] + s[1..];
      [s[0]] + Insert(x, s[1..], le)
  }

  /** The rows of `s` ordered by `le`. */
  function Sort<T(!new)>(s: seq<T>, le: (T, T) -> bool): (r: seq<T>)
    ensures multiset(r) == multiset(s)
    ensures TotalPreorder(le) ==> SortedBy(r, le)
  {
    if s == [] then []
    else
      assert s == [s[0]] + s[1..];
      var rest := Sort(s[1..], le);
      InsertSorted(s[0], rest, le);
      Insert(s[0], rest, le)
  }

  lemma {:induction false} SortedTail<T>(s: seq<T>, le: (T, T) -> bool)
    requires s != [] && SortedBy(s, le)
    ensures SortedBy(s[1..], le)
    ensures forall j :: 0 <= j < |s[1..]| ==> le(s[0], s[1..][j])
  {
    forall i, j | 0 <= i < j < |s[1..]| ensures le(s[1..][i], s[1..][j]) {
      assert s[1..][i] == s[i + 1] && s[1..][j] == s[j + 1];
    }
    forall j | 0 <= j < |s[1..]| ensures le(s[0], s[1..][j]) {
      assert s[1..][j] == s[j + 1];
    }
  }

  /** A value no greater than every element may go in front. */
  lemma {:induction false} SortedCons<T>(x: T, s: seq<T>, le: (T, T) -> bool)
    requires SortedBy(s, le)
    requires forall j :: 0 <= j < |s| ==> le(x, s[j])
    ensures SortedBy([x] + s, le)
  {
    var r := [x] + s;
    forall i, j | 0 <= i < j < |r| ensures le(r[i], r[j]) {
      assert r[j] == s[j - 1];
      if i > 0 {
        assert r[i] == s[i - 1];
      }
    }
  }

  lemma {:induction false} InsertSorted<T(!new)>(x: T, s: seq<T>, le: (T, T) -> bool)
    ensures TotalPreorder(le) && SortedBy(s, le) ==> SortedBy(Insert(x, s, le), le)
  {
    if TotalPreorder(le) && SortedBy(s, le) && s != [] {
      SortedTail(s, le);
      if le(x, s[0]) {
        forall j | 0 <= j < |s| ensures le(x, s[j]) {
          if j > 0 {
            assert le(s[0], s[1..][j - 1]);
          }
        }
        SortedCons(x, s, le);
      } else {
        var rest := Insert(x, s[1..], le);
        InsertSorted(x, s[1..], le);
        InsertBound(x, s, le);
        SortedCons(s[0], rest, le);
      }
    }
  }

  lemma {:induction false} InsertBound<T(!new)>(x: T, s: seq<T>, le: (T, T) -> bool)
    requires TotalPreorder(le) && SortedBy(s, le) && s != [] && !le(x, s[0])
    ensures forall j :: 0 <= j < |Insert(x, s[1..], le)| ==> le(s[0], Insert(x, s[1..], le)[j])
  {
    var rest := Insert(x, s[1..], le);
    forall j | 0 <= j < |rest| ensures le(s[0], rest[j]) {
      assert rest[j] in multiset(rest);
      if rest[j] != x {
        assert rest[j] in multiset(s[1..]);
        var m :| 0 <= m < |s[1..]| && s[1..][m] == rest[j];
        assert s[1..][m] == s[m + 1];
      }
    }
  }

  /** Sorting leaves a sum unchanged. */
  lemma {:induction false} SumByInsert<T>(x: T, s: seq<T>, le: (T, T) -> bool, f: T -> int)
    ensures SumBy(Insert(x, s, le), f) == f(x) + SumBy(s, f)
  {
    if s != [] && !le(x, s[0]) {
      var r := Insert(x, s, le);
      assert r[1..] == Insert(x, s[1..], le);
      SumByInsert(x, s[1..], le, f);
    } else if s != [] {
      assert ([x] + s)[1..] == s;
    }
  }

  lemma {:induction false} SumBySort<T(!new)>(s: seq<T>, le: (T, T) -> bool, f: T -> int)
    ensures SumBy(Sort(s, le), f) == SumBy(s, f)
  {
    if s != [] {
      SumBySort(s[1..], le, f);
      SumByInsert(s[0], Sort(s[1..], le), le, f);
    }
  }

  /** Sorting keeps a key unique. */
  lemma {:induction false} InsertDistinctKeys<T, K>(x: T, s: seq<T>, le: (T, T) -> bool, key: T -> K)
    requires DistinctKeys(s, key)
    requires forall y :: y in s ==> key(y) != key(x)
    ensures DistinctKeys(Insert(x, s, le), key)
  {
    if s == [] || le(x, s[0]) {
      DistinctKeysCons(x, s, key);
    } else {
      var rest := Insert(x, s[1..], le);
      DistinctKeysTail(s, key);
      assert forall y :: y in s[1..] ==> y in s;
      InsertDistinctKeys(x, s[1..], le, key);
      forall y | y in rest ensures key(y) != key(s[0]) {
        assert y in multiset(rest);
        if y == x {
          assert s[0] in s;
        } else {
          assert y in multiset(s[1..]);
          var m :| 0 <= m < |s[1..]| && s[1..][m] == y;
          assert s[1..][m] == s[m + 1];
        }
      }
      DistinctKeysCons(s[0], rest, key);
    }
  }

  lemma {:induction false} SortDistinctKeys<T(!new), K>(s: seq<T>, le: (T, T) -> bool, key: T -> K)
    requires DistinctKeys(s, key)
    ensures DistinctKeys(Sort(s, le), key)
  {
    if s != [] {
      DistinctKeysTail(s, key);
      SortDistinctKeys(s[1..], le, key);
      var rest := Sort(s[1..], le);
      forall y | y in rest ensures key(y) != key(s[0]) {
        assert y in multiset(s[1..]);
        var m :| 0 <= m < |s[1..]| && s[1..][m] == y;
        assert s[m + 1] == y;
      }
      InsertDistinctKeys(s[0], rest, le, key);
    }
  }

  /** `le` ties no two distinct rows of `s`. */
  ghost predicate NoTies<T>(s: seq<T>, le: (T, T) -> bool) {
    forall x, y :: x in s && y in s && le(x, y) && le(y, x) ==> x == y
  }

  lemma {:induction false} NoTiesPermutation<T>(a: seq<T>, b: seq<T>, le: (T, T) -> bool)
    requires NoTies(a, le) && multiset(a) == multiset(b)
    ensures NoTies(b, le)
  {
    forall x | x in b ensures x in a {
      assert x in multiset(b);
    }
  }

  /** Two sorted permutations start with the same row when `le` ties no two
      distinct rows. */
  lemma {:induction false} SortedHeadsEqual<T>(a: seq<T>, b: seq<T>, le: (T, T) -> bool)
    requires a != [] && multiset(a) == multiset(b)
    requires SortedBy(a, le) && SortedBy(b, le) && NoTies(a, le)
    ensures b != [] && a[0] == b[0]
  {
    assert a[0] in multiset(b);
    assert b[0] in multiset(a);
    var i :| 0 <= i < |a| && a[i] == b[0];
    var j :| 0 <= j < |b| && b[j] == a[0];
    if i > 0 && j > 0 {
      assert le(a[0], a[i]);
      assert le(b[0], b[j]);
    }
  }

  /** Removing the head of a seq removes one copy from its multiset. */
  lemma {:induction false} MultisetTail<T>(s: seq<T>)
    requires s != []
    ensures multiset(s[1..]) == multiset(s) - multiset{s[0]}
  {
    assert s == [s[0]] + s[1..];
  }

  /** The tails of two such permutations are again such permutations. */
  lemma {:induction false} SortedTails<T>(a: seq<T>, b: seq<T>, le: (T, T) -> bool)
    requires a != [] && multiset(a) == multiset(b)
    requires SortedBy(a, le) && SortedBy(b, le) && NoTies(a, le)
    ensures b != [] && a[0] == b[0]
    ensures multiset(a[1..]) == multiset(b[1..])
    ensures SortedBy(a[1..], le) && SortedBy(b[1..], le) && NoTies(a[1..], le)
  {
    SortedHeadsEqual(a, b, le);
    MultisetTail(a);
    MultisetTail(b);
    SortedTail(a, le);
    SortedTail(b, le);
    assert forall x :: x in a[1..] ==> x in a;
  }

  /** When `le` ties no two distinct rows of `a`, a sorted permutation of `a`
      is unique: ORDER BY then fixes the result completely. */
  lemma {:induction false} SortedPermutationsEqual<T>(a: seq<T>, b: seq<T>, le: (T, T) -> bool)
    requires multiset(a) == multiset(b)
    requires SortedBy(a, le) && SortedBy(b, le) && NoTies(a, le)
    ensures a == b
    decreases |a|
  {
    if a == [] {
      assert |b| == |multiset(b)| == 0;
    } else {
      SortedTails(a, b, le);
      SortedPermutationsEqual(a[1..], b[1..], le);
      assert a == [a[0]] + a[1..] && b == [b[0]] + b[1..];
    }
  }
}
