/** Relational building blocks over in-memory tables, a table being a sequence
    of rows in storage order: Filter is a WHERE clause, SumBy is SUM, GroupBy is
    GROUP BY and DeleteWhere is DELETE ... WHERE key = v. */
module Relational {

  /** A nullable SQL value: SUM over no rows is NULL. */
  datatype Nullable<T> = Null | NotNull(value: T)

  predicate Distinct<T(==)>(s: seq<T>) {
    forall i, j :: 0 <= i < j < |s| ==> s[i] != s[j]
  }

  /** No two rows of `s` agree on `key` (a PRIMARY KEY or UNIQUE column). */
  predicate DistinctKeys<T, K(==)>(s: seq<T>, key: T -> K) {
    forall i, j :: 0 <= i < j < |s| ==> key(s[i]) != key(s[j])
  }

  /** SELECT DISTINCT: each value of `s` once. */
  function Dedup<T(==,!new)>(s: seq<T>): (r: seq<T>)
    ensures Distinct(r)
    ensures forall x :: x in r <==> x in s
  {
    if s == [] then []
    else
      var rest := Dedup(s[1..]);
      if s[0] in rest then rest
      else
        assert forall j :: 0 <= j < |rest| ==> ([s[0]] + rest)[j + 1] == rest[j];
        [s[0]] + rest
  }

  /** The row itself as its key: `DistinctKeys(s, Itself)` is `Distinct(s)`. */
  function Itself<T>(x: T): T {
    x
  }

  lemma {:induction false} DistinctAsKeys<T>(s: seq<T>)
    ensures Distinct(s) <==> DistinctKeys(s, Itself)
  {
  }

  lemma {:induction false} DistinctKeysCons<T, K>(x: T, s: seq<T>, key: T -> K)
    requires DistinctKeys(s, key)
    requires forall y :: y in s ==> key(y) != key(x)
    ensures DistinctKeys([x] + s, key)
  {
    var r := [x] + s;
    forall i, j | 0 <= i < j < |r| ensures key(r[i]) != key(r[j]) {
      assert r[j] == s[j - 1];
      if i > 0 {
        assert r[i] == s[i - 1];
      } else {
        assert s[j - 1] in s;
      }
    }
  }

  lemma {:induction false} DistinctKeysTail<T, K>(s: seq<T>, key: T -> K)
    requires s != [] && DistinctKeys(s, key)
    ensures DistinctKeys(s[1..], key)
  {
    forall i, j | 0 <= i < j < |s[1..]| ensures key(s[1..][i]) != key(s[1..][j]) {
      assert s[1..][i] == s[i + 1] && s[1..][j] == s[j + 1];
    }
  }

  lemma {:induction false} DistinctKeysAppend<T, K>(s: seq<T>, x: T, key: T -> K)
    requires DistinctKeys(s, key)
    requires forall y :: y in s ==> key(y) != key(x)
    ensures DistinctKeys(s + [x], key)
  {
    forall i, j | 0 <= i < j < |s| + 1
      ensures key((s + [x])[i]) != key((s + [x])[j])
    {
      if j == |s| {
        assert s[i] in s;
      }
    }
  }

  // ---------------------------------------------------------------- WHERE

  /** The rows of `s` that satisfy `p`, in their storage order. */
  function Filter<T(!new)>(s: seq<T>, p: T -> bool): (r: seq<T>)
    ensures |r| <= |s|
    ensures forall x :: x in r <==> x in s && p(x)
  {
    if s == [] then [] else (if p(s[0]) then [s[0]] else []) + Filter(s[1..], p)
  }

  function Both<T>(p: T -> bool, q: T -> bool): T -> bool {
    x => p(x) && q(x)
  }

  function HasKey<T, K(==)>(key: T -> K, v: K): T -> bool {
    x => key(x) == v
  }

  function KeyIsNot<T, K(==)>(key: T -> K, v: K): T -> bool {
    x => key(x) != v
  }

  lemma {:induction false} FilterConcat<T(!new)>(a: seq<T>, b: seq<T>, p: T -> bool)
    ensures Filter(a + b, p) == Filter(a, p) + Filter(b, p)
  {
    if a == [] {
      assert a + b == b;
    } else {
      assert (a + b)[0] == a[0];
      assert (a + b)[1..] == a[1..] + b;
      FilterConcat(a[1..], b, p);
    }
  }

  lemma {:induction false} FilterCons<T(!new)>(x: T, s: seq<T>, p: T -> bool)
    ensures Filter([x] + s, p) == (if p(x) then [x] else []) + Filter(s, p)
  {
    assert ([x] + s)[1..] == s;
  }

  /** Two WHERE conditions applied one after the other are their conjunction. */
  lemma {:induction false} FilterBoth<T(!new)>(s: seq<T>, p: T -> bool, q: T -> bool)
    ensures Filter(Filter(s, p), q) == Filter(s, Both(p, q))
  {
    if s != [] {
      FilterBoth(s[1..], p, q);
      var head := if p(s[0]) then [s[0]] else [];
      FilterConcat(head, Filter(s[1..], p), q);
    }
  }

  /** Dropping rows keeps a key unique. */
  lemma {:induction false} FilterDistinctKeys<T(!new), K>(s: seq<T>, p: T -> bool, key: T -> K)
    requires DistinctKeys(s, key)
    ensures DistinctKeys(Filter(s, p), key)
  {
    if s != [] {
      var rest := Filter(s[1..], p);
      DistinctKeysTail(s, key);
      FilterDistinctKeys(s[1..], p, key);
      if p(s[0]) {
        forall y | y in rest ensures key(y) != key(s[0]) {
          var m :| 0 <= m < |s[1..]| && s[1..][m] == y;
          assert s[1..][m] == s[m + 1];
        }
        DistinctKeysCons(s[0], rest, key);
      }
    }
  }

  lemma {:induction false} FilterAll<T(!new)>(s: seq<T>, p: T -> bool)
    requires forall i :: 0 <= i < |s| ==> p(s[i])
    ensures Filter(s, p) == s
  {
    if s != [] {
      assert forall i :: 0 <= i < |s[1..]| ==> p(s[1..][i]) by {
        forall i | 0 <= i < |s[1..]| ensures p(s[1..][i]) { assert s[1..][i] == s[i + 1]; }
      }
      FilterAll(s[1..], p);
      assert p(s[0]);
      assert s == [s[0]] + s[1..];
    }
  }

  lemma {:induction false} FilterNone<T(!new)>(s: seq<T>, p: T -> bool)
    requires forall x :: x in s ==> !p(x)
    ensures Filter(s, p) == []
  {
    if s != [] {
      assert s[0] in s;
      FilterNone(s[1..], p);
    }
  }

  lemma {:induction false} FilterRemovesOne<T(!new)>(s: seq<T>, p: T -> bool, k: int)
    requires 0 <= k < |s|
    requires forall i :: 0 <= i < |s| ==> (p(s[i]) <==> i != k)
    ensures Filter(s, p) == s[..k] + s[k + 1..]
  {
    var pre, post := s[..k], s[k + 1..];
    calc {
      Filter(s, p);
      { assert s == pre + ([s[k]] + post); }
      Filter(pre + ([s[k]] + post), p);
      { FilterConcat(pre, [s[k]] + post, p); }
      Filter(pre, p) + Filter([s[k]] + post, p);
      { FilterCons(s[k], post, p); }
      Filter(pre, p) + Filter(post, p);
      { assert forall i :: 0 <= i < |pre| ==> pre[i] == s[i];
        FilterAll(pre, p);
        assert forall i :: 0 <= i < |post| ==> post[i] == s[k + 1 + i];
        FilterAll(post, p); }
      pre + post;
    }
  }

  // ---------------------------------------------------------------- DELETE

  /** DELETE FROM s WHERE key = v. */
  function DeleteWhere<T(!new), K(==)>(s: seq<T>, key: T -> K, v: K): (r: seq<T>)
    ensures forall x :: x in r <==> x in s && key(x) != v
  {
    Filter(s, KeyIsNot(key, v))
  }

  /** DELETE by a key value no row holds changes nothing. */
  lemma {:induction false} DeleteWhereAbsent<T(!new), K>(s: seq<T>, key: T -> K, v: K)
    requires forall x :: x in s ==> key(x) != v
    ensures DeleteWhere(s, key, v) == s
  {
    assert forall i :: 0 <= i < |s| ==> s[i] in s;
    FilterAll(s, KeyIsNot(key, v));
  }

  /** On a unique key, DELETE removes exactly the row holding `v` and keeps
      every other row in place. */
  lemma {:induction false} DeleteWhereRemovesOne<T(!new), K>(s: seq<T>, key: T -> K, v: K, k: int)
    requires DistinctKeys(s, key)
    requires 0 <= k < |s| && key(s[k]) == v
    ensures DeleteWhere(s, key, v) == s[..k] + s[k + 1..]
  {
    forall i | 0 <= i < |s| ensures KeyIsNot(key, v)(s[i]) <==> i != k {
      if i < k {
        assert key(s[i]) != key(s[k]);
      } else if i > k {
        assert key(s[k]) != key(s[i]);
      }
    }
    FilterRemovesOne(s, KeyIsNot(key, v), k);
  }

  /** DELETE keeps every unique column unique. */
  lemma {:induction false} DeleteWhereDistinctKeys<T(!new), K, J>(s: seq<T>, key: T -> K, v: K, other: T -> J)
    requires DistinctKeys(s, other)
    ensures DistinctKeys(DeleteWhere(s, key, v), other)
  {
    FilterDistinctKeys(s, KeyIsNot(key, v), other);
  }

  /** Deleting by the key of a row just appended, when no other row holds that
      key, gives back the table as it was. */
  lemma {:induction false} DeleteAfterAppend<T(!new), K>(s: seq<T>, x: T, key: T -> K)
    requires forall y :: y in s ==> key(y) != key(x)
    ensures DeleteWhere(s + [x], key, key(x)) == s
  {
    FilterConcat(s, [x], KeyIsNot(key, key(x)));
    assert Filter([x], KeyIsNot(key, key(x))) == [] by {
      assert ([x])[1..] == [];
    }
    DeleteWhereAbsent(s, key, key(x));
  }

  // ---------------------------------------------------------------- SUM

  /** The sum over the rows of `s` of `f`. */
  function SumBy<T>(s: seq<T>, f: T -> int): (r: int)
    ensures s == [] ==> r == 0
    ensures (forall x :: x in s ==> f(x) >= 0) ==> r >= 0
  {
    if s == [] then 0
    else
      assert forall x :: x in s[1..] ==> x in s;
      f(s[0]) + SumBy(s[1..], f)
  }

  /** `f` where `p` holds and 0 elsewhere: CASE WHEN p THEN f ELSE 0 END. */
  function Masked<T>(f: T -> int, p: T -> bool): T -> int {
    x => if p(x) then f(x) else 0
  }

  /** A SUM over some rows whose every term is positive is positive. */
  lemma {:induction false} SumByPositive<T>(s: seq<T>, f: T -> int)
    requires s != []
    requires forall x :: x in s ==> f(x) > 0
    ensures SumBy(s, f) > 0
  {
    assert s[0] in s;
    assert forall x :: x in s[1..] ==> x in s;
  }

  lemma {:induction false} SumByConcat<T>(a: seq<T>, b: seq<T>, f: T -> int)
    ensures SumBy(a + b, f) == SumBy(a, f) + SumBy(b, f)
  {
    if a == [] {
      assert a + b == b;
    } else {
      assert (a + b)[0] == a[0];
      assert (a + b)[1..] == a[1..] + b;
      SumByConcat(a[1..], b, f);
    }
  }

  /** Summing over the rows a WHERE clause keeps is summing the CASE
      expression over all rows. */
  lemma {:induction false} SumByFilter<T(!new)>(s: seq<T>, p: T -> bool, f: T -> int)
    ensures SumBy(Filter(s, p), f) == SumBy(s, Masked(f, p))
  {
    if s != [] {
      SumByFilter(s[1..], p, f);
      SumByConcat(if p(s[0]) then [s[0]] else [], Filter(s[1..], p), f);
    }
  }

  /** Two sums that agree term by term are equal. */
  lemma {:induction false} SumByPointwise<A, B>(a: seq<A>, b: seq<B>, f: A -> int, g: B -> int)
    requires |a| == |b|
    requires forall i :: 0 <= i < |a| ==> f(a[i]) == g(b[i])
    ensures SumBy(a, f) == SumBy(b, g)
  {
    if a != [] {
      SumByPointwise(a[1..], b[1..], f, g);
    }
  }

  // ---------------------------------------------------------------- GROUP BY

  /** One group of GROUP BY: the rows that share the grouping key. */
  datatype Group<T, K> = Group(key: K, rows: seq<T>)

  function KeysOf<T, K>(gs: seq<Group<T, K>>): (ks: seq<K>)
    ensures |ks| == |gs|
    ensures forall i :: 0 <= i < |gs| ==> ks[i] == gs[i].key
  {
    if gs == [] then [] else [gs[0].key] + KeysOf(gs[1..])
  }

  /** `gs` is the result of grouping `rows` by `key`: one group per distinct key
      value, each holding exactly the rows with that value, in storage order. */
  ghost predicate IsGrouping<T(!new), K>(gs: seq<Group<T, K>>, rows: seq<T>, key: T -> K) {
    && Distinct(KeysOf(gs))
    && (forall i :: 0 <= i < |gs| ==> gs[i].rows != [])
    && (forall i :: 0 <= i < |gs| ==> gs[i].rows == Filter(rows, HasKey(key, gs[i].key)))
    && (forall x :: x in rows ==> key(x) in KeysOf(gs))
  }

  /** Puts row `x`, whose key is `k`, in front of the first group for `k`, or
      opens a new last group for it. */
  function AddRow<T, K(==)>(gs: seq<Group<T, K>>, x: T, k: K): (r: seq<Group<T, K>>)
    ensures KeysOf(r) == if k in KeysOf(gs) then KeysOf(gs) else KeysOf(gs) + [k]
  {
    if gs == [] then [Group(k, [x])]
    else if gs[0].key == k then [Group(k, [x] + gs[0].rows)] + gs[1..]
    else
      assert KeysOf(gs) == [gs[0].key] + KeysOf(gs[1..]);
      [gs[0]] + AddRow(gs[1..], x, k)
  }

  lemma {:induction false} DistinctTail<T>(s: seq<T>)
    requires s != [] && Distinct(s)
    ensures Distinct(s[1..]) && s[0] !in s[1..]
  {
    forall i, j | 0 <= i < j < |s[1..]| ensures s[1..][i] != s[1..][j] {
      assert s[1..][i] == s[i + 1] && s[1..][j] == s[j + 1];
    }
  }

  /** Adding a row changes only the group with its key. */
  lemma {:induction false} AddRowKeeps<T, K>(gs: seq<Group<T, K>>, x: T, k: K, i: int)
    requires Distinct(KeysOf(gs)) && 0 <= i < |gs|
    ensures |AddRow(gs, x, k)| >= |gs|
    ensures AddRow(gs, x, k)[i] == if gs[i].key == k then Group(k, [x] + gs[i].rows) else gs[i]
  {
    var ks := KeysOf(gs);
    assert ks == [gs[0].key] + KeysOf(gs[1..]);
    DistinctTail(ks);
    if gs[0].key == k {
      if i > 0 {
        assert ks[0] != ks[i];
      }
    } else if i > 0 {
      AddRowKeeps(gs[1..], x, k, i - 1);
    }
  }

  /** A row with a new key opens a last group of its own. */
  lemma {:induction false} AddRowOpens<T, K>(gs: seq<Group<T, K>>, x: T, k: K)
    requires k !in KeysOf(gs)
    ensures |AddRow(gs, x, k)| == |gs| + 1 && AddRow(gs, x, k)[|gs|] == Group(k, [x])
  {
    if gs != [] {
      assert KeysOf(gs) == [gs[0].key] + KeysOf(gs[1..]);
      AddRowOpens(gs[1..], x, k);
    }
  }

  /** GROUP BY key over `rows`. */
  function GroupBy<T, K(==)>(rows: seq<T>, key: T -> K): (gs: seq<Group<T, K>>)
    ensures Distinct(KeysOf(gs))
  {
    if rows == [] then []
    else
      var gs := GroupBy(rows[1..], key);
      var k := key(rows[0]);
      assert k !in KeysOf(gs) ==> Distinct(KeysOf(gs) + [k]);
      AddRow(gs, rows[0], k)
  }

  lemma {:induction false} GroupByIsGrouping<T(!new), K>(rows: seq<T>, key: T -> K)
    ensures IsGrouping(GroupBy(rows, key), rows, key)
  {
    if rows != [] {
      var prev := GroupBy(rows[1..], key);
      GroupByIsGrouping(rows[1..], key);
      var x, k := rows[0], key(rows[0]);
      var gs := GroupBy(rows, key);
      assert gs == AddRow(prev, x, k);
      forall i | 0 <= i < |gs|
        ensures gs[i].rows != [] && gs[i].rows == Filter(rows, HasKey(key, gs[i].key))
      {
        if i < |prev| {
          AddRowKeeps(prev, x, k, i);
          GroupGains(rows, key, prev[i]);
          assert prev[i].rows != [];
          if prev[i].key == k {
            assert gs[i] == Group(k, [x] + prev[i].rows);
          } else {
            assert gs[i] == prev[i];
          }
        } else {
          AddRowOpens(prev, rows[0], key(rows[0]));
          GroupOpens(rows, key, KeysOf(prev));
        }
      }
    }
  }

  /** An existing group gains the new first row exactly when it has its key. */
  lemma {:induction false} GroupGains<T(!new), K>(rows: seq<T>, key: T -> K, g: Group<T, K>)
    requires rows != [] && g.rows == Filter(rows[1..], HasKey(key, g.key))
    ensures Filter(rows, HasKey(key, g.key))
      == if key(rows[0]) == g.key then [rows[0]] + g.rows else g.rows
  {
  }

  /** A first row whose key no later row has forms a group of its own. */
  lemma {:induction false} GroupOpens<T(!new), K>(rows: seq<T>, key: T -> K, ks: seq<K>)
    requires rows != [] && key(rows[0]) !in ks
    requires forall y :: y in rows[1..] ==> key(y) in ks
    ensures Filter(rows, HasKey(key, key(rows[0]))) == [rows[0]]
  {
    FilterNone(rows[1..], HasKey(key, key(rows[0])));
  }

  /** The sum of `f` within a group. */
  function RowsSum<T, K>(f: T -> int): Group<T, K> -> int {
    (g: Group<T, K>) => SumBy(g.rows, f)
  }

  lemma {:induction false} AddRowSum<T, K>(gs: seq<Group<T, K>>, x: T, k: K, f: T -> int)
    ensures SumBy(AddRow(gs, x, k), RowsSum(f)) == f(x) + SumBy(gs, RowsSum(f))
  {
    if gs == [] {
      assert SumBy([x], f) == f(x);
    } else if gs[0].key == k {
      var r := AddRow(gs, x, k);
      assert r[1..] == gs[1..];
      assert ([x] + gs[0].rows)[1..] == gs[0].rows;
    } else {
      var r := AddRow(gs, x, k);
      assert r[1..] == AddRow(gs[1..], x, k);
      AddRowSum(gs[1..], x, k, f);
    }
  }

  /** The groups partition the rows: summing per group and then over the
      groups is summing over all rows. */
  lemma {:induction false} GroupByPartition<T, K>(rows: seq<T>, key: T -> K, f: T -> int)
    ensures SumBy(GroupBy(rows, key), RowsSum(f)) == SumBy(rows, f)
  {
    if rows != [] {
      GroupByPartition(rows[1..], key, f);
      AddRowSum(GroupBy(rows[1..], key), rows[0], key(rows[0]), f);
    }
  }
}
