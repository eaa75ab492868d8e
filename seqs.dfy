/** Sequence operations behind the table manipulations of the pipeline:
    row filters, keep-first de-duplication, group-by counts and sums,
    stable sorting and sorted distinct keys. */
module Seqs {

  // ---------------------------------------------------------------- filters

  /** The elements of `s` that satisfy `p`, in their original order. */
  function Filter<T>(s: seq<T>, p: T -> bool): (r: seq<T>)
    ensures |r| <= |s|
    ensures forall x :: x in r ==> x in s && p(x)
    ensures forall x :: x in s && p(x) ==> x in r
  {
    if s == [] then [] else (if p(s[0]) then [s[0]] else []) + Filter(s[1..], p)
  }

  /** `a` is obtained from `b` by deleting elements: nothing is added and the
      relative order of the kept elements is unchanged. */
  predicate IsSubsequence<T(==)>(a: seq<T>, b: seq<T>)
  {
    if a == [] then true
    else if b == [] then false
    else (a[0] == b[0] && IsSubsequence(a[1..], b[1..])) || IsSubsequence(a, b[1..])
  }

  lemma {:induction false} SubsequenceRefl<T>(s: seq<T>)
    ensures IsSubsequence(s, s)
  {
    if s != [] { SubsequenceRefl(s[1..]); }
  }

  lemma {:induction false} SubsequenceConsRight<T>(a: seq<T>, x: T, b: seq<T>)
    requires IsSubsequence(a, b)
    ensures IsSubsequence(a, [x] + b)
  {
    if a != [] { assert ([x] + b)[1..] == b; }
  }

  lemma {:induction false} SubsequenceTrans<T>(a: seq<T>, b: seq<T>, c: seq<T>)
    requires IsSubsequence(a, b) && IsSubsequence(b, c)
    ensures IsSubsequence(a, c)
    decreases |c|
  {
    if a == [] {
    } else if a[0] == b[0] && IsSubsequence(a[1..], b[1..]) {
      if b[0] == c[0] && IsSubsequence(b[1..], c[1..]) {
        SubsequenceTrans(a[1..], b[1..], c[1..]);
      } else {
        SubsequenceTrans(a, b, c[1..]);
      }
    } else {
      if b[0] == c[0] && IsSubsequence(b[1..], c[1..]) {
        SubsequenceTrans(a, b[1..], c[1..]);
      } else {
        SubsequenceTrans(a, b, c[1..]);
      }
    }
  }

  lemma {:induction false} SubsequenceMembers<T>(a: seq<T>, b: seq<T>)
    requires IsSubsequence(a, b)
    ensures forall x :: x in a ==> x in b
    decreases |b|
  {
    if a != [] {
      if a[0] == b[0] && IsSubsequence(a[1..], b[1..]) {
        SubsequenceMembers(a[1..], b[1..]);
        assert forall x :: x in a ==> x == a[0] || x in a[1..];
      } else {
        SubsequenceMembers(a, b[1..]);
      }
    }
  }

  /** A filter deletes elements and keeps the order of the survivors. */
  lemma {:induction false} FilterIsSubsequence<T>(s: seq<T>, p: T -> bool)
    ensures IsSubsequence(Filter(s, p), s)
  {
    if s != [] {
      FilterIsSubsequence(s[1..], p);
      var rest := Filter(s[1..], p);
      if p(s[0]) {
        assert Filter(s, p) == [s[0]] + rest;
        assert ([s[0]] + rest)[1..] == rest;
      } else {
        assert Filter(s, p) == rest;
        if rest != [] { assert s[1..] == s[1..]; }
      }
    }
  }

  /** A filter removes nothing when every element passes it. */
  lemma {:induction false} FilterAllPass<T>(s: seq<T>, p: T -> bool)
    requires forall x :: x in s ==> p(x)
    ensures Filter(s, p) == s
  {
    if s != [] {
      assert forall x :: x in s[1..] ==> x in s;
      FilterAllPass(s[1..], p);
      assert [s[0]] + s[1..] == s;
    }
  }

  lemma {:induction false} FilterConcat<T>(a: seq<T>, b: seq<T>, p: T -> bool)
    ensures Filter(a + b, p) == Filter(a, p) + Filter(b, p)
  {
    if a == [] {
      assert a + b == b;
    } else {
      assert (a + b)[0] == a[0];
      assert (a + b)[1..] == a[1..] + b;
      FilterConcat(a[1..], b, p);
      var head := if p(a[0]) then [a[0]] else [];
      assert Filter(a + b, p) == head + (Filter(a[1..], p) + Filter(b, p));
      assert Filter(a, p) == head + Filter(a[1..], p);
    }
  }

  /** Filtering twice keeps exactly the elements that pass both filters. */
  lemma {:induction false} FilterFilter<T>(s: seq<T>, p: T -> bool, q: T -> bool, pq: T -> bool)
    requires forall x :: pq(x) == (p(x) && q(x))
    ensures Filter(Filter(s, p), q) == Filter(s, pq)
  {
    if s != [] {
      FilterFilter(s[1..], p, q, pq);
      var head := if p(s[0]) then [s[0]] else [];
      FilterConcat(head, Filter(s[1..], p), q);
      if p(s[0]) { assert head[1..] == []; }
    }
  }

  // ---------------------------------------------------------------- sums

  /** The sum of `w` over the elements of `s`. */
  function SumBy<T>(s: seq<T>, w: T -> real): real
  {
    if s == [] then 0.0 else w(s[0]) + SumBy(s[1..], w)
  }

  function One<T>(x: T): real { 1.0 }

  lemma {:induction false} SumOfOnes<T>(s: seq<T>)
    ensures SumBy(s, One) == |s| as real
  {
    if s != [] { SumOfOnes(s[1..]); }
  }

  function KeyIs<T, K(==)>(key: T -> K, k: K): T -> bool
  {
    x => key(x) == k
  }

  /** The elements of `s` whose key is `k`: one group of a group-by. */
  function Group<T, K(==)>(s: seq<T>, key: T -> K, k: K): (g: seq<T>)
    ensures forall x :: x in g ==> x in s && key(x) == k
    ensures forall x :: x in s && key(x) == k ==> x in g
  {
    Filter(s, KeyIs(key, k))
  }

  /** The mean of `w` over a non-empty `g`. */
  function MeanBy<T>(g: seq<T>, w: T -> real): real
    requires |g| > 0
  {
    SumBy(g, w) / |g| as real
  }

  /** The sum of `w` over the groups named by `ks`, group by group. */
  function SumOverGroups<T, K(==)>(ks: seq<K>, s: seq<T>, key: T -> K, w: T -> real): real
  {
    if ks == [] then 0.0 else SumBy(Group(s, key, ks[0]), w) + SumOverGroups(ks[1..], s, key, w)
  }

  predicate Distinct<K(==)>(ks: seq<K>)
  {
    forall i, j :: 0 <= i < j < |ks| ==> ks[i] != ks[j]
  }

  lemma {:induction false} SumOverGroupsCons<T, K>(ks: seq<K>, x: T, s: seq<T>, key: T -> K, w: T -> real)
    requires Distinct(ks)
    ensures SumOverGroups(ks, [x] + s, key, w)
         == SumOverGroups(ks, s, key, w) + (if key(x) in ks then w(x) else 0.0)
  {
    if ks != [] {
      var xs := [x] + s;
      assert xs[0] == x && xs[1..] == s;
      assert Group(xs, key, ks[0]) == (if key(x) == ks[0] then [x] else []) + Group(s, key, ks[0]);
      if key(x) == ks[0] {
        var g := Group(s, key, ks[0]);
        assert ([x] + g)[0] == x && ([x] + g)[1..] == g;
      } else {
        assert [] + Group(s, key, ks[0]) == Group(s, key, ks[0]);
      }
      assert Distinct(ks[1..]);
      SumOverGroupsCons(ks[1..], x, s, key, w);
      assert key(x) in ks <==> key(x) == ks[0] || key(x) in ks[1..];
      assert key(x) == ks[0] ==> key(x) !in ks[1..];
    }
  }

  /** Group-by conservation: when the keys are distinct and cover every
      element, the per-group sums add up to the sum over the whole table. */
  lemma {:induction false} PartitionSum<T, K>(ks: seq<K>, s: seq<T>, key: T -> K, w: T -> real)
    requires Distinct(ks)
    requires forall x :: x in s ==> key(x) in ks
    ensures SumOverGroups(ks, s, key, w) == SumBy(s, w)
  {
    if s == [] {
      EmptyGroups(ks, key, w);
    } else {
      assert [s[0]] + s[1..] == s;
      SumOverGroupsCons(ks, s[0], s[1..], key, w);
      PartitionSum(ks, s[1..], key, w);
    }
  }

  lemma {:induction false} EmptyGroups<T, K>(ks: seq<K>, key: T -> K, w: T -> real)
    ensures SumOverGroups(ks, [], key, w) == 0.0
  {
    if ks != [] { EmptyGroups(ks[1..], key, w); }
  }

  lemma {:induction false} SumByConcat<T>(a: seq<T>, b: seq<T>, w: T -> real)
    ensures SumBy(a + b, w) == SumBy(a, w) + SumBy(b, w)
  {
    if a == [] {
      assert a + b == b;
    } else {
      assert (a + b)[0] == a[0] && (a + b)[1..] == a[1..] + b;
      SumByConcat(a[1..], b, w);
    }
  }

  /** Taking element k out of a sequence takes its weight out of the sum. */
  lemma SumByRemove<T>(b: seq<T>, k: int, w: T -> real)
    requires 0 <= k < |b|
    ensures SumBy(b, w) == w(b[k]) + SumBy(b[..k] + b[k + 1..], w)
  {
    assert b == b[..k] + [b[k]] + b[k + 1..];
    SumByConcat(b[..k] + [b[k]], b[k + 1..], w);
    SumByConcat(b[..k], [b[k]], w);
    SumByConcat(b[..k], b[k + 1..], w);
    assert SumBy([b[k]], w) == w(b[k]) by { assert [b[k]][1..] == []; }
  }

  lemma MultisetRemove<T>(a: seq<T>, b: seq<T>, k: int)
    requires multiset(a) == multiset(b) && |a| > 0
    requires 0 <= k < |b| && b[k] == a[0]
    ensures multiset(a[1..]) == multiset(b[..k] + b[k + 1..])
  {
    var x := a[0];
    assert a == [x] + a[1..];
    assert b == b[..k] + [x] + b[k + 1..];
    calc {
      multiset(a[1..]);
      multiset(a) - multiset{x};
      multiset(b) - multiset{x};
      multiset(b[..k] + [x] + b[k + 1..]) - multiset{x};
      multiset(b[..k]) + multiset(b[k + 1..]);
      multiset(b[..k] + b[k + 1..]);
    }
  }

  /** Reordering a table does not change a column total. */
  lemma {:induction false} SumByPermutation<T>(a: seq<T>, b: seq<T>, w: T -> real)
    requires multiset(a) == multiset(b)
    ensures SumBy(a, w) == SumBy(b, w)
    decreases |a|
  {
    if a == [] {
      assert |b| == |multiset(b)| == 0;
    } else {
      assert a[0] in multiset(b);
      var k :| 0 <= k < |b| && b[k] == a[0];
      MultisetRemove(a, b, k);
      SumByPermutation(a[1..], b[..k] + b[k + 1..], w);
      SumByRemove(b, k, w);
    }
  }

  /** A table built with one row per group key: when each row carries its
      group's sum, the rows' column total is the sum over the groups. */
  lemma {:induction false} SumOverMapped<K, T, U>(ks: seq<K>, out: seq<U>, s: seq<T>, key: T -> K, w: T -> real, g: U -> real)
    requires |out| == |ks|
    requires forall i :: 0 <= i < |ks| ==> g(out[i]) == SumBy(Group(s, key, ks[i]), w)
    ensures SumBy(out, g) == SumOverGroups(ks, s, key, w)
  {
    if ks != [] {
      SumOverMapped(ks[1..], out[1..], s, key, w, g);
    }
  }

  lemma ShareDistributes(a: real, b: real, n: real)
    requires n > 0.0
    ensures (a + b) / n * 100.0 == a / n * 100.0 + b / n * 100.0
  {
  }

  /** Percentages each within half a cent (1/200) of the exact share
      cnt / n * 100 add up to within |s|/200 of the exact share of the
      column total. */
  lemma {:induction false} SharesClose<T>(s: seq<T>, pct: T -> real, cnt: T -> real, n: real)
    requires n > 0.0
    requires forall x :: x in s ==> -(1.0 / 200.0) <= pct(x) - cnt(x) / n * 100.0 <= 1.0 / 200.0
    ensures -(|s| as real / 200.0) <= SumBy(s, pct) - SumBy(s, cnt) / n * 100.0 <= |s| as real / 200.0
  {
    if s != [] {
      assert forall x :: x in s[1..] ==> x in s;
      SharesClose(s[1..], pct, cnt, n);
      assert s[0] in s;
      ShareDistributes(cnt(s[0]), SumBy(s[1..], cnt), n);
    }
  }

  /** When the counts add up to n, the percentages add up to 100 up to
      1/200 per row. */
  lemma SharesSumTo100<T>(s: seq<T>, pct: T -> real, cnt: T -> real, n: real)
    requires n > 0.0 && SumBy(s, cnt) == n
    requires forall x :: x in s ==> -(1.0 / 200.0) <= pct(x) - cnt(x) / n * 100.0 <= 1.0 / 200.0
    ensures -(|s| as real / 200.0) <= SumBy(s, pct) - 100.0 <= |s| as real / 200.0
  {
    SharesClose(s, pct, cnt, n);
    assert n / n * 100.0 == 100.0;
  }

  lemma {:induction false} FilterDistinct<T>(s: seq<T>, p: T -> bool)
    requires Distinct(s)
    ensures Distinct(Filter(s, p))
  {
    if s != [] {
      assert Distinct(s[1..]);
      FilterDistinct(s[1..], p);
      var rest := Filter(s[1..], p);
      if p(s[0]) {
        var r := [s[0]] + rest;
        assert s[0] !in s[1..];
        forall i, j | 0 <= i < j < |r| ensures r[i] != r[j] {
          if i == 0 { assert r[j] in rest; } else { assert r[i] == rest[i - 1] && r[j] == rest[j - 1]; }
        }
      } else {
        assert Filter(s, p) == rest;
      }
    }
  }

  // ---------------------------------------------------------------- keep-first de-duplication

  /** `drop_duplicates(keep='first')`: walk left to right and keep an element
      only when its key has not been seen before. */
  function DropDuplicatesFrom<T, K(==)>(s: seq<T>, key: T -> K, seen: set<K>): (r: seq<T>)
  {
    if s == [] then []
    else if key(s[0]) in seen then DropDuplicatesFrom(s[1..], key, seen)
    else [s[0]] + DropDuplicatesFrom(s[1..], key, seen + {key(s[0])})
  }

  function DropDuplicates<T, K(==)>(s: seq<T>, key: T -> K): seq<T>
  {
    DropDuplicatesFrom(s, key, {})
  }

  /** Index of the first element of `s` with key `k`. */
  function FirstIndex<T, K(==)>(s: seq<T>, key: T -> K, k: K): (i: nat)
    requires exists x :: x in s && key(x) == k
    ensures i < |s| && key(s[i]) == k
    ensures forall j :: 0 <= j < i ==> key(s[j]) != k
  {
    if key(s[0]) == k then 0
    else
      assert exists x :: x in s[1..] && key(x) == k by {
        var x :| x in s && key(x) == k;
        assert x != s[0];
      }
      1 + FirstIndex(s[1..], key, k)
  }

  /** The walk only keeps elements of `s` whose key was not already seen. */
  lemma {:induction false} DropDuplicatesFromMembers<T, K>(s: seq<T>, key: T -> K, seen: set<K>)
    ensures forall x :: x in DropDuplicatesFrom(s, key, seen) ==> x in s && key(x) !in seen
  {
    if s != [] {
      var x := s[0];
      if key(x) in seen {
        DropDuplicatesFromMembers(s[1..], key, seen);
      } else {
        DropDuplicatesFromMembers(s[1..], key, seen + {key(x)});
      }
      assert forall y :: y in s[1..] ==> y in s;
    }
  }

  lemma {:induction false} DropDuplicatesFromSubsequence<T, K>(s: seq<T>, key: T -> K, seen: set<K>)
    ensures IsSubsequence(DropDuplicatesFrom(s, key, seen), s)
  {
    if s != [] {
      var x := s[0];
      assert [x] + s[1..] == s;
      if key(x) in seen {
        DropDuplicatesFromSubsequence(s[1..], key, seen);
        SubsequenceConsRight(DropDuplicatesFrom(s[1..], key, seen), x, s[1..]);
      } else {
        var r' := DropDuplicatesFrom(s[1..], key, seen + {key(x)});
        DropDuplicatesFromSubsequence(s[1..], key, seen + {key(x)});
        assert ([x] + r')[0] == x && ([x] + r')[1..] == r';
      }
    }
  }

  /** No two elements of `r` share a key. */
  predicate KeysDistinct<T, K(==)>(r: seq<T>, key: T -> K)
  {
    forall i, j :: 0 <= i < j < |r| ==> key(r[i]) != key(r[j])
  }

  lemma {:induction false} DropDuplicatesFromDistinct<T, K>(s: seq<T>, key: T -> K, seen: set<K>)
    ensures KeysDistinct(DropDuplicatesFrom(s, key, seen), key)
  {
    if s != [] {
      var x := s[0];
      if key(x) in seen {
        assert DropDuplicatesFrom(s, key, seen) == DropDuplicatesFrom(s[1..], key, seen);
        DropDuplicatesFromDistinct(s[1..], key, seen);
      } else {
        var seen' := seen + {key(x)};
        var r' := DropDuplicatesFrom(s[1..], key, seen');
        var r := [x] + r';
        DropDuplicatesFromDistinct(s[1..], key, seen');
        DropDuplicatesFromMembers(s[1..], key, seen');
        forall i, j | 0 <= i < j < |r| ensures key(r[i]) != key(r[j]) {
          assert r[j] == r'[j - 1];
          if i == 0 { assert r[j] in r' && key(r[0]) in seen'; }
          else { assert r[i] == r'[i - 1]; }
        }
      }
    }
  }

  lemma {:induction false} DropDuplicatesFromComplete<T, K>(s: seq<T>, key: T -> K, seen: set<K>)
    ensures var r := DropDuplicatesFrom(s, key, seen);
      forall x :: x in s && key(x) !in seen ==> exists y :: y in r && key(y) == key(x)
  {
    if s != [] {
      var x := s[0];
      var r := DropDuplicatesFrom(s, key, seen);
      if key(x) in seen {
        DropDuplicatesFromComplete(s[1..], key, seen);
        forall y | y in s && key(y) !in seen ensures exists z :: z in r && key(z) == key(y) {
          assert y in s[1..];
        }
      } else {
        var seen' := seen + {key(x)};
        DropDuplicatesFromComplete(s[1..], key, seen');
        var r' := DropDuplicatesFrom(s[1..], key, seen');
        assert r == [x] + r';
        forall y | y in s && key(y) !in seen ensures exists z :: z in r && key(z) == key(y) {
          if key(y) == key(x) { assert r[0] == x; }
          else {
            assert y in s[1..];
            var z :| z in r' && key(z) == key(y);
            assert z in r;
          }
        }
      }
    }
  }

  /** Every element of `r` is the first element of `s` carrying its key. */
  predicate KeepsFirst<T(==), K(==)>(r: seq<T>, s: seq<T>, key: T -> K)
  {
    forall i :: 0 <= i < |r| ==>
      (exists x :: x in s && key(x) == key(r[i])) && r[i] == s[FirstIndex(s, key, key(r[i]))]
  }

  lemma {:induction false} DropDuplicatesFromFirst<T, K>(s: seq<T>, key: T -> K, seen: set<K>)
    ensures KeepsFirst(DropDuplicatesFrom(s, key, seen), s, key)
  {
    if s != [] {
      var x := s[0];
      var r := DropDuplicatesFrom(s, key, seen);
      var seen' := if key(x) in seen then seen else seen + {key(x)};
      var r' := DropDuplicatesFrom(s[1..], key, seen');
      DropDuplicatesFromFirst(s[1..], key, seen');
      DropDuplicatesFromMembers(s[1..], key, seen');
      assert r == if key(x) in seen then r' else [x] + r';
      forall i | 0 <= i < |r|
        ensures (exists y :: y in s && key(y) == key(r[i])) && r[i] == s[FirstIndex(s, key, key(r[i]))]
      {
        assert s[0] in s;
        if key(x) in seen || i > 0 {
          var k := if key(x) in seen then i else i - 1;
          assert r[i] == r'[k];
          assert r'[k] in r';
          assert r[i] in s[1..] && key(r[i]) !in seen';
          FirstIndexTail(s, key, key(r[i]));
        }
      }
    }
  }

  lemma FirstIndexTail<T, K>(s: seq<T>, key: T -> K, k: K)
    requires |s| > 0 && key(s[0]) != k
    requires exists x :: x in s[1..] && key(x) == k
    ensures (exists x :: x in s && key(x) == k)
    ensures s[FirstIndex(s, key, k)] == s[1..][FirstIndex(s[1..], key, k)]
  {
    var x :| x in s[1..] && key(x) == k;
    assert x in s;
  }

  /** Keep-first de-duplication deletes elements only, leaves no two elements
      with the same key, loses no key, and keeps for each key exactly the
      first element carrying it. */
  lemma DropDuplicatesSpec<T, K>(s: seq<T>, key: T -> K)
    ensures var r := DropDuplicates(s, key);
      && IsSubsequence(r, s)
      && KeysDistinct(r, key)
      && (forall x :: x in s ==> exists y :: y in r && key(y) == key(x))
      && KeepsFirst(r, s, key)
  {
    DropDuplicatesFromSubsequence(s, key, {});
    DropDuplicatesFromDistinct(s, key, {});
    DropDuplicatesFromComplete(s, key, {});
    DropDuplicatesFromFirst(s, key, {});
  }

  // ---------------------------------------------------------------- sorting

  /** `a` may precede `b` in a sort on `key` (descending when `desc`). */
  predicate InOrder<T>(key: T -> real, desc: bool, a: T, b: T)
  {
    if desc then key(b) <= key(a) else key(a) <= key(b)
  }

  predicate SortedBy<T>(s: seq<T>, key: T -> real, desc: bool)
  {
    forall i, j :: 0 <= i < j < |s| ==> InOrder(key, desc, s[i], s[j])
  }

  /** Putting an element in front of a sorted sequence keeps it sorted when
      the element may precede every element of it. */
  lemma SortedCons<T>(a: T, t: seq<T>, key: T -> real, desc: bool)
    requires SortedBy(t, key, desc)
    requires forall y :: y in t ==> InOrder(key, desc, a, y)
    ensures SortedBy([a] + t, key, desc)
  {
    var r := [a] + t;
    forall i, j | 0 <= i < j < |r| ensures InOrder(key, desc, r[i], r[j]) {
      assert r[j] == t[j - 1];
      if i == 0 { assert t[j - 1] in t; } else { assert r[i] == t[i - 1]; }
    }
  }

  lemma HeadPrecedesTail<T>(s: seq<T>, key: T -> real, desc: bool)
    requires |s| > 0 && SortedBy(s, key, desc)
    ensures forall y :: y in s[1..] ==> InOrder(key, desc, s[0], y)
  {
    forall y | y in s[1..] ensures InOrder(key, desc, s[0], y) {
      var j :| 0 <= j < |s[1..]| && s[1..][j] == y;
      assert s[j + 1] == y;
    }
  }

  function Insert<T>(x: T, s: seq<T>, key: T -> real, desc: bool): (r: seq<T>)
    requires SortedBy(s, key, desc)
    ensures multiset(r) == multiset(s) + multiset{x}
    ensures SortedBy(r, key, desc)
  {
    if s == [] then [x]
    else
      assert s == [s[0]] + s[1..];
      if InOrder(key, desc, x, s[0]) then
        assert forall y :: y in s ==> InOrder(key, desc, x, y) by {
          forall y | y in s ensures InOrder(key, desc, x, y) {
            var j :| 0 <= j < |s| && s[j] == y;
            if j > 0 { assert InOrder(key, desc, s[0], s[j]); }
          }
        }
        SortedCons(x, s, key, desc);
        assert multiset([x] + s) == multiset{x} + multiset(s);
        [x] + s
      else
        var t := Insert(x, s[1..], key, desc);
        HeadPrecedesTail(s, key, desc);
        assert forall y :: y in t ==> InOrder(key, desc, s[0], y) by {
          forall y | y in t ensures InOrder(key, desc, s[0], y) {
            assert y in multiset(t);
            if y != x { assert y in multiset(s[1..]); }
          }
        }
        SortedCons(s[0], t, key, desc);
        assert multiset([s[0]] + t) == multiset{s[0]} + multiset(t);
        assert multiset(s) == multiset{s[0]} + multiset(s[1..]);
        [s[0]] + t
  }

  /** `sort_values(key, ascending = !desc)`: stable insertion sort. */
  function SortBy<T>(s: seq<T>, key: T -> real, desc: bool): (r: seq<T>)
    ensures SortedBy(r, key, desc)
    ensures multiset(r) == multiset(s)
  {
    if s == [] then []
    else
      assert s == [s[0]] + s[1..];
      Insert(s[0], SortBy(s[1..], key, desc), key, desc)
  }

  lemma DistinctPermutation<K>(a: seq<K>, b: seq<K>)
    requires Distinct(a) && multiset(a) == multiset(b)
    ensures Distinct(b)
  {
    forall i, j | 0 <= i < j < |b| ensures b[i] != b[j] {
      if b[i] == b[j] {
        var m := multiset(b);
        assert b == b[..i] + [b[i]] + b[i + 1..j] + [b[j]] + b[j + 1..];
        assert multiset(b) == multiset(b[..i]) + multiset{b[i]} + multiset(b[i + 1..j]) + multiset{b[j]} + multiset(b[j + 1..]);
        assert m[b[i]] >= 2;
        DistinctCount(a, b[i]);
        assert false;
      }
    }
  }

  lemma {:induction false} DistinctCount<K>(a: seq<K>, x: K)
    requires Distinct(a)
    ensures multiset(a)[x] <= 1
  {
    if a != [] {
      assert a == [a[0]] + a[1..];
      assert Distinct(a[1..]);
      DistinctCount(a[1..], x);
      if a[0] == x {
        assert x !in a[1..];
      }
    }
  }

  // ---------------------------------------------------------------- sorted distinct keys

  predicate StrictlyIncreasing(s: seq<int>)
  {
    forall i, j :: 0 <= i < j < |s| ==> s[i] < s[j]
  }

  function InsertDistinct(x: int, s: seq<int>): (r: seq<int>)
    requires StrictlyIncreasing(s)
    ensures StrictlyIncreasing(r)
    ensures forall y :: y in r <==> y == x || y in s
  {
    if s == [] then [x]
    else if x < s[0] then [x] + s
    else if x == s[0] then s
    else
      var t := InsertDistinct(x, s[1..]);
      var r := [s[0]] + t;
      assert forall i, j :: 0 <= i < j < |r| ==> r[i] < r[j] by {
        forall i, j | 0 <= i < j < |r| ensures r[i] < r[j] {
          if i == 0 { assert r[j] in t; } else { assert r[i] == t[i - 1] && r[j] == t[j - 1]; }
        }
      }
      r
  }

  /** The sorted distinct values of `xs`: the group keys of a sorted group-by. */
  function SortedDistinct(xs: seq<int>): (r: seq<int>)
    ensures StrictlyIncreasing(r)
    ensures forall y :: y in r <==> y in xs
  {
    if xs == [] then [] else InsertDistinct(xs[0], SortedDistinct(xs[1..]))
  }

  lemma IncreasingIsDistinct(s: seq<int>)
    requires StrictlyIncreasing(s)
    ensures Distinct(s)
  {
  }

  // ---------------------------------------------------------------- extremes

  function Max(s: seq<int>): (m: int)
    requires |s| > 0
    ensures m in s && forall x :: x in s ==> x <= m
  {
    if |s| == 1 then s[0]
    else
      var t := Max(s[1..]);
      assert forall x :: x in s ==> x == s[0] || x in s[1..];
      if s[0] >= t then s[0] else t
  }

  function Min(s: seq<int>): (m: int)
    requires |s| > 0
    ensures m in s && forall x :: x in s ==> m <= x
  {
    if |s| == 1 then s[0]
    else
      var t := Min(s[1..]);
      assert forall x :: x in s ==> x == s[0] || x in s[1..];
      if s[0] <= t then s[0] else t
  }
}
