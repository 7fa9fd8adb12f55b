/** Sequence operations behind the pandas idioms the pipeline uses:
    boolean-mask filtering (`df[mask]`) and `drop_duplicates(keep='first')`. */
module Seqs {

  /** `df[mask]` where the mask is `p`; the order of the rows is kept. */
  function Filter<T(==)>(s: seq<T>, p: T -> bool): (r: seq<T>)
    ensures |r| <= |s|
    ensures forall i :: 0 <= i < |r| ==> p(r[i]) && r[i] in s
    ensures forall i :: 0 <= i < |s| && p(s[i]) ==> s[i] in r
  {
    if |s| == 0 then []
    else (if p(s[0]) then [s[0]] else []) + Filter(s[1..], p)
  }

  /** Filtering a list is deciding on its head, then filtering its tail. */
  lemma FilterCons<T>(x: T, c: seq<T>, p: T -> bool)
    ensures Filter([x] + c, p) == if p(x) then [x] + Filter(c, p) else Filter(c, p)
  {
    var s := [x] + c;
    assert s[0] == x && s[1..] == c;
    assert [] + Filter(c, p) == Filter(c, p);
  }

  /** Concatenation is associative; stated once so that proofs can cite it. */
  lemma Associa<T>(a: seq<T>, b: seq<T>, c: seq<T>)
    ensures a + (b + c) == (a + b) + c
  {
  }

  function Count<T>(s: seq<T>, p: T -> bool): nat {
    if |s| == 0 then 0 else (if p(s[0]) then 1 else 0) + Count(s[1..], p)
  }

  /** Filtering removes exactly the rows that fail the mask. */
  lemma {:induction false} FilterCount<T>(s: seq<T>, p: T -> bool)
    ensures |Filter(s, p)| == |s| - Count(s, x => !p(x))
  {
    if |s| > 0 {
      FilterCount(s[1..], p);
    }
  }

  /** Filtering twice with the same mask filters once. */
  lemma {:induction false} FilterIdempotent<T>(s: seq<T>, p: T -> bool)
    ensures Filter(Filter(s, p), p) == Filter(s, p)
  {
    if |s| > 0 {
      FilterIdempotent(s[1..], p);
      if p(s[0]) {
        assert ([s[0]] + Filter(s[1..], p))[1..] == Filter(s[1..], p);
      } else {
        assert [] + Filter(s[1..], p) == Filter(s[1..], p);
      }
    }
  }

  /** The set of keys appearing in `s`. */
  function KeysOf<T, K>(s: seq<T>, key: T -> K): set<K> {
    set i | 0 <= i < |s| :: key(s[i])
  }

  predicate DistinctKeys<T, K(==)>(s: seq<T>, key: T -> K) {
    forall i, j :: 0 <= i < j < |s| ==> key(s[i]) != key(s[j])
  }

  /** `s[j]` is the first element of `s` carrying its key. */
  predicate FirstOfKey<T, K(==)>(s: seq<T>, key: T -> K, j: int)
    requires 0 <= j < |s|
  {
    key(s[j]) !in KeysOf(s[..j], key)
  }

  /** `drop_duplicates(subset=key, keep='first')`: an element is kept iff no
      earlier element has its key. */
  function DedupBy<T, K(==)>(s: seq<T>, key: T -> K): (r: seq<T>)
    ensures |r| <= |s|
  {
    if |s| == 0 then []
    else
      var init := s[..|s| - 1];
      DedupBy(init, key) + (if key(s[|s| - 1]) in KeysOf(init, key) then [] else [s[|s| - 1]])
  }

  /** Of two elements with one key, the first is kept. */
  lemma DedupPrimeiro<T, K>(x: T, y: T, key: T -> K)
    requires key(x) == key(y)
    ensures DedupBy([x, y], key) == [x]
  {
    assert [x, y][..1] == [x];
    assert [x][..0] == [];
    assert key([x][0]) in KeysOf([x], key);
  }

  /** Deduplication keeps one element for every key, never two for one key,
      and only elements that are the first of their key. */
  lemma {:induction false} DedupKeys<T, K>(s: seq<T>, key: T -> K)
    ensures KeysOf(DedupBy(s, key), key) == KeysOf(s, key)
    ensures DistinctKeys(DedupBy(s, key), key)
    ensures forall i :: 0 <= i < |DedupBy(s, key)| ==>
              exists j :: 0 <= j < |s| && s[j] == DedupBy(s, key)[i] && FirstOfKey(s, key, j)
  {
    if |s| > 0 {
      var init := s[..|s| - 1];
      var last := s[|s| - 1];
      DedupKeys(init, key);
      var d := DedupBy(init, key);
      var r := DedupBy(s, key);
      assert KeysOf(s, key) == KeysOf(init, key) + {key(last)} by {
        forall k | k in KeysOf(s, key) ensures k in KeysOf(init, key) + {key(last)} {
          var i :| 0 <= i < |s| && key(s[i]) == k;
          if i < |s| - 1 {
            assert init[i] == s[i];
          }
        }
        forall k | k in KeysOf(init, key) ensures k in KeysOf(s, key) {
          var i :| 0 <= i < |init| && key(init[i]) == k;
          assert s[i] == init[i];
        }
      }
      forall i | 0 <= i < |d|
        ensures exists j :: 0 <= j < |s| && s[j] == r[i] && FirstOfKey(s, key, j)
      {
        var j :| 0 <= j < |init| && init[j] == d[i] && FirstOfKey(init, key, j);
        assert s[..j] == init[..j];
        assert r[i] == d[i] && s[j] == init[j];
      }
      if key(last) in KeysOf(init, key) {
        assert r == d;
        assert KeysOf(r, key) == KeysOf(s, key);
      } else {
        assert r == d + [last];
        assert KeysOf(r, key) == KeysOf(d, key) + {key(last)} by {
          forall k | k in KeysOf(r, key) ensures k in KeysOf(d, key) + {key(last)} {
            var i :| 0 <= i < |r| && key(r[i]) == k;
            if i < |d| {
              assert r[i] == d[i];
            } else {
              assert r[i] == last;
            }
          }
          forall k | k in KeysOf(d, key) ensures k in KeysOf(r, key) {
            var i :| 0 <= i < |d| && key(d[i]) == k;
            assert r[i] == d[i];
          }
          assert r[|d|] == last;
        }
        forall i, j | 0 <= i < j < |r| ensures key(r[i]) != key(r[j]) {
          if j == |d| {
            assert r[i] == d[i];
            assert key(d[i]) in KeysOf(d, key);
          } else {
            assert r[i] == d[i] && r[j] == d[j];
          }
        }
        assert s[..|s| - 1] == init;
        assert FirstOfKey(s, key, |s| - 1);
      }
    }
  }

  /** Deduplicating a second time changes nothing. */
  lemma DedupIdempotent<T, K>(s: seq<T>, key: T -> K)
    ensures DedupBy(DedupBy(s, key), key) == DedupBy(s, key)
  {
    DedupKeys(s, key);
    DedupDistinct(DedupBy(s, key), key);
  }

  /** A sequence whose keys are already distinct is its own deduplication. */
  lemma {:induction false} DedupDistinct<T, K>(s: seq<T>, key: T -> K)
    requires DistinctKeys(s, key)
    ensures DedupBy(s, key) == s
  {
    if |s| > 0 {
      var init := s[..|s| - 1];
      DedupDistinct(init, key);
      assert key(s[|s| - 1]) !in KeysOf(init, key);
      assert init + [s[|s| - 1]] == s;
    }
  }

  /** Deduplication keeps only elements of the input. */
  /** Every element of `s` that `p` keeps, and that `f` holds, has its key
      among those of the deduplicated `f`. */
  lemma DedupCobre<T, K>(s: seq<T>, f: seq<T>, key: T -> K, p: T -> bool)
    requires forall i :: 0 <= i < |s| && p(s[i]) ==> s[i] in f
    ensures forall i :: 0 <= i < |s| && p(s[i]) ==> key(s[i]) in KeysOf(DedupBy(f, key), key)
  {
    DedupKeys(f, key);
    forall i | 0 <= i < |s| && p(s[i]) ensures key(s[i]) in KeysOf(DedupBy(f, key), key) {
      var j :| 0 <= j < |f| && f[j] == s[i];
      assert key(f[j]) in KeysOf(f, key);
    }
  }

  lemma DedupSub<T, K>(s: seq<T>, key: T -> K)
    ensures forall i :: 0 <= i < |DedupBy(s, key)| ==> DedupBy(s, key)[i] in s
  {
    DedupKeys(s, key);
  }

  lemma KeysOfAppend<T, K>(a: seq<T>, b: seq<T>, key: T -> K)
    ensures KeysOf(a + b, key) == KeysOf(a, key) + KeysOf(b, key)
  {
    var ab := a + b;
    forall k | k in KeysOf(ab, key) ensures k in KeysOf(a, key) + KeysOf(b, key) {
      var i :| 0 <= i < |ab| && key(ab[i]) == k;
      if i >= |a| {
        assert ab[i] == b[i - |a|];
      }
    }
    forall k | k in KeysOf(b, key) ensures k in KeysOf(ab, key) {
      var i :| 0 <= i < |b| && key(b[i]) == k;
      assert ab[|a| + i] == b[i];
    }
    forall k | k in KeysOf(a, key) ensures k in KeysOf(ab, key) {
      var i :| 0 <= i < |a| && key(a[i]) == k;
      assert ab[i] == a[i];
    }
  }

  /** Sequences that agree key by key have the same keys. */
  lemma KeysOfPointwise<T, U, K>(a: seq<T>, ka: T -> K, b: seq<U>, kb: U -> K)
    requires |a| == |b| && forall i :: 0 <= i < |a| ==> ka(a[i]) == kb(b[i])
    ensures KeysOf(a, ka) == KeysOf(b, kb)
  {
    forall k | k in KeysOf(b, kb) ensures k in KeysOf(a, ka) {
      var i :| 0 <= i < |b| && kb(b[i]) == k;
      assert ka(a[i]) == k;
    }
  }

  /** Distinct keys carry over to a sequence that agrees key by key. */
  lemma DistinctKeysPointwise<T, U, K>(a: seq<T>, ka: T -> K, b: seq<U>, kb: U -> K)
    requires |a| == |b| && forall i :: 0 <= i < |a| ==> ka(a[i]) == kb(b[i])
    requires DistinctKeys(b, kb)
    ensures DistinctKeys(a, ka)
  {
    forall i, j | 0 <= i < j < |a| ensures ka(a[i]) != ka(a[j]) {
      assert kb(b[i]) != kb(b[j]);
    }
  }

  predicate NoDup<T(==)>(s: seq<T>) {
    forall i, j :: 0 <= i < j < |s| ==> s[i] != s[j]
  }

  /** Filtering never introduces a duplicate. */
  lemma {:induction false} FilterNoDup<T>(s: seq<T>, p: T -> bool)
    requires NoDup(s)
    ensures NoDup(Filter(s, p))
  {
    if |s| > 0 {
      FilterNoDup(s[1..], p);
      var r := Filter(s[1..], p);
      if p(s[0]) {
        var f := [s[0]] + r;
        forall i, j | 0 <= i < j < |f| ensures f[i] != f[j] {
          assert f[j] == r[j - 1] && r[j - 1] in s[1..];
          if i == 0 {
            assert s[0] !in s[1..];
          } else {
            assert f[i] == r[i - 1];
          }
        }
      } else {
        assert Filter(s, p) == r;
      }
    }
  }

  /** A mask no row passes selects nothing. */
  lemma {:induction false} FilterNone<T>(s: seq<T>, p: T -> bool)
    requires forall i :: 0 <= i < |s| ==> !p(s[i])
    ensures Filter(s, p) == []
  {
    if |s| > 0 {
      FilterNone(s[1..], p);
    }
  }

  /** A mask every row passes selects everything. */
  lemma {:induction false} FilterAll<T>(s: seq<T>, p: T -> bool)
    requires forall i :: 0 <= i < |s| ==> p(s[i])
    ensures Filter(s, p) == s
  {
    if |s| > 0 {
      FilterAll(s[1..], p);
    }
  }

  /** The elements carrying key `k`, in order. */
  function WithKey<T(==), K(==)>(s: seq<T>, key: T -> K, k: K): seq<T> {
    Filter(s, (x: T) => key(x) == k)
  }

  /** With distinct keys, at most one element carries a given key. */
  lemma {:induction false} AtMostOneWithKey<T, K>(s: seq<T>, key: T -> K, k: K)
    requires DistinctKeys(s, key)
    ensures |WithKey(s, key, k)| <= 1
  {
    if |s| > 0 {
      assert DistinctKeys(s[1..], key) by {
        forall i, j | 0 <= i < j < |s[1..]| ensures key(s[1..][i]) != key(s[1..][j]) {
          assert s[1..][i] == s[i + 1] && s[1..][j] == s[j + 1];
        }
      }
      AtMostOneWithKey(s[1..], key, k);
      if key(s[0]) == k {
        forall j | 0 <= j < |s[1..]| ensures key(s[1..][j]) != k {
          assert s[1..][j] == s[j + 1];
        }
        FilterNone(s[1..], (x: T) => key(x) == k);
        assert WithKey(s[1..], key, k) == [];
      }
    }
  }

  /** Filtering distributes over concatenation. */
  lemma {:induction false} FilterAppend<T>(a: seq<T>, b: seq<T>, p: T -> bool)
    ensures Filter(a + b, p) == Filter(a, p) + Filter(b, p)
  {
    if |a| == 0 {
      assert a + b == b;
    } else {
      assert (a + b)[0] == a[0] && (a + b)[1..] == a[1..] + b;
      FilterAppend(a[1..], b, p);
    }
  }

  /** No element carries key `k` exactly when `k` is not among the keys. */
  lemma WithKeyEmpty<T, K>(s: seq<T>, key: T -> K, k: K)
    ensures WithKey(s, key, k) == [] <==> k !in KeysOf(s, key)
  {
    if k in KeysOf(s, key) {
      var i :| 0 <= i < |s| && key(s[i]) == k;
      assert s[i] in WithKey(s, key, k);
    } else {
      FilterNone(s, (x: T) => key(x) == k);
    }
  }

  /** After `drop_duplicates(keep='first')` the elements of key `k` are
      just the first element of `s` with that key (if any). */
  lemma {:induction false} DedupWithKey<T, K>(s: seq<T>, key: T -> K, k: K)
    ensures WithKey(DedupBy(s, key), key, k) ==
            (if |WithKey(s, key, k)| == 0 then [] else [WithKey(s, key, k)[0]])
  {
    if |s| > 0 {
      var init := s[..|s| - 1];
      var last := s[|s| - 1];
      assert s == init + [last];
      DedupWithKey(init, key, k);
      FilterAppend(init, [last], (x: T) => key(x) == k);
      var tail := if key(last) in KeysOf(init, key) then [] else [last];
      FilterAppend(DedupBy(init, key), tail, (x: T) => key(x) == k);
      WithKeyEmpty(init, key, k);
    }
  }

  /** The elements of key `k` in `a + b`: those of `a`, then those of `b`. */
  lemma WithKeyAppend<T, K>(a: seq<T>, b: seq<T>, key: T -> K, k: K)
    ensures WithKey(a + b, key, k) == WithKey(a, key, k) + WithKey(b, key, k)
  {
    FilterAppend(a, b, (x: T) => key(x) == k);
  }

  lemma WithKeySingle<T, K>(x: T, key: T -> K, k: K)
    ensures WithKey([x], key, k) == if key(x) == k then [x] else []
  {
    assert [x][1..] == [];
  }

  function Neg<T>(p: T -> bool): T -> bool { (x: T) => !p(x) }

  /** A mask and its negation split a sequence into two parts that together
      hold every element exactly as often as the sequence does. */
  lemma {:induction false} FilterSplit<T>(s: seq<T>, p: T -> bool)
    ensures multiset(Filter(s, p)) + multiset(Filter(s, Neg(p))) == multiset(s)
  {
    if |s| > 0 {
      FilterSplit(s[1..], p);
      assert multiset(s) == multiset{s[0]} + multiset(s[1..]) by {
        assert s == [s[0]] + s[1..];
      }
      FilterSplitHead(s, p);
    }
  }

  /** The first element goes to exactly one side. */
  lemma FilterSplitHead<T>(s: seq<T>, p: T -> bool)
    requires |s| > 0
    ensures multiset(Filter(s, p)) + multiset(Filter(s, Neg(p)))
         == multiset{s[0]} + multiset(Filter(s[1..], p)) + multiset(Filter(s[1..], Neg(p)))
  {
    if p(s[0]) {
      FilterSplitKept(s, p);
    } else {
      FilterSplitKept(s, Neg(p));
      assert Neg(Neg(p))(s[0]) == p(s[0]);
      FilterCongruent(s, Neg(Neg(p)), p);
      FilterCongruent(s[1..], Neg(Neg(p)), p);
    }
  }

  /** When the first element passes the mask. */
  lemma FilterSplitKept<T>(s: seq<T>, p: T -> bool)
    requires |s| > 0 && p(s[0])
    ensures multiset(Filter(s, p)) + multiset(Filter(s, Neg(p)))
         == multiset{s[0]} + multiset(Filter(s[1..], p)) + multiset(Filter(s[1..], Neg(p)))
  {
    var a := Filter(s[1..], p);
    assert Filter(s, p) == [s[0]] + a;
    assert Filter(s, Neg(p)) == Filter(s[1..], Neg(p));
    assert multiset([s[0]] + a) == multiset{s[0]} + multiset(a);
  }

  lemma FilterSplitCount<T>(s: seq<T>, p: T -> bool)
    ensures |Filter(s, p)| + |Filter(s, Neg(p))| == |s|
  {
    FilterSplit(s, p);
    assert |multiset(Filter(s, p)) + multiset(Filter(s, Neg(p)))| == |multiset(s)|;
  }

  /** The distinct elements of `s` in order of first appearance. */
  function Distinct<T(==,!new)>(s: seq<T>): (r: seq<T>)
    ensures NoDup(r)
    ensures forall x :: x in r <==> x in s
    ensures |s| > 0 ==> |r| > 0 && r[0] == s[0]
  {
    if |s| == 0 then []
    else
      var init := s[..|s| - 1];
      var last := s[|s| - 1];
      var d := Distinct(init);
      assert forall x :: x in s <==> x in init || x == last by {
        assert s == init + [last];
      }
      assert |init| > 0 ==> init[0] == s[0];
      if last in d then d
      else
        assert forall i :: 0 <= i < |d| ==> d[i] != last;
        d + [last]
  }

  /** Masks that agree on the elements select the same elements. */
  lemma {:induction false} FilterCongruent<T>(s: seq<T>, p: T -> bool, q: T -> bool)
    requires forall i :: 0 <= i < |s| ==> p(s[i]) == q(s[i])
    ensures Filter(s, p) == Filter(s, q)
  {
    if |s| > 0 {
      FilterCongruent(s[1..], p, q);
    }
  }
  /** `a` is `b` with some elements left out, the order kept. */
  predicate Subsequence<T(==)>(a: seq<T>, b: seq<T>)
    decreases |b|
  {
    |a| == 0 || (|b| > 0 && ((a[0] == b[0] && Subsequence(a[1..], b[1..])) || Subsequence(a, b[1..])))
  }

  /** A mask keeps a subsequence of its input. */
  lemma {:induction false} FilterSubsequence<T>(s: seq<T>, p: T -> bool)
    ensures Subsequence(Filter(s, p), s)
  {
    if |s| > 0 {
      FilterSubsequence(s[1..], p);
      var r := Filter(s[1..], p);
      if p(s[0]) {
        var f := [s[0]] + r;
        assert f[0] == s[0] && f[1..] == r;
      } else {
        assert Filter(s, p) == r;
        if |r| > 0 {
          assert Subsequence(r, s[1..]);
        }
      }
    }
  }

  /** Filtering by "the key is not `bad`" keeps every key except `bad`. */
  lemma KeysOfFilterKey<T, K>(s: seq<T>, key: T -> K, p: T -> bool, bad: K)
    requires forall x :: p(x) <==> key(x) != bad
    ensures KeysOf(Filter(s, p), key) == KeysOf(s, key) - {bad}
  {
    var f := Filter(s, p);
    forall k | k in KeysOf(f, key) ensures k in KeysOf(s, key) - {bad} {
      var i :| 0 <= i < |f| && key(f[i]) == k;
      assert p(f[i]) && f[i] in s;
      var j :| 0 <= j < |s| && s[j] == f[i];
    }
    forall k | k in KeysOf(s, key) - {bad} ensures k in KeysOf(f, key) {
      var i :| 0 <= i < |s| && key(s[i]) == k;
      assert s[i] in f;
      var j :| 0 <= j < |f| && f[j] == s[i];
    }
  }

  /** Filtering by `p` and then by `q` filters once by their conjunction. */
  lemma {:induction false} FilterFilter<T>(s: seq<T>, p: T -> bool, q: T -> bool, pq: T -> bool)
    requires forall x :: pq(x) == (p(x) && q(x))
    ensures Filter(Filter(s, p), q) == Filter(s, pq)
  {
    if |s| > 0 {
      FilterFilter(s[1..], p, q, pq);
      if p(s[0]) {
        assert Filter(s, p) == [s[0]] + Filter(s[1..], p);
        assert Filter(s, p)[1..] == Filter(s[1..], p);
      } else {
        assert Filter(s, p) == Filter(s[1..], p);
      }
    }
  }

  lemma {:induction false} SubsequenceRefl<T>(s: seq<T>)
    ensures Subsequence(s, s)
  {
    if |s| > 0 {
      SubsequenceRefl(s[1..]);
    }
  }

  /** A count is at most the length, and is zero exactly when no element
      passes. */
  lemma {:induction false} CountBounds<T>(s: seq<T>, p: T -> bool)
    ensures Count(s, p) <= |s|
    ensures Count(s, p) == 0 <==> forall i :: 0 <= i < |s| ==> !p(s[i])
  {
    if |s| > 0 {
      CountBounds(s[1..], p);
      assert forall i :: 1 <= i < |s| ==> s[1..][i - 1] == s[i];
    }
  }

  /** Counting with two masks that agree on every element counts alike. */
  lemma {:induction false} CountCongruent<T>(s: seq<T>, p: T -> bool, q: T -> bool)
    requires forall i :: 0 <= i < |s| ==> p(s[i]) == q(s[i])
    ensures Count(s, p) == Count(s, q)
  {
    if |s| > 0 {
      assert forall i :: 1 <= i < |s| ==> s[1..][i - 1] == s[i];
      CountCongruent(s[1..], p, q);
    }
  }

  /** What a mask keeps and what its negation `q` counts add up to the
      whole. */
  lemma {:induction false} FilterCountNeg<T>(s: seq<T>, p: T -> bool, q: T -> bool)
    requires forall i :: 0 <= i < |s| ==> q(s[i]) == !p(s[i])
    ensures |Filter(s, p)| + Count(s, q) == |s|
  {
    if |s| > 0 {
      assert forall i :: 1 <= i < |s| ==> s[1..][i - 1] == s[i];
      FilterCountNeg(s[1..], p, q);
    }
  }

  /** Without repetitions, every element occurs at most once. */
  lemma {:induction false} NoDupCount<T>(s: seq<T>, x: T)
    requires NoDup(s)
    ensures multiset(s)[x] <= 1
  {
    if |s| > 0 {
      assert s == [s[0]] + s[1..];
      assert forall i :: 1 <= i < |s| ==> s[1..][i - 1] == s[i];
      NoDupCount(s[1..], x);
      if x == s[0] {
        assert x !in s[1..];
      }
    }
  }

  /** A permutation of a list without repetitions has none either. */
  lemma MultisetNoDup<T>(a: seq<T>, b: seq<T>)
    requires multiset(a) == multiset(b) && NoDup(a)
    ensures NoDup(b)
  {
    forall i, j | 0 <= i < j < |b| ensures b[i] != b[j] {
      var x := b[i];
      NoDupCount(a, x);
      assert b == b[..j] + b[j..];
      assert b[..j][i] == x;
      assert multiset(b)[x] == multiset(b[..j])[x] + multiset(b[j..])[x];
      assert b[j..][0] == b[j];
      assert multiset(b[..j])[x] >= 1;
    }
  }
}
