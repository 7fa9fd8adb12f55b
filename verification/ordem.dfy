/** Python's ordering of strings (code point by code point, a proper prefix
    first) and `sorted(set(xs))`, the canonical form the pipeline gives to
    lists of product ids. */
module Ordem {

  /** `a < b` on Python strings. */
  predicate StrLt(a: string, b: string) {
    if |a| == 0 then |b| > 0
    else if |b| == 0 then false
    else a[0] < b[0] || (a[0] == b[0] && StrLt(a[1..], b[1..]))
  }

  lemma {:induction false} StrLtIrreflexive(a: string)
    ensures !StrLt(a, a)
  {
    if |a| > 0 {
      StrLtIrreflexive(a[1..]);
    }
  }

  lemma {:induction false} StrLtAsymmetric(a: string, b: string)
    ensures !(StrLt(a, b) && StrLt(b, a))
  {
    if |a| > 0 && |b| > 0 && a[0] == b[0] {
      StrLtAsymmetric(a[1..], b[1..]);
    }
  }

  lemma {:induction false} StrLtTransitive(a: string, b: string, c: string)
    requires StrLt(a, b) && StrLt(b, c)
    ensures StrLt(a, c)
  {
    if |a| > 0 && a[0] == b[0] && b[0] == c[0] {
      StrLtTransitive(a[1..], b[1..], c[1..]);
    }
  }

  /** Any two different strings are ordered one way or the other. */
  lemma {:induction false} StrLtTotal(a: string, b: string)
    requires a != b
    ensures StrLt(a, b) || StrLt(b, a)
  {
    if |a| > 0 && |b| > 0 && a[0] == b[0] {
      assert a == [a[0]] + a[1..] && b == [b[0]] + b[1..];
      StrLtTotal(a[1..], b[1..]);
    }
  }

  /** Strictly increasing, hence without repetitions. */
  predicate Sorted(s: seq<string>) {
    forall i, j :: 0 <= i < j < |s| ==> StrLt(s[i], s[j])
  }

  function Elems(s: seq<string>): set<string> { set x | x in s }

  /** Inserts `x` at its place in a sorted list, unless it is already there. */
  function Insert(x: string, s: seq<string>): (r: seq<string>)
    requires Sorted(s)
    ensures Sorted(r) && Elems(r) == Elems(s) + {x}
    ensures |s| > 0 && |r| > 0 ==> r[0] == s[0] || r[0] == x
  {
    if |s| == 0 then [x]
    else if x == s[0] then s
    else if StrLt(x, s[0]) then
      InsertFront(x, s);
      [x] + s
    else
      StrLtTotal(x, s[0]);
      var t := Insert(x, s[1..]);
      assert Elems(s) == {s[0]} + Elems(s[1..]);
      InsertBehind(s[0], t, x, s[1..]);
      assert Elems([s[0]] + t) == {s[0]} + Elems(t);
      [s[0]] + t
  }

  lemma InsertFront(x: string, s: seq<string>)
    requires Sorted(s) && |s| > 0 && StrLt(x, s[0])
    ensures Sorted([x] + s)
  {
    forall j | 0 < j < |s| ensures StrLt(x, s[j]) {
      StrLtTransitive(x, s[0], s[j]);
    }
  }

  lemma InsertBehind(h: string, t: seq<string>, x: string, rest: seq<string>)
    requires Sorted(t) && Sorted([h] + rest) && StrLt(h, x)
    requires Elems(t) == Elems(rest) + {x}
    ensures Sorted([h] + t)
  {
    forall j | 0 <= j < |t| ensures StrLt(h, t[j]) {
      assert t[j] in Elems(t);
      if t[j] != x {
        assert t[j] in Elems(rest);
        var k :| 0 <= k < |rest| && rest[k] == t[j];
        assert ([h] + rest)[0] == h && ([h] + rest)[k + 1] == rest[k];
      }
    }
  }

  /** `sorted(set(xs))`. */
  function SortedSet(xs: seq<string>): (r: seq<string>)
    ensures Sorted(r) && Elems(r) == Elems(xs)
  {
    if |xs| == 0 then []
    else
      var r := Insert(xs[|xs| - 1], SortedSet(xs[..|xs| - 1]));
      assert Elems(xs) == Elems(xs[..|xs| - 1]) + {xs[|xs| - 1]};
      r
  }

  /** A sorted list is determined by its elements: `sorted(set(xs))` does
      not depend on the order or the repetitions of `xs`. */
  lemma {:induction false} SortedCanonical(a: seq<string>, b: seq<string>)
    requires Sorted(a) && Sorted(b) && Elems(a) == Elems(b)
    ensures a == b
  {
    if |a| == 0 || |b| == 0 {
      NoElems(a);
      NoElems(b);
    } else {
      assert a[0] == b[0] by {
        if a[0] != b[0] {
          assert a[0] in Elems(b) && b[0] in Elems(a);
          var i :| 0 <= i < |b| && b[i] == a[0];
          var j :| 0 <= j < |a| && a[j] == b[0];
          assert i > 0 && j > 0;
          StrLtAsymmetric(a[0], b[0]);
        }
      }
      assert Elems(a[1..]) == Elems(b[1..]) by {
        forall x ensures x in Elems(a[1..]) <==> x in Elems(b[1..]) {
          StrLtIrreflexive(a[0]);
          if x in Elems(a[1..]) {
            var i :| 0 <= i < |a[1..]| && a[1..][i] == x;
            assert a[i + 1] == x && StrLt(a[0], x);
            assert x in Elems(b);
          }
          if x in Elems(b[1..]) {
            var i :| 0 <= i < |b[1..]| && b[1..][i] == x;
            assert b[i + 1] == x && StrLt(b[0], x);
            assert x in Elems(a);
          }
        }
      }
      SortedCanonical(a[1..], b[1..]);
      assert a == [a[0]] + a[1..] && b == [b[0]] + b[1..];
    }
  }

  lemma NoElems(a: seq<string>)
    ensures |a| == 0 <==> Elems(a) == {}
  {
    if |a| > 0 {
      assert a[0] in Elems(a);
    }
  }

  /** Hence `sorted(set(.))` of two lists with the same elements agree. */
  lemma SortedSetCanonical(xs: seq<string>, ys: seq<string>)
    requires Elems(xs) == Elems(ys)
    ensures SortedSet(xs) == SortedSet(ys)
  {
    SortedCanonical(SortedSet(xs), SortedSet(ys));
  }
}
