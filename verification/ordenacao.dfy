/** `DataFrame.sort_values` on several keys: a stable sort by a
    lexicographic key of a string and two integers (a timestamp is sorted by
    its day number, a descending column by its negation). */
module Ordenacao {
  import opened Ordem
  import opened Seqs

  datatype Chave = Chave(texto: string, a: int, b: int)

  /** Lexicographic order of keys. */
  predicate Menor(x: Chave, y: Chave) {
    StrLt(x.texto, y.texto) || (x.texto == y.texto && (x.a < y.a || (x.a == y.a && x.b < y.b)))
  }

  lemma MenorIrreflexivo(x: Chave)
    ensures !Menor(x, x)
  {
    StrLtIrreflexive(x.texto);
  }

  lemma MenorTransitivo(x: Chave, y: Chave, z: Chave)
    requires Menor(x, y) && Menor(y, z)
    ensures Menor(x, z)
  {
    if StrLt(x.texto, y.texto) && StrLt(y.texto, z.texto) {
      StrLtTransitive(x.texto, y.texto, z.texto);
    }
  }

  /** "Not after" is transitive: the order is total. */
  lemma NaoDepoisTransitivo(x: Chave, y: Chave, z: Chave)
    requires !Menor(y, x) && !Menor(z, y)
    ensures !Menor(z, x)
  {
    if Menor(z, x) {
      if x == y {
      } else {
        MenorTotal(x, y);
        MenorTransitivo(z, x, y);
      }
    }
  }

  lemma MenorTotal(x: Chave, y: Chave)
    requires x != y
    ensures Menor(x, y) || Menor(y, x)
  {
    if x.texto != y.texto {
      StrLtTotal(x.texto, y.texto);
    }
  }

  predicate OrdenadaPor<T>(s: seq<T>, key: T -> Chave) {
    forall i, j :: 0 <= i < j < |s| ==> !Menor(key(s[j]), key(s[i]))
  }

  /** The elements of `s` whose key is `k`, in order. */
  function ComChave<T>(s: seq<T>, key: T -> Chave, k: Chave): seq<T> {
    if |s| == 0 then [] else (if key(s[0]) == k then [s[0]] else []) + ComChave(s[1..], key, k)
  }

  /** Places `x` before the first element whose key is not smaller. */
  function Inserir<T(==)>(x: T, s: seq<T>, key: T -> Chave): (r: seq<T>)
    ensures multiset(r) == multiset(s) + multiset{x}
  {
    if |s| == 0 then [x]
    else if Menor(key(s[0]), key(x)) then
      assert s == [s[0]] + s[1..];
      [s[0]] + Inserir(x, s[1..], key)
    else [x] + s
  }

  /** Inserting into a sorted sequence keeps it sorted. */
  lemma {:induction false} InserirOrdenada<T>(x: T, s: seq<T>, key: T -> Chave)
    requires OrdenadaPor(s, key)
    ensures OrdenadaPor(Inserir(x, s, key), key)
  {
    var r := Inserir(x, s, key);
    if |s| > 0 && Menor(key(s[0]), key(x)) {
      var t := Inserir(x, s[1..], key);
      InserirOrdenada(x, s[1..], key);
      assert r == [s[0]] + t;
      forall j | 0 <= j < |t| ensures !Menor(key(t[j]), key(s[0])) {
        assert t[j] in multiset(s[1..]) + multiset{x};
        if t[j] == x {
          MenorIrreflexivo(key(x));
          if Menor(key(x), key(s[0])) { MenorTransitivo(key(x), key(s[0]), key(x)); }
        } else {
          assert t[j] in s[1..];
          var m :| 0 <= m < |s[1..]| && s[1..][m] == t[j];
          assert s[m + 1] == t[j];
        }
      }
    } else if |s| > 0 {
      assert r == [x] + s;
      forall j | 0 <= j < |s| ensures !Menor(key(s[j]), key(x)) {
        if j > 0 { NaoDepoisTransitivo(key(x), key(s[0]), key(s[j])); }
      }
    }
  }

  lemma ComChaveCons<T>(a: T, t: seq<T>, key: T -> Chave, k: Chave)
    ensures ComChave([a] + t, key, k) == (if key(a) == k then [a] else []) + ComChave(t, key, k)
  {
    assert ([a] + t)[0] == a && ([a] + t)[1..] == t;
  }

  lemma {:induction false} ComChaveInserir<T>(x: T, s: seq<T>, key: T -> Chave, k: Chave)
    ensures ComChave(Inserir(x, s, key), key, k) == (if key(x) == k then [x] else []) + ComChave(s, key, k)
  {
    if |s| == 0 {
      ComChaveCons(x, [], key, k);
    } else if Menor(key(s[0]), key(x)) {
      ComChaveInserir(x, s[1..], key, k);
      ComChaveInserirAdiante(x, s, key, k);
    } else {
      ComChaveCons(x, s, key, k);
    }
  }

  /** The step of `ComChaveInserir` where `x` goes past the head. */
  lemma {:induction false} ComChaveInserirAdiante<T>(x: T, s: seq<T>, key: T -> Chave, k: Chave)
    requires |s| > 0 && Menor(key(s[0]), key(x))
    requires ComChave(Inserir(x, s[1..], key), key, k) == (if key(x) == k then [x] else []) + ComChave(s[1..], key, k)
    ensures ComChave(Inserir(x, s, key), key, k) == (if key(x) == k then [x] else []) + ComChave(s, key, k)
  {
    var px: seq<T> := if key(x) == k then [x] else [];
    var p0: seq<T> := if key(s[0]) == k then [s[0]] else [];
    var t := Inserir(x, s[1..], key);
    var c := ComChave(s[1..], key, k);
    calc {
      ComChave(Inserir(x, s, key), key, k);
      ComChave([s[0]] + t, key, k);
      { ComChaveCons(s[0], t, key, k); }
      p0 + ComChave(t, key, k);
      p0 + (px + c);
      { MenorIrreflexivo(key(x)); TrocaVazio(p0, px, c); }
      px + (p0 + c);
      { ComChaveCons(s[0], s[1..], key, k); assert s == [s[0]] + s[1..]; }
      px + ComChave(s, key, k);
    }
  }

  lemma TrocaVazio<T>(p: seq<T>, q: seq<T>, c: seq<T>)
    requires p == [] || q == []
    ensures p + (q + c) == q + (p + c)
  {
    if p == [] { assert p + (q + c) == q + c; } else { assert q + (p + c) == p + c; }
  }

  /** A stable sort: insertion from the back. */
  function Ordenar<T(==)>(s: seq<T>, key: T -> Chave): (r: seq<T>)
    ensures OrdenadaPor(r, key)
    ensures multiset(r) == multiset(s) && |r| == |s|
  {
    if |s| == 0 then []
    else
      assert s == [s[0]] + s[1..];
      InserirOrdenada(s[0], Ordenar(s[1..], key), key);
      Inserir(s[0], Ordenar(s[1..], key), key)
  }

  /** Stability: the elements of every key keep their relative order. */
  lemma {:induction false} OrdenarEstavel<T>(s: seq<T>, key: T -> Chave, k: Chave)
    ensures ComChave(Ordenar(s, key), key, k) == ComChave(s, key, k)
  {
    if |s| > 0 {
      OrdenarEstavel(s[1..], key, k);
      ComChaveInserir(s[0], Ordenar(s[1..], key), key, k);
    }
  }

  /** Two elements with the same key keep their order. */
  lemma OrdenarPar<T>(x: T, y: T, key: T -> Chave)
    requires key(x) == key(y)
    ensures Ordenar([x, y], key) == [x, y]
  {
    MenorIrreflexivo(key(x));
    assert [x, y][1..] == [y];
    assert Ordenar([y], key) == [y];
  }

  /** Sorting a sorted sequence leaves it as it is. */
  lemma {:induction false} OrdenarOrdenada<T>(s: seq<T>, key: T -> Chave)
    requires OrdenadaPor(s, key)
    ensures Ordenar(s, key) == s
  {
    if |s| > 0 {
      assert OrdenadaPor(s[1..], key) by {
        forall i, j | 0 <= i < j < |s[1..]| ensures !Menor(key(s[1..][j]), key(s[1..][i])) {
          assert s[1..][j] == s[j + 1] && s[1..][i] == s[i + 1];
        }
      }
      OrdenarOrdenada(s[1..], key);
      if |s| > 1 {
        assert s[1..][0] == s[1];
      }
      assert s == [s[0]] + s[1..];
    }
  }

  /** Every element of the sorted sequence is an element of the input and
      conversely. */
  lemma OrdenarElementos<T>(s: seq<T>, key: T -> Chave)
    ensures forall x :: x in Ordenar(s, key) <==> x in s
  {
    var r := Ordenar(s, key);
    forall x ensures x in r <==> x in s {
      assert x in r <==> x in multiset(r);
      assert x in s <==> x in multiset(s);
    }
  }

  /** `drop_duplicates` after a sort keeps the sequence sorted. */
  lemma {:induction false} DedupOrdenada<T, K>(s: seq<T>, key: T -> Chave, k2: T -> K)
    requires OrdenadaPor(s, key)
    ensures OrdenadaPor(DedupBy(s, k2), key)
  {
    if |s| > 0 {
      var init := s[..|s| - 1];
      var last := s[|s| - 1];
      assert OrdenadaPor(init, key);
      DedupOrdenada(init, key, k2);
      var d := DedupBy(init, k2);
      DedupSub(init, k2);
      forall i | 0 <= i < |d| ensures !Menor(key(last), key(d[i])) {
        var m :| 0 <= m < |init| && init[m] == d[i];
        assert s[m] == d[i];
      }
    }
  }

  /** Appending an element no smaller than any other keeps a sequence
      sorted. */
  lemma AnexarOrdenada<T>(p: seq<T>, x: T, key: T -> Chave)
    requires OrdenadaPor(p, key)
    requires forall a :: 0 <= a < |p| ==> !Menor(key(x), key(p[a]))
    ensures OrdenadaPor(p + [x], key)
  {
    var r := p + [x];
    forall a, b | 0 <= a < b < |r| ensures !Menor(key(r[b]), key(r[a])) {
      assert r[a] == p[a];
      if b < |p| {
        assert r[b] == p[b];
      }
    }
  }

  /** Sortedness depends only on the keys. */
  lemma OrdenadaPointwise<T, U>(a: seq<T>, ka: T -> Chave, b: seq<U>, kb: U -> Chave)
    requires |a| == |b| && forall i :: 0 <= i < |a| ==> ka(a[i]) == kb(b[i])
    requires OrdenadaPor(b, kb)
    ensures OrdenadaPor(a, ka)
  {
    forall i, j | 0 <= i < j < |a| ensures !Menor(ka(a[j]), ka(a[i])) {
      assert !Menor(kb(b[j]), kb(b[i]));
    }
  }
}
