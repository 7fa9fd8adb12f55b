/** `re.search` and `re.finditer` for patterns whose match at a given
    position is determined by that position alone (the quantifiers of the
    pipeline's unit and dosage patterns never need to give anything back
    to let the rest match, so the greedy reading is the only one). An
    `Achador` reports, for a start position, where the match ends and what
    its groups hold. */
module Busca {
  import opened Wrappers

  datatype Achado<T> = Achado(fim: nat, valor: T)

  type Achador<T> = (string, nat) -> Option<Achado<T>>

  /** The pattern matches at `k`, with a non-empty match inside the text. */
  predicate Casa<T>(s: string, k: nat, at: Achador<T>) {
    at(s, k).Some? && k < at(s, k).value.fim <= |s|
  }

  /** `re.search` from `i`: the leftmost position where the pattern
      matches. */
  function Procurar<T>(s: string, i: nat, at: Achador<T>): (r: Option<nat>)
    ensures r.Some? ==> i <= r.value < |s| && Casa(s, r.value, at)
    ensures r.Some? ==> forall k :: i <= k < r.value ==> !Casa(s, k, at)
    ensures r.None? ==> forall k :: i <= k < |s| ==> !Casa(s, k, at)
    decreases |s| - i
  {
    if i >= |s| then None
    else if Casa(s, i, at) then Some(i)
    else Procurar(s, i + 1, at)
  }

  /** The groups of the leftmost match, if any. */
  function Primeiro<T>(s: string, at: Achador<T>): (r: Option<T>)
    ensures r.None? <==> forall k :: 0 <= k < |s| ==> !Casa(s, k, at)
    ensures r.Some? ==> exists k :: 0 <= k < |s| && Casa(s, k, at) && at(s, k).value.valor == r.value
  {
    match Procurar(s, 0, at)
    case None => None
    case Some(k) => Some(at(s, k).value.valor)
  }

  /** The pattern matches somewhere in the text (`re.search` succeeds). */
  predicate Ocorre<T>(s: string, at: Achador<T>) {
    exists k :: 0 <= k < |s| && Casa(s, k, at)
  }

  /** One match of `finditer`: where it starts and what it found. */
  datatype Ocorrencia<T> = Ocorrencia(inicio: nat, achado: Achado<T>)

  /** Position `k` lies inside one of the listed matches. */
  predicate Coberto<T>(r: seq<Ocorrencia<T>>, k: nat) {
    exists j :: 0 <= j < |r| && r[j].inicio <= k < r[j].achado.fim
  }

  /** Every listed match starts at or after `lo` and is a real match. */
  ghost predicate Validas<T>(s: string, lo: nat, at: Achador<T>, r: seq<Ocorrencia<T>>) {
    forall j :: 0 <= j < |r| ==> lo <= r[j].inicio && Casa(s, r[j].inicio, at) && at(s, r[j].inicio).value == r[j].achado
  }

  /** The listed matches do not overlap and come left to right. */
  predicate Ordenadas<T>(r: seq<Ocorrencia<T>>) {
    forall j :: 0 <= j < |r| - 1 ==> r[j].achado.fim <= r[j + 1].inicio
  }

  /** Every position from `lo` where the pattern matches lies inside a
      listed match. */
  predicate Completas<T>(s: string, lo: nat, at: Achador<T>, r: seq<Ocorrencia<T>>) {
    forall k :: lo <= k < |s| && Casa(s, k, at) ==> Coberto(r, k)
  }

  /** `re.finditer` from `i`: the matches found left to right, scanning
      resumes after each match. Every listed match is a real match, they
      do not overlap, and every position where the pattern matches lies
      inside one of them. */
  function Todos<T>(s: string, i: nat, at: Achador<T>): (r: seq<Ocorrencia<T>>)
    ensures Validas(s, i, at, r) && Ordenadas(r) && Completas(s, i, at, r)
    decreases |s| - i
  {
    if i >= |s| then []
    else if Casa(s, i, at) then
      var a := at(s, i).value;
      var t := Todos(s, a.fim, at);
      ValidasPasso(s, i, at, a, t);
      OrdenadasPasso(a, i, t);
      CompletasPasso(s, i, at, a, t);
      [Ocorrencia(i, a)] + t
    else
      var t := Todos(s, i + 1, at);
      assert !Casa(s, i, at);
      t
  }

  lemma ValidasPasso<T>(s: string, i: nat, at: Achador<T>, a: Achado<T>, t: seq<Ocorrencia<T>>)
    requires Casa(s, i, at) && a == at(s, i).value && Validas(s, a.fim, at, t)
    ensures Validas(s, i, at, [Ocorrencia(i, a)] + t)
  {
    var r := [Ocorrencia(i, a)] + t;
    forall j | 0 <= j < |r| ensures i <= r[j].inicio && Casa(s, r[j].inicio, at) && at(s, r[j].inicio).value == r[j].achado {
      if j > 0 {
        assert r[j] == t[j - 1];
      }
    }
  }

  lemma OrdenadasPasso<T>(a: Achado<T>, i: nat, t: seq<Ocorrencia<T>>)
    requires Ordenadas(t) && forall j :: 0 <= j < |t| ==> a.fim <= t[j].inicio
    ensures Ordenadas([Ocorrencia(i, a)] + t)
  {
    var r := [Ocorrencia(i, a)] + t;
    forall j | 0 <= j < |r| - 1 ensures r[j].achado.fim <= r[j + 1].inicio {
      assert r[j + 1] == t[j];
      if j > 0 {
        assert r[j] == t[j - 1];
      }
    }
  }

  lemma CompletasPasso<T>(s: string, i: nat, at: Achador<T>, a: Achado<T>, t: seq<Ocorrencia<T>>)
    requires Casa(s, i, at) && a == at(s, i).value && Completas(s, a.fim, at, t)
    ensures Completas(s, i, at, [Ocorrencia(i, a)] + t)
  {
    var r := [Ocorrencia(i, a)] + t;
    forall k | i <= k < |s| && Casa(s, k, at) ensures Coberto(r, k) {
      if k < a.fim {
        assert r[0].inicio <= k < r[0].achado.fim;
      } else {
        var j :| 0 <= j < |t| && t[j].inicio <= k < t[j].achado.fim;
        assert r[j + 1] == t[j];
      }
    }
  }

  /** `finditer` finds nothing exactly when the pattern matches nowhere. */
  lemma TodosVazio<T>(s: string, at: Achador<T>)
    ensures Todos(s, 0, at) == [] <==> forall k :: 0 <= k < |s| ==> !Casa(s, k, at)
  {
    var r := Todos(s, 0, at);
    if r != [] {
      assert Casa(s, r[0].inicio, at);
    }
  }

  /** Every listed match is non-empty. */
  predicate NaoVazias<T>(r: seq<Ocorrencia<T>>) {
    forall j :: 0 <= j < |r| ==> r[j].inicio < r[j].achado.fim
  }

  /** In a left-to-right list of non-empty, non-overlapping matches, every
      match ends before the last one starts. */
  lemma {:induction false} AntesDoUltimo<T>(r: seq<Ocorrencia<T>>, j: nat)
    requires Ordenadas(r) && NaoVazias(r) && j < |r| - 1
    ensures r[j].achado.fim <= r[|r| - 1].inicio
    decreases |r| - j
  {
    assert r[j].achado.fim <= r[j + 1].inicio;
    if j + 1 < |r| - 1 {
      AntesDoUltimo(r, j + 1);
      assert r[j + 1].inicio < r[j + 1].achado.fim;
    }
  }

  /** Nothing matches to the right of the last match of a complete list. */
  lemma UltimoADireita<T>(s: string, at: Achador<T>, r: seq<Ocorrencia<T>>)
    requires r != [] && Ordenadas(r) && NaoVazias(r) && Completas(s, 0, at, r)
    ensures forall k :: r[|r| - 1].achado.fim <= k < |s| ==> !Casa(s, k, at)
  {
    var u := r[|r| - 1];
    forall k | u.achado.fim <= k < |s| ensures !Casa(s, k, at) {
      if Casa(s, k, at) {
        assert Coberto(r, k);
        var j :| 0 <= j < |r| && r[j].inicio <= k < r[j].achado.fim;
        if j < |r| - 1 {
          AntesDoUltimo(r, j);
        }
      }
    }
  }

  lemma TodosNaoVazias<T>(s: string, at: Achador<T>)
    ensures NaoVazias(Todos(s, 0, at))
  {
    var r := Todos(s, 0, at);
    forall j | 0 <= j < |r| ensures r[j].inicio < r[j].achado.fim {
      assert Casa(s, r[j].inicio, at) && at(s, r[j].inicio).value == r[j].achado;
    }
  }

  /** The last match `finditer` reports is the rightmost one: it is a real
      match, and the pattern matches nowhere from where it ends. */
  lemma TodosUltimo<T>(s: string, at: Achador<T>) returns (u: Ocorrencia<T>)
    requires Todos(s, 0, at) != []
    ensures u == Todos(s, 0, at)[|Todos(s, 0, at)| - 1]
    ensures Casa(s, u.inicio, at) && at(s, u.inicio).value == u.achado
    ensures forall k :: u.achado.fim <= k < |s| ==> !Casa(s, k, at)
  {
    var r := Todos(s, 0, at);
    u := r[|r| - 1];
    TodosNaoVazias(s, at);
    UltimoADireita(s, at, r);
  }

  /** `finditer` finds something exactly when the pattern matches
      somewhere. */
  lemma OcorreTodos<T>(s: string, at: Achador<T>)
    ensures Ocorre(s, at) <==> Todos(s, 0, at) != []
  {
    TodosVazio(s, at);
  }

  /** The groups of every match, in order (`re.findall` of a pattern with
      groups). */
  function Valores<T>(r: seq<Ocorrencia<T>>): (vs: seq<T>)
    ensures |vs| == |r|
    ensures forall j :: 0 <= j < |r| ==> vs[j] == r[j].achado.valor
  {
    if r == [] then [] else [r[0].achado.valor] + Valores(r[1..])
  }

  /** The pattern matches at `k` and nowhere from where that match
      ends. */
  predicate UltimaCasa<T>(s: string, k: nat, at: Achador<T>) {
    Casa(s, k, at) && forall j :: at(s, k).value.fim <= j < |s| ==> !Casa(s, j, at)
  }

  /** The last value `findall` returns is the group of the rightmost
      match. */
  lemma UltimoValor<T>(s: string, at: Achador<T>) returns (k: nat)
    requires Ocorre(s, at)
    ensures k < |s| && UltimaCasa(s, k, at)
    ensures Valores(Todos(s, 0, at)) != [] && Valores(Todos(s, 0, at))[|Valores(Todos(s, 0, at))| - 1] == at(s, k).value.valor
  {
    OcorreTodos(s, at);
    var u := TodosUltimo(s, at);
    k := u.inicio;
  }
}
