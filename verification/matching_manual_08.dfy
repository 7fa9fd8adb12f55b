/** Stage 8 of the invoice pipeline (`pipelines/nfe/src/nfe_etapa08_matching_manual.py`):
    the manual matching again, with three differences from the older script:
    barcodes are keyed by the dtype-aware rule, a base lacking one of
    `EAN_1`, `EAN_2`, `EAN_3` contributes no entries for it instead of
    failing, and the entries carry the original barcode columns along with
    the other metadata. The update of the items is the same. */
module MatchingManual08 {
  import opened Wrappers
  import opened Seqs
  import opened Frame
  import opened MatchingManual
  import opened Dates

  /** Lookup columns that are never copied into the items. */
  const Auxiliares: seq<string> := ["EAN1_KEY", "EAN2_KEY", "EAN3_KEY", "EAN_SOURCE", "EAN_KEY_MANUAL"]

  /** A barcode cell as the frame holds it. */
  function Valor(c: Celula): Value {
    match c
    case Texto(t) => if t.None? then Null else Str(t.value)
    case Inteiro(i) => Num(i as real)
    case Flutuante(f) => if f.None? then Null else Num(f.value as real)
  }

  /** The barcode columns the base has, with their cells. */
  function Originais(b: BaseManual, m: LinhaManual): Row {
    var r1 := if b.tem1 then map["EAN_1" := Valor(m.ean1)] else map[];
    var r2 := if b.tem2 then r1["EAN_2" := Valor(m.ean2)] else r1;
    if b.tem3 then r2["EAN_3" := Valor(m.ean3)] else r2
  }

  /** The metadata an entry carries: every column of the base except the
      computed keys and the melt's own columns, the original barcodes
      included. */
  function Meta08(b: BaseManual, m: LinhaManual): Row {
    (map c | c in m.outras && c !in Auxiliares :: m.outras[c]) + Originais(b, m)
  }

  function MetaDe08(b: BaseManual): LinhaManual -> Row {
    m => Meta08(b, m)
  }

  /** The entry keeps the barcode columns the base has, never a computed
      key, and every other column of the row. */
  lemma Meta08Colunas(b: BaseManual, m: LinhaManual)
    requires "EAN_1" !in m.outras && "EAN_2" !in m.outras && "EAN_3" !in m.outras
    ensures "EAN_1" in Meta08(b, m) <==> b.tem1
    ensures "EAN_2" in Meta08(b, m) <==> b.tem2
    ensures "EAN_3" in Meta08(b, m) <==> b.tem3
    ensures b.tem1 ==> Meta08(b, m)["EAN_1"] == Valor(m.ean1)
    ensures b.tem2 ==> Meta08(b, m)["EAN_2"] == Valor(m.ean2)
    ensures b.tem3 ==> Meta08(b, m)["EAN_3"] == Valor(m.ean3)
    ensures forall c :: c in Auxiliares ==> c !in Meta08(b, m)
    ensures forall c :: c in m.outras && c !in Auxiliares ==> c in Meta08(b, m) && Meta08(b, m)[c] == m.outras[c]
  {
  }

  /** `preparar_lookup_manual`: never fails; a missing barcode column gives
      an empty key column. Keys are distinct and every key is answered by
      the first row of the first barcode column holding it. */
  function PrepararLookup08(b: BaseManual): (r: seq<Entrada>)
    ensures DistinctKeys(r, ChaveDe)
    ensures forall k :: Busca(r, k) == Esperada(b, ChaveCelula, k, MetaDe08(b))
  {
    LookupChavesUnicas(b, ChaveCelula, MetaDe08(b));
    assert forall k :: Busca(Lookup(b, ChaveCelula, MetaDe08(b)), k) == Esperada(b, ChaveCelula, k, MetaDe08(b)) by {
      forall k ensures Busca(Lookup(b, ChaveCelula, MetaDe08(b)), k) == Esperada(b, ChaveCelula, k, MetaDe08(b)) {
        LookupBusca(b, ChaveCelula, k, MetaDe08(b));
      }
    }
    Lookup(b, ChaveCelula, MetaDe08(b))
  }

  /** Which barcodes are found, and from which column and row, does not
      depend on the metadata carried. */
  lemma EsperadaMesmaFonte(b: BaseManual, k: string, m1: LinhaManual -> Row, m2: LinhaManual -> Row)
    ensures Esperada(b, ChaveCelula, k, m1).Some? <==> Esperada(b, ChaveCelula, k, m2).Some?
    ensures Esperada(b, ChaveCelula, k, m1).Some? ==> Esperada(b, ChaveCelula, k, m1).value.fonte == Esperada(b, ChaveCelula, k, m2).value.fonte
  {
  }

  /** Every barcode cell of the base is text (an `object` or string
      column), where the two key rules agree. */
  predicate SoTexto(b: BaseManual) {
    forall j :: 0 <= j < |b.linhas| ==> b.linhas[j].ean1.Texto? && b.linhas[j].ean2.Texto? && b.linhas[j].ean3.Texto?
  }

  /** Two key rules that agree on column `f` of every row find the same
      first row for every key. */
  lemma PrimeiraLinhaConcorda(b: BaseManual, ck1: Regra, ck2: Regra, ms: seq<LinhaManual>, f: nat, k: string)
    requires forall j :: 0 <= j < |ms| ==> Chave(b, ck1, ms[j], f) == Chave(b, ck2, ms[j], f)
    ensures PrimeiraLinha(b, ck1, ms, f, k) == PrimeiraLinha(b, ck2, ms, f, k)
  {
    var r1 := PrimeiraLinha(b, ck1, ms, f, k);
    var r2 := PrimeiraLinha(b, ck2, ms, f, k);
    if r1.Some? && r2.Some? {
      assert Chave(b, ck2, ms[r1.value], f) == Some(k);
      assert Chave(b, ck1, ms[r2.value], f) == Some(k);
    }
  }

  /** On text cells the stage-8 rule is the text rule. */
  lemma TextoMesmaChave(b: BaseManual, m: LinhaManual, f: nat)
    requires m.ean1.Texto? && m.ean2.Texto? && m.ean3.Texto?
    ensures Chave(b, ChaveCelula, m, f) == Chave(b, ChaveCelulaComoEscrito, m, f)
  {
  }

  /** On a base with all three barcode columns held as text both versions
      of the step find the same barcodes in the same column; only the
      carried metadata differ. (On a numeric barcode column they differ:
      see `ChaveFlutuanteDiverge`.) */
  lemma MesmasChaves(b: BaseManual, k: string)
    requires b.tem1 && b.tem2 && b.tem3 && SoTexto(b)
    ensures PrepararLookupManual(b).Some?
    ensures Busca(PrepararLookup08(b), k).Some? <==> Busca(PrepararLookupManual(b).value, k).Some?
    ensures Busca(PrepararLookup08(b), k).Some? ==>
              Busca(PrepararLookup08(b), k).value.fonte == Busca(PrepararLookupManual(b).value, k).value.fonte
  {
    var ms := b.linhas;
    forall f | 1 <= f <= 3
      ensures PrimeiraLinha(b, ChaveCelula, ms, f, k) == PrimeiraLinha(b, ChaveCelulaComoEscrito, ms, f, k)
    {
      forall j | 0 <= j < |ms|
        ensures Chave(b, ChaveCelula, ms[j], f) == Chave(b, ChaveCelulaComoEscrito, ms[j], f)
      {
        TextoMesmaChave(b, ms[j], f);
      }
      PrimeiraLinhaConcorda(b, ChaveCelula, ChaveCelulaComoEscrito, ms, f, k);
    }
    assert DaColuna(b, ChaveCelula, 1, k, MetaDe08(b)).Some? == DaColuna(b, ChaveCelulaComoEscrito, 1, k, MetaManual).Some?;
    assert DaColuna(b, ChaveCelula, 2, k, MetaDe08(b)).Some? == DaColuna(b, ChaveCelulaComoEscrito, 2, k, MetaManual).Some?;
  }

  /** On a base of one row a key is answered exactly when one of the
      row's barcode columns gives it. */
  lemma EsperadaUmaLinha(b: BaseManual, ck: Regra, k: string, meta: LinhaManual -> Row)
    requires |b.linhas| == 1
    ensures Esperada(b, ck, k, meta).Some? <==>
              Chave(b, ck, b.linhas[0], 1) == Some(k) || Chave(b, ck, b.linhas[0], 2) == Some(k)
              || Chave(b, ck, b.linhas[0], 3) == Some(k)
  {
    assert forall f :: PrimeiraLinha(b, ck, b.linhas, f, k).Some? <==> Chave(b, ck, b.linhas[0], f) == Some(k);
  }

  /** The cells of the example base: a float barcode `n` in `EAN_1`, the
      other two missing. */
  lemma ChavesFlutuante(b: BaseManual, n: nat)
    requires |NatText(n)| == 13 && b.tem1 && b.tem2 && b.tem3 && |b.linhas| == 1
    requires b.linhas[0].ean1 == Flutuante(Some(n)) && b.linhas[0].ean2 == Texto(None) && b.linhas[0].ean3 == Texto(None)
    ensures Chave(b, ChaveCelula, b.linhas[0], 1) == Some(NatText(n))
    ensures forall f :: Chave(b, ChaveCelulaComoEscrito, b.linhas[0], f) != Some(NatText(n))
  {
    ChaveFlutuanteDiverge(n);
    ChaveFlutuanteComoInteiro(n);
    assert Digitos(None) == "";
  }

  /** The float barcode on a whole base: a base whose only row holds the
      barcode `n` as a float in `EAN_1` answers `n` in stage 8 and misses
      it in `src/nfe_matching_manual.py`. */
  lemma LookupFlutuante(b: BaseManual, n: nat)
    requires |NatText(n)| == 13 && b.tem1 && b.tem2 && b.tem3 && |b.linhas| == 1
    requires b.linhas[0].ean1 == Flutuante(Some(n)) && b.linhas[0].ean2 == Texto(None) && b.linhas[0].ean3 == Texto(None)
    ensures PrepararLookupManual(b).Some?
    ensures Busca(PrepararLookup08(b), NatText(n)).Some?
    ensures Busca(PrepararLookupManual(b).value, NatText(n)).None?
  {
    ChavesFlutuante(b, n);
    EsperadaUmaLinha(b, ChaveCelula, NatText(n), MetaDe08(b));
    EsperadaUmaLinha(b, ChaveCelulaComoEscrito, NatText(n), MetaManual);
  }

  /** A base without any barcode column gives an empty lookup. */
  lemma SemColunasSemEntradas(b: BaseManual)
    requires !b.tem1 && !b.tem2 && !b.tem3
    ensures PrepararLookup08(b) == []
  {
    var ms := b.linhas;
    BlocoAusente(b, ms, 1, MetaDe08(b));
    BlocoAusente(b, ms, 2, MetaDe08(b));
    BlocoAusente(b, ms, 3, MetaDe08(b));
    assert Bloco(b, ChaveCelula, ms, 1, MetaDe08(b)) + Bloco(b, ChaveCelula, ms, 2, MetaDe08(b)) + Bloco(b, ChaveCelula, ms, 3, MetaDe08(b)) == [];
  }

  /** A barcode column the base lacks contributes no entry. */
  lemma {:induction false} BlocoAusente(b: BaseManual, ms: seq<LinhaManual>, f: nat, meta: LinhaManual -> Row)
    requires !Tem(b, f)
    ensures Bloco(b, ChaveCelula, ms, f, meta) == []
  {
    if |ms| > 0 {
      BlocoAusente(b, ms[1..], f, meta);
    }
  }

  /** `executar_matching_manual` of stage 8 on an item frame: a base that
      could not be loaded (`carregada` empty) leaves the frame as it is. */
  function Executar08(t: Table, carregada: Option<BaseManual>): (r: Table)
    requires WellFormed(t)
    ensures WellFormed(r) && |r.rows| == |t.rows|
    ensures carregada.None? ==> r == t
    ensures forall i :: 0 <= i < |t.rows| && Get(t.rows[i], Produto) != Null ==>
              forall c :: c in r.cols ==> Get(r.rows[i], c) == Get(t.rows[i], c)
  {
    var lookup := if carregada.None? then None else Some(PrepararLookup08(carregada.value));
    var r := Executar(t, lookup);
    assert forall i :: 0 <= i < |t.rows| && Get(t.rows[i], Produto) != Null ==>
              forall c :: c in r.cols ==> Get(r.rows[i], c) == Get(t.rows[i], c) by {
      forall i | 0 <= i < |t.rows| && Get(t.rows[i], Produto) != Null
        ensures forall c :: c in r.cols ==> Get(r.rows[i], c) == Get(t.rows[i], c)
      {
        ExecutarEfeito(t, lookup, i);
      }
    }
    r
  }

  /** The metadata of every entry the lookup answers with: some row's
      `Meta08`. */
  lemma BuscaMeta08(b: BaseManual, k: string)
    requires Busca(PrepararLookup08(b), k).Some?
    ensures exists j :: 0 <= j < |b.linhas| && Busca(PrepararLookup08(b), k).value.meta == Meta08(b, b.linhas[j])
  {
    var e := Esperada(b, ChaveCelula, k, MetaDe08(b));
    var f := if DaColuna(b, ChaveCelula, 1, k, MetaDe08(b)).Some? then 1 else if DaColuna(b, ChaveCelula, 2, k, MetaDe08(b)).Some? then 2 else 3;
    assert e == DaColuna(b, ChaveCelula, f, k, MetaDe08(b));
    var j := PrimeiraLinha(b, ChaveCelula, b.linhas, f, k).value;
    assert e.value.meta == Meta08(b, b.linhas[j]);
  }

  /** Stage 8 never writes a computed key or a melt column into an item:
      those cells stay as they were. */
  lemma Executar08Auxiliares(t: Table, carregada: Option<BaseManual>, i: nat, c: string)
    requires WellFormed(t) && i < |t.rows| && c in Auxiliares
    requires c in Executar08(t, carregada).cols
    ensures Executar08(t, carregada).rows[i][c] == t.rows[i][c]
  {
    if carregada.Some? {
      var b := carregada.value;
      var l := PrepararLookup08(b);
      assert Executar08(t, carregada) == Executar(t, Some(l));
      assert c != MatchVia;
      assert Sucesso(t.rows[i], l) ==> c !in Busca(l, ChaveNota(t.rows[i]).value).value.meta by {
        if Sucesso(t.rows[i], l) {
          AuxiliarFora(b, ChaveNota(t.rows[i]).value, c);
        }
      }
      ExecutarForaDaMeta(t, Some(l), i, c);
    }
  }

  lemma AuxiliarFora(b: BaseManual, k: string, c: string)
    requires Busca(PrepararLookup08(b), k).Some? && c in Auxiliares
    ensures c !in Busca(PrepararLookup08(b), k).value.meta
  {
    BuscaMeta08(b, k);
    var j :| 0 <= j < |b.linhas| && Busca(PrepararLookup08(b), k).value.meta == Meta08(b, b.linhas[j]);
    AuxiliarForaDeMeta08(b, b.linhas[j], c);
  }

  lemma AuxiliarForaDeMeta08(b: BaseManual, m: LinhaManual, c: string)
    requires c in Auxiliares
    ensures c !in Meta08(b, m)
  {
  }
}
