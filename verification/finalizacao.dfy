/** Stage 16 of the invoice pipeline
    (`pipelines/nfe/src/nfe_etapa16_finalizacao_pipeline.py`): the attributes
    the language model extracted are copied into a side table, the working
    columns are dropped, and the rows are split into matched and remaining
    items. Loading and exporting the zipped CSV files are left out. */
module Finalizacao {
  import opened Wrappers
  import opened Seqs
  import opened Frame

  const Chave := "chave_codigo"
  const Produto := "PRODUTO"

  /** `COLUNAS_IA`: the key and the model's attributes. */
  const ColunasIA: seq<string> := [
    "chave_codigo", "IA_PRODUTO", "IA_LABORATORIO", "IA_TIPO DA UNIDADE",
    "IA_QUANTIDADE MG (POR UNIDADE/ML)", "IA_QUANTIDADE ML", "IA_QUANTIDADE UI",
    "IA_QUANTIDADE UNIDADES"]

  /** `COLUNAS_TRABALHO`: the matcher's bookkeeping, the redundant name and
      the model's attributes. */
  const ColunasTrabalho: seq<string> := [
    "best_match_index", "match_score", "match_status", "NOME_PRODUTO",
    "IA_PRODUTO", "IA_LABORATORIO", "IA_TIPO DA UNIDADE",
    "IA_QUANTIDADE MG (POR UNIDADE/ML)", "IA_QUANTIDADE ML", "IA_QUANTIDADE UI",
    "IA_QUANTIDADE UNIDADES"]

  function Em(cols: seq<string>): string -> bool { (c: string) => c in cols }

  function NaoChave(c: string): bool { c != Chave }

  // ---------------------------------------------------------------------------
  // extrair_atributos_ia
  // ---------------------------------------------------------------------------

  /** Some attribute column of `vals` holds a value in the row. */
  predicate AlgumValor(r: Row, vals: seq<string>) {
    exists k :: 0 <= k < |vals| && Get(r, vals[k]) != Null
  }

  /** The mask of `dropna(subset=vals, how='all')`. */
  function ComValor(vals: seq<string>): Row -> bool { (r: Row) => AlgumValor(r, vals) }

  /** The row restricted to `cols`. */
  function Projecao(r: Row, cols: seq<string>): Row { map c | c in cols :: Get(r, c) }

  /** The columns of `ia` the frame has, in the order of `ia`. */
  function Existentes(t: Table, ia: seq<string>): seq<string> { Filter(ia, Em(t.cols)) }

  /** `extrair_atributos_ia` for the column list `ia`: the columns of `ia`
      the frame has, in the order of `ia` (a frame with none of them gives
      the empty frame), restricted to the rows where some column other than
      the key holds a value. */
  function ExtrairAtributos(t: Table, ia: seq<string>): (r: Table)
    requires WellFormed(t) && NoDup(ia)
    ensures WellFormed(r)
    ensures forall c :: c in r.cols <==> c in ia && c in t.cols
    ensures Subsequence(r.cols, ia)
    ensures |r.rows| <= |t.rows|
    ensures forall i :: 0 <= i < |r.rows| ==> AlgumValor(r.rows[i], Filter(r.cols, NaoChave)) || Filter(r.cols, NaoChave) == []
  {
    var cols := Existentes(t, ia);
    FilterNoDup(ia, Em(t.cols));
    FilterSubsequence(ia, Em(t.cols));
    if |cols| == 0 then Table([], [])
    else
      var vals := Filter(cols, NaoChave);
      var p := Reindex(t, cols);
      if |vals| > 0 then FilterRows(p, ComValor(vals)) else p
  }

  /** Every kept row is the projection of an input row, and the kept rows
      keep the input order. */
  lemma ExtrairOrigem(t: Table, ia: seq<string>)
    requires WellFormed(t) && NoDup(ia) && |Existentes(t, ia)| > 0
    ensures Subsequence(ExtrairAtributos(t, ia).rows, Reindex(t, Existentes(t, ia)).rows)
    ensures forall j :: 0 <= j < |t.rows| ==> Reindex(t, Existentes(t, ia)).rows[j] == Projecao(t.rows[j], Existentes(t, ia))
  {
    var cols := Existentes(t, ia);
    FilterNoDup(ia, Em(t.cols));
    var p := Reindex(t, cols);
    var vals := Filter(cols, NaoChave);
    if |vals| > 0 {
      FilterSubsequence(p.rows, ComValor(vals));
    } else {
      SubsequenceRefl(p.rows);
    }
    forall j | 0 <= j < |t.rows| ensures p.rows[j] == Projecao(t.rows[j], cols) {
      assert p.rows[j].Keys == Projecao(t.rows[j], cols).Keys;
    }
  }

  /** An input row is dropped only when every attribute other than the key
      is missing: a row with some attribute reaches the side table. */
  lemma ExtrairMantem(t: Table, ia: seq<string>, j: nat)
    requires WellFormed(t) && NoDup(ia) && |Existentes(t, ia)| > 0 && j < |t.rows|
    requires AlgumValor(t.rows[j], Filter(Existentes(t, ia), NaoChave)) || Filter(Existentes(t, ia), NaoChave) == []
    ensures Projecao(t.rows[j], Existentes(t, ia)) in ExtrairAtributos(t, ia).rows
  {
    var cols := Existentes(t, ia);
    FilterNoDup(ia, Em(t.cols));
    var p := Reindex(t, cols);
    var vals := Filter(cols, NaoChave);
    assert p.rows[j].Keys == Projecao(t.rows[j], cols).Keys;
    assert p.rows[j] == Projecao(t.rows[j], cols);
    if |vals| > 0 {
      var k :| 0 <= k < |vals| && Get(t.rows[j], vals[k]) != Null;
      assert vals[k] in cols;
      assert Get(p.rows[j], vals[k]) != Null;
      assert ComValor(vals)(p.rows[j]);
    }
  }

  /** `extrair_atributos_ia` with the module's column list. */
  function ExtrairAtributosIA(t: Table): (r: Table)
    requires WellFormed(t)
    ensures forall c :: c in r.cols <==> c in ColunasIA && c in t.cols
  {
    assert NoDup(ColunasIA);
    ExtrairAtributos(t, ColunasIA)
  }

  // ---------------------------------------------------------------------------
  // limpar_dataframe_principal
  // ---------------------------------------------------------------------------

  /** `limpar_dataframe_principal` for the work list `trabalho`: the listed
      columns the frame has are dropped; every other column keeps its place
      and its cells. */
  function LimparPrincipal(t: Table, trabalho: seq<string>): (r: Table)
    requires WellFormed(t)
    ensures WellFormed(r) && |r.rows| == |t.rows|
    ensures forall c :: c in r.cols <==> c in t.cols && c !in trabalho
    ensures Subsequence(r.cols, t.cols)
    ensures forall i, c :: 0 <= i < |r.rows| && c in r.cols ==> r.rows[i][c] == t.rows[i][c]
  {
    FilterSubsequence(t.cols, Not(Em(trabalho)));
    DropCols(t, Em(trabalho))
  }

  /** A frame without work columns is returned as it is. */
  lemma LimparSemTrabalho(t: Table, trabalho: seq<string>)
    requires WellFormed(t) && forall c :: c in t.cols ==> c !in trabalho
    ensures LimparPrincipal(t, trabalho) == t
  {
    DropColsNada(t, Em(trabalho));
  }

  /** Cleaning a cleaned frame changes nothing. */
  lemma LimparIdempotente(t: Table, trabalho: seq<string>)
    requires WellFormed(t)
    ensures LimparPrincipal(LimparPrincipal(t, trabalho), trabalho) == LimparPrincipal(t, trabalho)
  {
    LimparSemTrabalho(LimparPrincipal(t, trabalho), trabalho);
  }

  // ---------------------------------------------------------------------------
  // particionar_resultados
  // ---------------------------------------------------------------------------

  datatype Particao = Particao(casados: Table, restante: Table)

  /** `particionar_resultados`: without a PRODUTO column nothing is matched
      and every row remains; otherwise the rows with a product are matched
      and the others remain. */
  function ParticionarResultados(t: Table): (r: Particao)
    requires WellFormed(t)
    ensures WellFormed(r.casados) && WellFormed(r.restante)
    ensures Produto !in t.cols ==> r.casados == Table([], []) && r.restante == t
    ensures Produto in t.cols ==> r.casados.cols == t.cols && r.restante.cols == t.cols
    ensures forall i :: 0 <= i < |r.casados.rows| ==> Get(r.casados.rows[i], Produto) != Null
    ensures Produto in t.cols ==> forall i :: 0 <= i < |r.restante.rows| ==> Get(r.restante.rows[i], Produto) == Null
  {
    if Produto !in t.cols then Particao(Table([], []), t)
    else
      var s := SplitNotNull(t, Produto);
      Particao(s.0, s.1)
  }

  /** The partition holds every row exactly once: the two parts together
      are the input as a multiset, each part in input order. */
  lemma ParticionarParticiona(t: Table)
    requires WellFormed(t)
    ensures multiset(ParticionarResultados(t).casados.rows) + multiset(ParticionarResultados(t).restante.rows)
         == multiset(t.rows)
    ensures Subsequence(ParticionarResultados(t).casados.rows, t.rows)
    ensures Subsequence(ParticionarResultados(t).restante.rows, t.rows)
  {
    if Produto in t.cols {
      SplitNotNullPartition(t, Produto);
    } else {
      SubsequenceRefl(t.rows);
    }
  }

  // ---------------------------------------------------------------------------
  // processar_finalizacao
  // ---------------------------------------------------------------------------

  datatype Saida = Saida(casados: Table, restante: Table, atributos: Table)

  /** The stage on a loaded frame: attributes from the original frame, the
      partition from the cleaned one. Every row lands in one part, and no
      work column reaches either part: cleaning precedes the split, and the
      matched part of a frame without products has no columns at all. */
  function Finalizar(t: Table): (r: Saida)
    requires WellFormed(t)
    ensures |r.casados.rows| + |r.restante.rows| == |t.rows|
    ensures forall c :: c in ColunasTrabalho ==> c !in r.casados.cols && c !in r.restante.cols
    ensures forall c :: c in r.atributos.cols <==> c in ColunasIA && c in t.cols
  {
    var limpo := LimparPrincipal(t, ColunasTrabalho);
    var p := ParticionarResultados(limpo);
    ParticionarParticiona(limpo);
    assert |multiset(p.casados.rows) + multiset(p.restante.rows)| == |multiset(limpo.rows)|;
    Saida(p.casados, p.restante, ExtrairAtributosIA(t))
  }

  /** `processar_finalizacao` as written: the closing report divides by the
      number of input rows, and the surrounding handler turns the
      ZeroDivisionError into the failure triple, so an empty frame reports
      failure although its (empty) outputs were produced. */
  function FinalizarComoEscrito(t: Table): (r: Option<Saida>)
    requires WellFormed(t)
    ensures r.None? <==> |t.rows| == 0
    ensures r.Some? ==> r.value == Finalizar(t)
  {
    if |t.rows| == 0 then None else Some(Finalizar(t))
  }

  /** The empty frame with a PRODUTO column: failure as written, three
      empty outputs when corrected. */
  lemma FinalizarVazioFalha()
    ensures FinalizarComoEscrito(Table([Produto], [])).None?
    ensures Finalizar(Table([Produto], [])).casados.rows == []
    ensures Finalizar(Table([Produto], [])).restante.rows == []
  {
    assert NoDup([Produto]);
  }
}
