/** Stage 9 of the invoice pipeline (`pipelines/nfe/src/nfe_etapa09_separacao.py`):
    the invoice items are split into the "complete" flow (a regulator product
    was found) and the "working" flow (no product yet), and the working flow
    loses the items whose description names a non-medicinal product. The two
    removal lists are read from JSON files; here they are parameters. */
module Separacao {
  import opened Wrappers
  import opened Text
  import opened Seqs
  import opened Frame
  import opened Scan

  const Produto := "PRODUTO"
  const Descricao := "descricao_produto"

  // ---------------------------------------------------------------------------
  // separar_fluxos
  // ---------------------------------------------------------------------------

  /** The two flows: rows with a product, then rows without one. */
  datatype Fluxos = Fluxos(completo: Table, trabalhando: Table)

  /** `separar_fluxos` without its statistics printout: no flows when the
      frame has no product column, otherwise the rows with a product and the
      rows without one, each in input order and with all columns. */
  function SepararFluxos(t: Table): (r: Option<Fluxos>)
    requires WellFormed(t)
    ensures r.None? <==> Produto !in t.cols
    ensures r.Some? ==> WellFormed(r.value.completo) && r.value.completo.cols == t.cols
    ensures r.Some? ==> WellFormed(r.value.trabalhando) && r.value.trabalhando.cols == t.cols
    ensures r.Some? ==> forall i :: 0 <= i < |r.value.completo.rows| ==> Get(r.value.completo.rows[i], Produto) != Null
    ensures r.Some? ==> forall i :: 0 <= i < |r.value.trabalhando.rows| ==> Get(r.value.trabalhando.rows[i], Produto) == Null
  {
    if Produto !in t.cols then None
    else
      var s := SplitNotNull(t, Produto);
      Some(Fluxos(s.0, s.1))
  }

  /** The flows partition the input: every input row lands in exactly one
      of them, as often as it occurs, and each flow keeps the input order. */
  lemma SepararParticiona(t: Table)
    requires WellFormed(t) && Produto in t.cols
    ensures multiset(SepararFluxos(t).value.completo.rows) + multiset(SepararFluxos(t).value.trabalhando.rows)
         == multiset(t.rows)
    ensures Subsequence(SepararFluxos(t).value.completo.rows, t.rows)
    ensures Subsequence(SepararFluxos(t).value.trabalhando.rows, t.rows)
  {
    SplitNotNullPartition(t, Produto);
  }

  /** `separar_fluxos` as written: its statistics divide by the number of
      rows, so a frame with a product column but no rows raises
      ZeroDivisionError instead of yielding two empty flows. */
  function SepararComoEscrito(t: Table): (r: Result<Option<Fluxos>>)
    requires WellFormed(t)
    ensures r.Err? <==> Produto in t.cols && |t.rows| == 0
    ensures r.Ok? ==> r.value == SepararFluxos(t)
  {
    if Produto !in t.cols then Ok(None)
    else if |t.rows| == 0 then Err(ZeroDivisionError("division by zero"))
    else Ok(SepararFluxos(t))
  }

  /** The smallest frame that shows the difference: a product column and no
      rows. */
  lemma SepararVazioFalha()
    ensures SepararComoEscrito(Table([Produto], [])).Err?
    ensures SepararFluxos(Table([Produto], [])) == Some(Fluxos(Table([Produto], []), Table([Produto], [])))
  {
    assert NoDup([Produto]);
  }

  // ---------------------------------------------------------------------------
  // filtrar_nao_medicinais
  // ---------------------------------------------------------------------------

  /** `\b(w)\b` matches at `i`, ignoring case (the word is escaped, so it
      is matched literally). An empty word matches at any word boundary. */
  predicate PalavraEm(s: string, w: string, i: nat) {
    TextAt(s, i, w, true) && Boundary(s, i) && Boundary(s, i + |w|)
  }

  /** The word pattern `\b(w1|w2|...)\b` occurs somewhere in the cell. A
      missing or non-text cell does not match (`na=False`). */
  predicate CasaPalavra(v: Value, ps: seq<string>) {
    v.Str? && exists k, i: nat :: 0 <= k < |ps| && i <= |v.s| && PalavraEm(v.s, ps[k], i)
  }

  /** The term pattern `t1|t2|...` occurs somewhere in the cell, ignoring
      case. */
  predicate CasaTermo(v: Value, ts: seq<string>) {
    v.Str? && exists k :: 0 <= k < |ts| && ContainsCI(v.s, ts[k])
  }

  /** `~mascara_palavras`. */
  function SemPalavra(ps: seq<string>): Row -> bool {
    (r: Row) => !CasaPalavra(Get(r, Descricao), ps)
  }

  /** `~mascara_termos`. */
  function SemTermo(ts: seq<string>): Row -> bool {
    (r: Row) => !CasaTermo(Get(r, Descricao), ts)
  }

  /** The reference mask: a row is medicinal when its description matches
      neither a listed word nor a listed term. */
  function Medicinal(ps: seq<string>, ts: seq<string>): Row -> bool {
    (r: Row) => !CasaPalavra(Get(r, Descricao), ps) && !CasaTermo(Get(r, Descricao), ts)
  }

  /** The guards of `filtrar_nao_medicinais` that return the frame as it
      came. */
  predicate Inalterado(t: Table, ps: seq<string>, ts: seq<string>) {
    |t.rows| == 0 || Descricao !in t.cols || (|ps| == 0 && |ts| == 0)
  }

  /** `filtrar_nao_medicinais` with the loaded lists `ps` (words) and `ts`
      (terms): the word filter runs first, then the term filter on what is
      left. A missing frame, an empty frame, a frame without the
      description column and two empty lists all give the input back. */
  function FiltrarNaoMedicinais(t: Option<Table>, ps: seq<string>, ts: seq<string>): (r: Option<Table>)
    requires t.Some? ==> WellFormed(t.value)
    ensures r.Some? <==> t.Some?
    ensures t.Some? && Inalterado(t.value, ps, ts) ==> r == t
    ensures r.Some? ==> WellFormed(r.value) && r.value.cols == t.value.cols
    ensures r.Some? ==> Subsequence(r.value.rows, t.value.rows)
  {
    if t.None? then t
    else if Inalterado(t.value, ps, ts) then
      SubsequenceRefl(t.value.rows);
      t
    else
      var a := if |ps| > 0 then FilterRows(t.value, SemPalavra(ps)) else t.value;
      var b := if |ts| > 0 then FilterRows(a, SemTermo(ts)) else a;
      FiltrarSubsequencia(t.value, ps, ts);
      Some(b)
  }

  /** The two passes keep a subsequence of the input. */
  lemma FiltrarSubsequencia(t: Table, ps: seq<string>, ts: seq<string>)
    ensures Subsequence(FiltrarPassos(t.rows, ps, ts), t.rows)
  {
    FiltrarPassosReferencia(t.rows, ps, ts);
    FilterSubsequence(t.rows, Medicinal(ps, ts));
  }

  /** The rows the two passes keep. */
  function FiltrarPassos(rows: seq<Row>, ps: seq<string>, ts: seq<string>): seq<Row> {
    var a := if |ps| > 0 then Filter(rows, SemPalavra(ps)) else rows;
    if |ts| > 0 then Filter(a, SemTermo(ts)) else a
  }

  /** Applying the word pass and the term pass one after the other keeps
      exactly the rows the single reference mask keeps. */
  lemma FiltrarPassosReferencia(rows: seq<Row>, ps: seq<string>, ts: seq<string>)
    ensures FiltrarPassos(rows, ps, ts) == Filter(rows, Medicinal(ps, ts))
  {
    if |ps| > 0 && |ts| > 0 {
      FilterFilter(rows, SemPalavra(ps), SemTermo(ts), Medicinal(ps, ts));
    } else if |ps| > 0 {
      FilterCongruent(rows, SemPalavra(ps), Medicinal(ps, ts));
    } else if |ts| > 0 {
      FilterCongruent(rows, SemTermo(ts), Medicinal(ps, ts));
    } else {
      FilterAll(rows, Medicinal(ps, ts));
    }
  }

  /** On every path, the filtered frame is the input restricted to the rows
      the reference mask keeps: the early returns only happen where the mask
      keeps every row. */
  lemma FiltrarReferencia(t: Table, ps: seq<string>, ts: seq<string>)
    requires WellFormed(t)
    ensures FiltrarNaoMedicinais(Some(t), ps, ts) == Some(Table(t.cols, Filter(t.rows, Medicinal(ps, ts))))
  {
    FiltrarPassosReferencia(t.rows, ps, ts);
    if Descricao !in t.cols {
      assert forall i :: 0 <= i < |t.rows| ==> Get(t.rows[i], Descricao) == Null by {
        forall i | 0 <= i < |t.rows| ensures Get(t.rows[i], Descricao) == Null {
          assert t.rows[i].Keys == ColSet(t.cols);
        }
      }
      FilterAll(t.rows, Medicinal(ps, ts));
    } else if |t.rows| == 0 {
    }
  }

  /** What the filter reports: the rows each pass removed and the total. */
  datatype Relatorio = Relatorio(porPalavras: nat, porTermos: nat, total: nat)

  /** The printed report of a filtering run, when one happens: each pass
      counts the rows its mask flags among the rows it sees, and the total
      is the number of rows before minus the number after. */
  function RelatorioFiltragem(t: Table, ps: seq<string>, ts: seq<string>): (r: Option<Relatorio>)
    requires WellFormed(t)
    ensures r.None? <==> Inalterado(t, ps, ts)
    ensures r.Some? ==> r.value.total == r.value.porPalavras + r.value.porTermos
    ensures r.Some? ==> r.value.total == |t.rows| - |Filter(t.rows, Medicinal(ps, ts))|
  {
    if Inalterado(t, ps, ts) then None
    else
      var a := if |ps| > 0 then Filter(t.rows, SemPalavra(ps)) else t.rows;
      var np := if |ps| > 0 then |Filter(t.rows, Neg(SemPalavra(ps)))| else 0;
      var b := if |ts| > 0 then Filter(a, SemTermo(ts)) else a;
      var nt := if |ts| > 0 then |Filter(a, Neg(SemTermo(ts)))| else 0;
      FilterSplitCount(t.rows, SemPalavra(ps));
      FilterSplitCount(a, SemTermo(ts));
      FiltrarPassosReferencia(t.rows, ps, ts);
      assert b == FiltrarPassos(t.rows, ps, ts);
      Some(Relatorio(np, nt, |t.rows| - |b|))
  }

  // ---------------------------------------------------------------------------
  // processar_separacao_e_filtragem
  // ---------------------------------------------------------------------------

  /** `processar_separacao_e_filtragem` without its exports: no result when
      the separation fails; otherwise the complete flow as separated and the
      working flow after the non-medicinal filter. */
  function ProcessarSeparacao(t: Table, ps: seq<string>, ts: seq<string>): (r: Option<Fluxos>)
    requires WellFormed(t)
    ensures r.None? <==> SepararFluxos(t).None?
    ensures r.Some? ==> r.value.completo == SepararFluxos(t).value.completo
    ensures r.Some? ==> r.value.trabalhando.cols == t.cols
    ensures r.Some? ==> Subsequence(r.value.trabalhando.rows, SepararFluxos(t).value.trabalhando.rows)
  {
    match SepararFluxos(t)
    case None => None
    case Some(f) => Some(Fluxos(f.completo, FiltrarNaoMedicinais(Some(f.trabalhando), ps, ts).value))
  }

  /** A row reaches the working output iff it has no product and is
      medicinal; the complete output is untouched by the filter. */
  lemma ProcessarReferencia(t: Table, ps: seq<string>, ts: seq<string>)
    requires WellFormed(t) && Produto in t.cols
    ensures ProcessarSeparacao(t, ps, ts).value.trabalhando.rows
         == Filter(Filter(t.rows, Neg(NotNull(Produto))), Medicinal(ps, ts))
  {
    FiltrarReferencia(SepararFluxos(t).value.trabalhando, ps, ts);
  }
}
