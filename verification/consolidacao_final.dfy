/** Stage 17 of the invoice pipeline (`pipelines/nfe/src/nfe_consolidacao_final.py`):
    the three matched outputs (barcode matches, unique-presentation matches,
    hybrid matches) are renamed and aligned to one reference schema, stacked,
    stripped of accents in two text columns, and cleaned: rows without a
    municipality or an active ingredient go, and one row per invoice key
    stays. Reading the zipped CSV files and the reports are left out; the
    reference schema and the two rename maps are parameters. */
module ConsolidacaoFinal {
  import opened Wrappers
  import opened Seqs
  import opened Frame
  import opened Text
  import AU = ApresentacaoUnica

  const Status := "STATUS"
  const TipoProduto := "TIPO DE PRODUTO"
  const Municipio := "municipio"
  const Principio := "PRINCIPIO ATIVO"
  const Chave := "chave_codigo"

  /** The columns whose accents `consolidar_dataframes` removes. */
  const SemAcentos: seq<string> := [Status, TipoProduto]

  // ---------------------------------------------------------------------------
  // format_to_schema
  // ---------------------------------------------------------------------------

  /** `format_to_schema`: the schema's columns in the schema's order; a
      column the frame lacks is added as missing, a column the schema lacks
      is dropped, and every kept cell and the number of rows stay. */
  function FormatarSchema(t: Table, schema: seq<string>): (r: Table)
    requires WellFormed(t) && NoDup(schema)
    ensures WellFormed(r) && r.cols == schema && |r.rows| == |t.rows|
    ensures forall i, c :: 0 <= i < |r.rows| && c in schema && c in t.cols ==> r.rows[i][c] == t.rows[i][c]
    ensures forall i, c :: 0 <= i < |r.rows| && c in schema && c !in t.cols ==> r.rows[i][c] == Null
  {
    var r := Reindex(t, schema);
    assert forall i :: 0 <= i < |t.rows| ==> t.rows[i].Keys == ColSet(t.cols);
    r
  }

  /** A frame already in a schema is left as it is. */
  lemma FormatarConforme(t: Table)
    requires WellFormed(t)
    ensures FormatarSchema(t, t.cols) == t
  {
    var r := FormatarSchema(t, t.cols);
    forall i | 0 <= i < |t.rows| ensures r.rows[i] == t.rows[i] {
      SameRow(r, t, i);
    }
  }

  /** Aligning an aligned frame changes nothing. */
  lemma FormatarIdempotente(t: Table, schema: seq<string>)
    requires WellFormed(t) && NoDup(schema)
    ensures FormatarSchema(FormatarSchema(t, schema), schema) == FormatarSchema(t, schema)
  {
    FormatarConforme(FormatarSchema(t, schema));
  }

  // ---------------------------------------------------------------------------
  // aplicar_mapeamento
  // ---------------------------------------------------------------------------

  /** A column map: a key mapped to a name renames that column, a key
      mapped to `None` removes it. */
  type Mapeamento = map<string, Option<string>>

  predicate Removida(m: Mapeamento, c: string) { c in m && m[c].None? }

  /** The name a column has after `rename`. */
  function NovoNome(m: Mapeamento): string -> string {
    (c: string) => if c in m && m[c].Some? then m[c].value else c
  }

  /** `cols_remover`: the present keys mapped to `None`. */
  function Remover(m: Mapeamento, cols: seq<string>): string -> bool {
    (c: string) => c in cols && Removida(m, c)
  }

  /** `aplicar_mapeamento`: the present keys mapped to names are renamed in
      place, then the present keys mapped to `None` are dropped; keys the
      frame lacks are ignored. */
  function AplicarMapeamento(t: Table, m: Mapeamento): (r: Table)
    requires WellFormed(t) && AU.Injetiva(t.cols, NovoNome(m))
    ensures WellFormed(r) && |r.rows| == |t.rows|
    ensures forall c :: c in t.cols && Removida(m, c) ==> c !in r.cols
    ensures forall i, c :: 0 <= i < |r.rows| && c in t.cols && !Removida(m, c) ==>
              NovoNome(m)(c) in r.cols && r.rows[i][NovoNome(m)(c)] == t.rows[i][c]
  {
    var n := AU.Renomear(t, NovoNome(m));
    var r := DropCols(n, Remover(m, t.cols));
    forall c | c in t.cols && !Removida(m, c) ensures NovoNome(m)(c) in n.cols && !Remover(m, t.cols)(NovoNome(m)(c)) {
      var k :| 0 <= k < |t.cols| && t.cols[k] == c;
      assert n.cols[k] == NovoNome(m)(c);
    }
    r
  }

  /** Every column of the result is a kept input column under its new
      name. */
  lemma MapeamentoOrigem(t: Table, m: Mapeamento, c: string) returns (o: string)
    requires WellFormed(t) && AU.Injetiva(t.cols, NovoNome(m))
    requires c in AplicarMapeamento(t, m).cols
    ensures o in t.cols && !Removida(m, o) && NovoNome(m)(o) == c
  {
    var n := AU.Renomear(t, NovoNome(m));
    assert c in n.cols && !Remover(m, t.cols)(c);
    var k :| 0 <= k < |n.cols| && n.cols[k] == c;
    o := t.cols[k];
  }

  /** A map whose present keys all keep their name (as the map for the
      unique-presentation output does) leaves the frame as it is. */
  lemma MapeamentoNeutro(t: Table, m: Mapeamento)
    requires WellFormed(t)
    requires forall c :: c in t.cols ==> c !in m || m[c] == Some(c)
    ensures AU.Injetiva(t.cols, NovoNome(m))
    ensures AplicarMapeamento(t, m) == t
  {
    assert forall k :: 0 <= k < |t.cols| ==> NovoNome(m)(t.cols[k]) == t.cols[k];
    var n := AU.Renomear(t, NovoNome(m));
    assert n.cols == t.cols;
    forall i | 0 <= i < |t.rows| ensures n.rows[i] == t.rows[i] {
      forall c | c in t.cols ensures Get(n.rows[i], c) == Get(t.rows[i], c) {
        var k :| 0 <= k < |t.cols| && t.cols[k] == c;
      }
      SameRow(n, t, i);
    }
    assert n == t;
    DropColsNada(n, Remover(m, t.cols));
  }

  // ---------------------------------------------------------------------------
  // remover_acentos_texto, normalizar_colunas_sem_acentos
  // ---------------------------------------------------------------------------

  /** `remover_acentos_texto`, with the NFKD decomposition `nfkd` as a
      parameter: a missing cell stays missing; anything else becomes its
      decomposed text without combining marks. */
  function RemoverAcentosTexto(v: Value, repr: Value -> string, nfkd: string -> string): (r: Value)
    ensures v == Null ==> r == Null
    ensures v != Null ==> r.Str? && forall i :: 0 <= i < |r.s| ==> !Combinante(r.s[i])
    ensures v != Null ==> Subsequence(r.s, nfkd(Texto(v, repr)))
  {
    if v == Null then Null
    else
      FilterSubsequence(nfkd(Texto(v, repr)), NaoCombinante);
      Str(Filter(nfkd(Texto(v, repr)), NaoCombinante))
  }

  /** Only combining marks are removed: a decomposition without them comes
      back whole. */
  lemma AcentosSoMarcas(v: Value, repr: Value -> string, nfkd: string -> string)
    requires v != Null
    requires forall i :: 0 <= i < |nfkd(Texto(v, repr))| ==> !Combinante(nfkd(Texto(v, repr))[i])
    ensures RemoverAcentosTexto(v, repr, nfkd) == Str(nfkd(Texto(v, repr)))
  {
    FilterAll(nfkd(Texto(v, repr)), NaoCombinante);
  }

  function SemAcentoEm(c: string, repr: Value -> string, nfkd: string -> string): Row -> Value {
    (r: Row) => RemoverAcentosTexto(Get(r, c), repr, nfkd)
  }

  /** One column of `normalizar_colunas_sem_acentos`: the column, when the
      frame has it, loses its accents; every other cell stays. */
  function SemAcentoColuna(t: Table, c: string, repr: Value -> string, nfkd: string -> string): (r: Table)
    requires WellFormed(t)
    ensures WellFormed(r) && r.cols == t.cols && |r.rows| == |t.rows|
    ensures forall i, d :: 0 <= i < |r.rows| && d != c ==> Get(r.rows[i], d) == Get(t.rows[i], d)
    ensures forall i :: 0 <= i < |r.rows| && c in t.cols ==> Get(r.rows[i], c) == RemoverAcentosTexto(Get(t.rows[i], c), repr, nfkd)
  {
    if c in t.cols then SetCol(t, c, SemAcentoEm(c, repr, nfkd)) else t
  }

  /** `normalizar_colunas_sem_acentos`: each listed column the frame has
      loses its accents; the other columns and the row count stay. */
  function NormalizarSemAcentos(t: Table, cols: seq<string>, repr: Value -> string, nfkd: string -> string): (r: Table)
    requires WellFormed(t) && NoDup(cols)
    ensures WellFormed(r) && r.cols == t.cols && |r.rows| == |t.rows|
    ensures forall i, c :: 0 <= i < |r.rows| && c !in cols ==> Get(r.rows[i], c) == Get(t.rows[i], c)
    ensures forall i, c :: 0 <= i < |r.rows| && c in t.cols && c in cols ==>
              Get(r.rows[i], c) == RemoverAcentosTexto(Get(t.rows[i], c), repr, nfkd)
    decreases |cols|
  {
    if |cols| == 0 then t
    else
      var c0, resto := cols[0], cols[1..];
      var u := SemAcentoColuna(t, c0, repr, nfkd);
      assert NoDup(resto) && c0 !in resto by {
        assert forall k :: 0 <= k < |resto| ==> resto[k] == cols[k + 1];
      }
      var r := NormalizarSemAcentos(u, resto, repr, nfkd);
      assert forall i, c :: 0 <= i < |r.rows| && c !in cols ==> Get(r.rows[i], c) == Get(t.rows[i], c) by {
        forall i, c | 0 <= i < |r.rows| && c !in cols ensures Get(r.rows[i], c) == Get(t.rows[i], c) {
          assert c !in resto && c != c0;
        }
      }
      assert forall i, c :: 0 <= i < |r.rows| && c in t.cols && c in cols ==>
               Get(r.rows[i], c) == RemoverAcentosTexto(Get(t.rows[i], c), repr, nfkd) by {
        forall i, c | 0 <= i < |r.rows| && c in t.cols && c in cols
          ensures Get(r.rows[i], c) == RemoverAcentosTexto(Get(t.rows[i], c), repr, nfkd)
        {
          if c == c0 {
            assert c !in resto;
          } else {
            assert c in resto;
          }
        }
      }
      r
  }

  // ---------------------------------------------------------------------------
  // consolidar_dataframes
  // ---------------------------------------------------------------------------

  predicate BemFormadas(ps: seq<Table>) { forall k :: 0 <= k < |ps| ==> WellFormed(ps[k]) }

  /** The number of rows of all the frames. */
  function Linhas(ps: seq<Table>): nat
    decreases |ps|
  {
    if |ps| == 0 then 0 else Linhas(ps[..|ps| - 1]) + |ps[|ps| - 1].rows|
  }

  /** `pd.concat(ps, ignore_index=True)`. */
  function ConcatTodos(ps: seq<Table>): (r: Table)
    requires BemFormadas(ps)
    ensures WellFormed(r) && |r.rows| == Linhas(ps)
    decreases |ps|
  {
    if |ps| == 0 then Table([], [])
    else Concat(ConcatTodos(ps[..|ps| - 1]), ps[|ps| - 1])
  }

  /** Frames in one schema concatenate to a frame in that schema. */
  lemma {:induction false} ConcatTodosSchema(ps: seq<Table>, schema: seq<string>)
    requires BemFormadas(ps) && |ps| > 0
    requires forall k :: 0 <= k < |ps| ==> ps[k].cols == schema
    ensures ConcatTodos(ps).cols == schema
    decreases |ps|
  {
    var init := ps[..|ps| - 1];
    assert NoDup(schema) by { assert WellFormed(ps[0]); }
    if |ps| > 1 {
      assert forall k :: 0 <= k < |init| ==> init[k] == ps[k];
      ConcatTodosSchema(init, schema);
      UnionColsIgual(schema);
    } else {
      UnionColsVazio(schema);
    }
  }

  /** Row `i` of frame `k` is the row at offset `Linhas(ps[..k]) + i` of the
      concatenation, cell by cell (a column the frame lacks reads as
      missing). */
  lemma {:induction false} ConcatTodosLinha(ps: seq<Table>, k: nat, i: nat, c: string)
    requires BemFormadas(ps) && k < |ps| && i < |ps[k].rows|
    ensures Linhas(ps[..k]) + i < |ConcatTodos(ps).rows|
    ensures Get(ConcatTodos(ps).rows[Linhas(ps[..k]) + i], c) == Get(ps[k].rows[i], c)
    decreases |ps|
  {
    var init := ps[..|ps| - 1];
    var a := ConcatTodos(init);
    var b := ps[|ps| - 1];
    if k == |ps| - 1 {
      assert ps[..k] == init;
      ConcatGetB(a, b, i, c);
    } else {
      assert init[..k] == ps[..k] && init[k] == ps[k];
      ConcatTodosLinha(init, k, i, c);
      LinhasPrefixo(ps, k);
      ConcatGetA(a, b, Linhas(ps[..k]) + i, c);
    }
  }

  /** The frames before `k` hold no more rows than those before the last. */
  lemma {:induction false} LinhasPrefixo(ps: seq<Table>, k: nat)
    requires k < |ps|
    ensures Linhas(ps[..k]) + |ps[k].rows| <= Linhas(ps)
    decreases |ps|
  {
    if k < |ps| - 1 {
      var init := ps[..|ps| - 1];
      assert init[..k] == ps[..k] && init[k] == ps[k];
      LinhasPrefixo(init, k);
    } else {
      assert ps[..k] == ps[..|ps| - 1];
    }
  }

  /** `consolidar_dataframes` without its summary: `ValueError` for an empty
      list; otherwise the frames stacked in order with the accents removed
      from STATUS and TIPO DE PRODUTO. */
  function Consolidar(ps: seq<Table>, repr: Value -> string, nfkd: string -> string): (r: Result<Table>)
    requires BemFormadas(ps)
    ensures r.Err? <==> |ps| == 0
    ensures r.Ok? ==> WellFormed(r.value) && |r.value.rows| == Linhas(ps)
  {
    if |ps| == 0 then Err(ValueError("Nenhum DataFrame foi processado com sucesso"))
    else Ok(NormalizarSemAcentos(ConcatTodos(ps), SemAcentos, repr, nfkd))
  }

  /** Row `i` of frame `k` reappears at its offset in the consolidated frame,
      with its accents removed in the two text columns and every other cell
      as it was. */
  lemma ConsolidarLinha(ps: seq<Table>, repr: Value -> string, nfkd: string -> string, k: nat, i: nat, c: string)
    requires BemFormadas(ps) && k < |ps| && i < |ps[k].rows|
    ensures Linhas(ps[..k]) + i < |Consolidar(ps, repr, nfkd).value.rows|
    ensures c !in SemAcentos ==> Get(Consolidar(ps, repr, nfkd).value.rows[Linhas(ps[..k]) + i], c) == Get(ps[k].rows[i], c)
    ensures c in SemAcentos ==> Get(Consolidar(ps, repr, nfkd).value.rows[Linhas(ps[..k]) + i], c)
                                == RemoverAcentosTexto(Get(ps[k].rows[i], c), repr, nfkd)
  {
    ConcatTodosLinha(ps, k, i, c);
    var t := ConcatTodos(ps);
    var j := Linhas(ps[..k]) + i;
    assert t.rows[j].Keys == ColSet(t.cols);
  }

  /** `consolidar_dataframes` as written: its per-source summary divides by
      the number of consolidated rows, so frames that are all empty raise
      ZeroDivisionError. */
  function ConsolidarComoEscrito(ps: seq<Table>, repr: Value -> string, nfkd: string -> string): (r: Result<Table>)
    requires BemFormadas(ps)
    ensures r.Err? <==> |ps| == 0 || Linhas(ps) == 0
    ensures r.Ok? ==> r == Consolidar(ps, repr, nfkd)
  {
    if |ps| > 0 && Linhas(ps) == 0 then Err(ZeroDivisionError("division by zero"))
    else Consolidar(ps, repr, nfkd)
  }

  // ---------------------------------------------------------------------------
  // limpar_e_validar
  // ---------------------------------------------------------------------------

  /** A row with a municipality and an active ingredient. */
  function Valida(r: Row): bool { Get(r, Municipio) != Null && Get(r, Principio) != Null }

  predicate ColunasLimpeza(t: Table) { Municipio in t.cols && Principio in t.cols && Chave in t.cols }

  /** The rows the three cleaning steps keep: the rows with a municipality,
      of those the rows with an active ingredient, of those the first of
      each invoice key. */
  function Validas(rows: seq<Row>): (d: seq<Row>)
    ensures forall i :: 0 <= i < |d| ==> Valida(d[i]) && d[i] in rows
    ensures DistinctKeys(d, ColKey(Chave))
    ensures KeysOf(d, ColKey(Chave)) == KeysOf(Filter(rows, Valida), ColKey(Chave))
  {
    var b := Filter(Filter(rows, NotNull(Municipio)), NotNull(Principio));
    FilterFilter(rows, NotNull(Municipio), NotNull(Principio), Valida);
    DedupKeys(b, ColKey(Chave));
    DedupSub(b, ColKey(Chave));
    DedupBy(b, ColKey(Chave))
  }

  /** `limpar_e_validar` without its printout: `KeyError` when a column it
      reads is missing; otherwise the rows without a municipality go, then
      the rows without an active ingredient, then every row whose invoice
      key appeared earlier. */
  function LimparEValidar(t: Table): (r: Result<Table>)
    requires WellFormed(t)
    ensures r.Err? <==> !ColunasLimpeza(t)
    ensures r.Ok? ==> WellFormed(r.value) && r.value.cols == t.cols
    ensures r.Err? ==> r.error.KeyError?
    ensures r.Ok? ==> r.value.rows == Validas(t.rows)
  {
    if !ColunasLimpeza(t) then Err(KeyError(if Municipio !in t.cols then Municipio else if Principio !in t.cols then Principio else Chave))
    else
      var d := Validas(t.rows);
      assert forall i :: 0 <= i < |d| ==> d[i].Keys == ColSet(t.cols) by {
        forall i | 0 <= i < |d| ensures d[i].Keys == ColSet(t.cols) {
          var j :| 0 <= j < |t.rows| && t.rows[j] == d[i];
        }
      }
      Ok(Table(t.cols, d))
  }

  /** Of the valid rows sharing an invoice key, the first is the one kept. */
  lemma LimparPrimeiro(t: Table, i: nat) returns (j: nat)
    requires WellFormed(t) && ColunasLimpeza(t) && i < |LimparEValidar(t).value.rows|
    ensures j < |Filter(t.rows, Valida)| && Filter(t.rows, Valida)[j] == LimparEValidar(t).value.rows[i]
    ensures FirstOfKey(Filter(t.rows, Valida), ColKey(Chave), j)
  {
    var b := Filter(Filter(t.rows, NotNull(Municipio)), NotNull(Principio));
    FilterFilter(t.rows, NotNull(Municipio), NotNull(Principio), Valida);
    DedupKeys(b, ColKey(Chave));
    j :| 0 <= j < |b| && b[j] == DedupBy(b, ColKey(Chave))[i] && FirstOfKey(b, ColKey(Chave), j);
  }

  /** `limpar_e_validar` as written: its summary divides by the number of
      input rows, so an empty frame raises ZeroDivisionError. */
  function LimparComoEscrito(t: Table): (r: Result<Table>)
    requires WellFormed(t)
    ensures r.Err? <==> !ColunasLimpeza(t) || |t.rows| == 0
    ensures r.Ok? ==> r == LimparEValidar(t)
  {
    if ColunasLimpeza(t) && |t.rows| == 0 then Err(ZeroDivisionError("division by zero"))
    else LimparEValidar(t)
  }

  // ---------------------------------------------------------------------------
  // processar_consolidacao_final
  // ---------------------------------------------------------------------------

  /** The columns the closing report reads. */
  predicate ColunasRelatorio(t: Table) {
    forall c :: c in ["PRODUTO", "LABORATORIO", Principio, "APRESENTACAO", Municipio, "valor_produtos"] ==> c in t.cols
  }

  /** The configuration of the stage: the reference schema and the maps for
      the unique-presentation and the hybrid outputs. */
  datatype Config = Config(schema: seq<string>, mapApresentacao: Mapeamento, mapHibrido: Mapeamento)

  predicate Aplicavel(cfg: Config, t: Option<Table>, m: Mapeamento) {
    t.Some? ==> WellFormed(t.value) && AU.Injetiva(t.value.cols, NovoNome(m))
  }

  /** The sources that loaded (`None` stands for a file that is missing or
      failed to load), each renamed and aligned to the schema, in the order
      barcode matches, unique-presentation matches, hybrid matches. */
  function Partes(cfg: Config, completo: Option<Table>, apresentacao: Option<Table>, hibrido: Option<Table>): (r: seq<Table>)
    requires NoDup(cfg.schema) && (completo.Some? ==> WellFormed(completo.value))
    requires Aplicavel(cfg, apresentacao, cfg.mapApresentacao) && Aplicavel(cfg, hibrido, cfg.mapHibrido)
    ensures BemFormadas(r)
    ensures forall k :: 0 <= k < |r| ==> r[k].cols == cfg.schema
    ensures |r| == 0 <==> completo.None? && apresentacao.None? && hibrido.None?
  {
    var a := Alinhada(completo, None, cfg.schema);
    var b := Alinhada(apresentacao, Some(cfg.mapApresentacao), cfg.schema);
    var c := Alinhada(hibrido, Some(cfg.mapHibrido), cfg.schema);
    assert forall k :: 0 <= k < |a + b| ==> (a + b)[k] in a || (a + b)[k] in b;
    assert forall k :: 0 <= k < |a + b + c| ==> (a + b + c)[k] in a + b || (a + b + c)[k] in c;
    a + b + c
  }

  /** One source, when it loaded, renamed by its map (if it has one) and
      aligned to the schema. */
  function Alinhada(t: Option<Table>, m: Option<Mapeamento>, schema: seq<string>): (r: seq<Table>)
    requires NoDup(schema) && (t.Some? ==> WellFormed(t.value))
    requires t.Some? && m.Some? ==> AU.Injetiva(t.value.cols, NovoNome(m.value))
    ensures |r| == (if t.Some? then 1 else 0)
    ensures forall k :: 0 <= k < |r| ==> WellFormed(r[k]) && r[k].cols == schema
  {
    if t.None? then []
    else if m.None? then [FormatarSchema(t.value, schema)]
    else [FormatarSchema(AplicarMapeamento(t.value, m.value), schema)]
  }

  /** The stage on the aligned sources: consolidation, cleaning and the
      columns the report reads. Only `KeyError` can arise; the result is in
      the schema, holds valid rows only and one row per invoice key. */
  function ConsolidarELimpar(ps: seq<Table>, schema: seq<string>, repr: Value -> string, nfkd: string -> string): (r: Result<Table>)
    requires BemFormadas(ps) && |ps| > 0
    requires forall k :: 0 <= k < |ps| ==> ps[k].cols == schema
    ensures r.Err? ==> r.error.KeyError?
    ensures r.Ok? ==> r.value.cols == schema
    ensures r.Ok? ==> DistinctKeys(r.value.rows, ColKey(Chave))
    ensures r.Ok? ==> forall i :: 0 <= i < |r.value.rows| ==> Valida(r.value.rows[i])
  {
    var c := Consolidar(ps, repr, nfkd).value;
    ConcatTodosSchema(ps, schema);
    match LimparEValidar(c)
    case Err(e) => Err(e)
    case Ok(l) => if ColunasRelatorio(l) then Ok(l) else Err(KeyError("coluna do relatorio"))
  }

  /** `processar_consolidacao_final` on the loaded sources, without the
      export: `ValueError` when no source loaded, `KeyError` when the
      schema lacks a column the cleaning or the report reads, otherwise the
      cleaned consolidated frame, in the reference schema. */
  function ProcessarConsolidacao(cfg: Config, completo: Option<Table>, apresentacao: Option<Table>, hibrido: Option<Table>,
                                 repr: Value -> string, nfkd: string -> string): (r: Result<Table>)
    requires NoDup(cfg.schema) && (completo.Some? ==> WellFormed(completo.value))
    requires Aplicavel(cfg, apresentacao, cfg.mapApresentacao) && Aplicavel(cfg, hibrido, cfg.mapHibrido)
    ensures r.Err? && r.error.ValueError? <==> completo.None? && apresentacao.None? && hibrido.None?
    ensures r.Ok? ==> r.value.cols == cfg.schema
    ensures r.Ok? ==> DistinctKeys(r.value.rows, ColKey(Chave))
    ensures r.Ok? ==> forall i :: 0 <= i < |r.value.rows| ==> Valida(r.value.rows[i])
  {
    var ps := Partes(cfg, completo, apresentacao, hibrido);
    if |ps| == 0 then Err(ValueError("Nenhum DataFrame foi carregado com sucesso"))
    else ConsolidarELimpar(ps, cfg.schema, repr, nfkd)
  }

  /** The aligned sources as written: the summaries of the consolidation
      and of the cleaning divide by the number of consolidated rows, so
      sources that are all empty end in failure. (The report's divisions
      are of numpy counts, which give `nan` instead of raising.) */
  function ConsolidarELimparComoEscrito(ps: seq<Table>, schema: seq<string>, repr: Value -> string, nfkd: string -> string): (r: Option<Table>)
    requires BemFormadas(ps) && |ps| > 0
    requires forall k :: 0 <= k < |ps| ==> ps[k].cols == schema
    ensures r.Some? <==> ConsolidarELimpar(ps, schema, repr, nfkd).Ok? && Linhas(ps) > 0
    ensures r.Some? ==> r.value == ConsolidarELimpar(ps, schema, repr, nfkd).value
  {
    match ConsolidarComoEscrito(ps, repr, nfkd)
    case Err(_) => None
    case Ok(c) =>
      match LimparComoEscrito(c)
      case Err(_) => None
      case Ok(l) => if ColunasRelatorio(l) then Some(l) else None
  }

  /** `processar_consolidacao_final` as written: every exception, including
      the divisions by zero of the summaries, ends in the failure value
      `None`, so a run whose loaded sources are all empty exports nothing
      although the corrected stage yields an empty frame. */
  function ProcessarComoEscrito(cfg: Config, completo: Option<Table>, apresentacao: Option<Table>, hibrido: Option<Table>,
                                repr: Value -> string, nfkd: string -> string): (r: Option<Table>)
    requires NoDup(cfg.schema) && (completo.Some? ==> WellFormed(completo.value))
    requires Aplicavel(cfg, apresentacao, cfg.mapApresentacao) && Aplicavel(cfg, hibrido, cfg.mapHibrido)
    ensures r.Some? <==> ProcessarConsolidacao(cfg, completo, apresentacao, hibrido, repr, nfkd).Ok?
                         && Linhas(Partes(cfg, completo, apresentacao, hibrido)) > 0
    ensures r.Some? ==> r.value == ProcessarConsolidacao(cfg, completo, apresentacao, hibrido, repr, nfkd).value
  {
    var ps := Partes(cfg, completo, apresentacao, hibrido);
    if |ps| == 0 then None else ConsolidarELimparComoEscrito(ps, cfg.schema, repr, nfkd)
  }

  /** The smallest run that shows the difference: one loaded source, empty,
      in a schema with the columns the cleaning and the report read. As
      written it fails; the corrected stage yields an empty frame. */
  lemma ProcessarVazioFalha()
    ensures ProcessarComoEscrito(Config(EsquemaMinimo, map[], map[]), Some(Table(EsquemaMinimo, [])), None, None, _ => "", s => s).None?
    ensures ProcessarConsolidacao(Config(EsquemaMinimo, map[], map[]), Some(Table(EsquemaMinimo, [])), None, None, _ => "", s => s)
         == Ok(Table(EsquemaMinimo, []))
  {
    var t := Table(EsquemaMinimo, []);
    VazioPartes();
    VazioConsolidado(t, _ => "", s => s);
  }

  /** A schema with exactly the columns the cleaning and the report read. */
  const EsquemaMinimo: seq<string> := [Municipio, Principio, Chave, "PRODUTO", "LABORATORIO", "APRESENTACAO", "valor_produtos"]

  lemma VazioPartes()
    ensures NoDup(EsquemaMinimo)
    ensures Partes(Config(EsquemaMinimo, map[], map[]), Some(Table(EsquemaMinimo, [])), None, None) == [Table(EsquemaMinimo, [])]
  {
    assert NoDup(EsquemaMinimo);
    FormatarConforme(Table(EsquemaMinimo, []));
  }

  lemma VazioConsolidado(t: Table, repr: Value -> string, nfkd: string -> string)
    requires t == Table(EsquemaMinimo, [])
    ensures NoDup(t.cols)
    ensures ConsolidarELimpar([t], t.cols, repr, nfkd) == Ok(t)
    ensures ConsolidarELimparComoEscrito([t], t.cols, repr, nfkd).None?
  {
    assert NoDup(EsquemaMinimo);
    VazioConsolidar(t, repr, nfkd);
    VazioLimpar(t);
    assert ColunasRelatorio(t);
  }

  /** Consolidating one frame without rows gives that frame, and as written
      fails on the summary. */
  lemma VazioConsolidar(t: Table, repr: Value -> string, nfkd: string -> string)
    requires WellFormed(t) && |t.rows| == 0
    ensures Consolidar([t], repr, nfkd) == Ok(t)
    ensures ConsolidarComoEscrito([t], repr, nfkd).Err?
  {
    assert [t][..0] == [];
    UnionColsVazio(t.cols);
    assert ConcatTodos([t]) == t;
  }

  /** Cleaning a frame without rows gives that frame. */
  lemma VazioLimpar(t: Table)
    requires WellFormed(t) && |t.rows| == 0 && ColunasLimpeza(t)
    ensures LimparEValidar(t) == Ok(t)
  {
    assert Validas(t.rows) == [];
  }
}
