/** The high-confidence join of `src/nfe_matching_apresentacao_unica.py`:
    the master base (ANVISA plus the manual base) is searched for products
    sold in a single presentation; invoice items naming such a product are
    joined straight to its master row, the rest go on to the later matching
    stages. */
module ApresentacaoUnica {
  import opened Wrappers
  import opened Text
  import opened Seqs
  import opened Frame
  import opened UtilsLimpeza
  import opened ApresentacaoUnicaColunas

  const Produto := "PRODUTO"
  const NomeLimpo := "NOME_PRODUTO_LIMPO"
  const ChaveCodigo := "chave_codigo"

  // ---------------------------------------------------------------------------
  // Renaming columns
  // ---------------------------------------------------------------------------

  /** `f` sends distinct columns to distinct names. */
  predicate Injetiva(cols: seq<string>, f: string -> string) {
    forall i, j :: 0 <= i < |cols| && 0 <= j < |cols| && i != j ==> f(cols[i]) != f(cols[j])
  }

  /** One row renamed: the cell of `cols[k]` moves to `f(cols[k])`. */
  function RenomearLinha(row: Row, cols: seq<string>, f: string -> string): (r: Row)
    requires Injetiva(cols, f) && forall k :: 0 <= k < |cols| ==> cols[k] in row
    ensures forall c :: c in r <==> exists k :: 0 <= k < |cols| && f(cols[k]) == c
    ensures forall k :: 0 <= k < |cols| ==> f(cols[k]) in r && r[f(cols[k])] == row[cols[k]]
  {
    map k | 0 <= k < |cols| :: f(cols[k]) := row[cols[k]]
  }

  /** `df.rename(columns=f)` for a renaming that keeps the names distinct:
      column `k` is renamed in place and keeps its cells. */
  function Renomear(t: Table, f: string -> string): (r: Table)
    requires WellFormed(t) && Injetiva(t.cols, f)
    ensures WellFormed(r) && |r.rows| == |t.rows| && |r.cols| == |t.cols|
    ensures forall k :: 0 <= k < |t.cols| ==> r.cols[k] == f(t.cols[k])
    ensures forall i, k :: 0 <= i < |t.rows| && 0 <= k < |t.cols| ==>
              f(t.cols[k]) in r.rows[i] && r.rows[i][f(t.cols[k])] == t.rows[i][t.cols[k]]
  {
    var cols := seq(|t.cols|, k requires 0 <= k < |t.cols| => f(t.cols[k]));
    var rows := seq(|t.rows|, i requires 0 <= i < |t.rows| => RenomearLinha(t.rows[i], t.cols, f));
    assert NoDup(cols);
    assert forall i :: 0 <= i < |rows| ==> rows[i].Keys == ColSet(cols) by {
      forall i | 0 <= i < |rows| ensures rows[i].Keys == ColSet(cols) {
        forall c | c in ColSet(cols) ensures c in rows[i] {
          var k :| 0 <= k < |cols| && cols[k] == c;
        }
        forall c | c in rows[i] ensures c in ColSet(cols) {
          var k :| 0 <= k < |t.cols| && f(t.cols[k]) == c;
          assert cols[k] == c;
        }
      }
    }
    Table(cols, rows)
  }

  /** The renamed frame has exactly the renamed columns. */
  lemma RenomearCols(t: Table, f: string -> string, c: string)
    requires WellFormed(t) && Injetiva(t.cols, f)
    ensures c in t.cols ==> f(c) in Renomear(t, f).cols
    ensures f(c) in Renomear(t, f).cols && (forall a, b :: f(a) == f(b) ==> a == b) ==> c in t.cols
  {
    var r := Renomear(t, f);
    if c in t.cols {
      var k :| 0 <= k < |t.cols| && t.cols[k] == c;
      assert r.cols[k] == f(c);
    }
    if f(c) in r.cols {
      var k :| 0 <= k < |r.cols| && r.cols[k] == f(c);
      assert f(t.cols[k]) == f(c);
    }
  }

  function Sufixar(c: string): string { c + Sufixo }

  lemma SufixarInjetiva(a: string, b: string)
    ensures Sufixar(a) == Sufixar(b) ==> a == b
  {
    if Sufixar(a) == Sufixar(b) {
      assert a == Sufixar(a)[..|a|];
      assert b == Sufixar(b)[..|b|];
    }
  }

  /** `normalizar_colunas`: accents removed (`semAcento`, the NFKD-and-ASCII
      step), upper-cased, trimmed. */
  function NomeNormalizado(semAcento: string -> string): string -> string {
    (c: string) => Strip(Upper(semAcento(c)))
  }

  // ---------------------------------------------------------------------------
  // criar_base_mestre_completa
  // ---------------------------------------------------------------------------

  function Linhas(t: Option<Table>): nat {
    if t.None? then 0 else |t.value.rows|
  }

  /** `criar_base_mestre_completa`: the ANVISA rows followed by the manual
      rows (whose column names are normalised), nothing removed; with no
      base at all it raises `ValueError`. */
  function CriarBaseMestreCompleta(anvisa: Option<Table>, manual: Option<Table>, semAcento: string -> string): (r: Result<Table>)
    requires anvisa.Some? ==> WellFormed(anvisa.value)
    requires manual.Some? ==> WellFormed(manual.value) && Injetiva(manual.value.cols, NomeNormalizado(semAcento))
    ensures r.Err? <==> anvisa.None? && manual.None?
    ensures r.Ok? ==> WellFormed(r.value) && |r.value.rows| == Linhas(anvisa) + Linhas(manual)
    ensures r.Ok? && anvisa.Some? ==> forall c :: c in anvisa.value.cols ==> c in r.value.cols
    ensures r.Ok? && anvisa.Some? ==> forall i, c :: 0 <= i < |anvisa.value.rows| && c in anvisa.value.cols ==>
              r.value.rows[i][c] == anvisa.value.rows[i][c]
    ensures r.Ok? && manual.Some? ==> forall c :: c in manual.value.cols ==> NomeNormalizado(semAcento)(c) in r.value.cols
  {
    if anvisa.None? && manual.None? then Err(ValueError("Nenhuma base mestre disponivel!"))
    else if manual.None? then Ok(anvisa.value)
    else
      var b := Renomear(manual.value, NomeNormalizado(semAcento));
      NormalizadaCols(manual.value, semAcento);
      if anvisa.None? then Ok(b) else Ok(Concat(anvisa.value, b))
  }

  lemma NormalizadaCols(t: Table, semAcento: string -> string)
    requires WellFormed(t) && Injetiva(t.cols, NomeNormalizado(semAcento))
    ensures forall c :: c in t.cols ==> NomeNormalizado(semAcento)(c) in Renomear(t, NomeNormalizado(semAcento)).cols
  {
    forall c | c in t.cols ensures NomeNormalizado(semAcento)(c) in Renomear(t, NomeNormalizado(semAcento)).cols {
      RenomearCols(t, NomeNormalizado(semAcento), c);
    }
  }

  // ---------------------------------------------------------------------------
  // identificar_produtos_apresentacao_unica
  // ---------------------------------------------------------------------------

  /** The presentation column: `APRESENTACAO`, else `APRESENTACAO_ORIGINAL`. */
  function ColunaApresentacao(cols: seq<string>): (r: Option<string>)
    ensures r.None? <==> "APRESENTACAO" !in cols && "APRESENTACAO_ORIGINAL" !in cols
    ensures r.Some? ==> r.value in cols
    ensures "APRESENTACAO" in cols ==> r == Some("APRESENTACAO")
    ensures "APRESENTACAO" !in cols && "APRESENTACAO_ORIGINAL" in cols ==> r == Some("APRESENTACAO_ORIGINAL")
  {
    if "APRESENTACAO" in cols then Some("APRESENTACAO")
    else if "APRESENTACAO_ORIGINAL" in cols then Some("APRESENTACAO_ORIGINAL")
    else None
  }

  predicate DoProduto(t: Table, i: int, p: Value)
    requires 0 <= i < |t.rows|
  {
    Get(t.rows[i], Produto) == p
  }

  /** The presentations of product `p` (`nunique` skips missing values). */
  function Apresentacoes(t: Table, p: Value, c: string): set<Value> {
    set i | 0 <= i < |t.rows| && DoProduto(t, i, p) && Get(t.rows[i], c) != Null :: Get(t.rows[i], c)
  }

  function LinhasDe(t: Table, p: Value): set<int> {
    set i | 0 <= i < |t.rows| && DoProduto(t, i, p)
  }

  /** `qtd_apresentacoes == 1`: one distinct presentation or, without a
      presentation column, one row. */
  predicate Qualifica(t: Table, p: Value, col: Option<string>) {
    if col.Some? then |Apresentacoes(t, p, col.value)| == 1 else |LinhasDe(t, p)| == 1
  }

  /** The key of `drop_duplicates` on the join base. */
  function ChaveMaster(col: Option<string>): Row -> (Value, Value) {
    (m: Row) => (Get(m, Produto), if col.Some? then Get(m, col.value) else Null)
  }

  function NaLista(produtos: set<Value>): Row -> bool {
    (m: Row) => Get(m, Produto) in produtos
  }

  datatype Identificacao = Identificacao(produtos: set<Value>, master: Table)

  /** The products with exactly one presentation (grouping drops a missing
      product). */
  function Selecionados(t: Table, col: Option<string>): (ps: set<Value>)
    ensures forall p :: p in ps <==>
              p != Null && Qualifica(t, p, col) && exists i :: 0 <= i < |t.rows| && DoProduto(t, i, p)
  {
    set i | 0 <= i < |t.rows| && Get(t.rows[i], Produto) != Null && Qualifica(t, Get(t.rows[i], Produto), col)
          :: Get(t.rows[i], Produto)
  }

  /** The master rows of the selected products, first row per (product,
      presentation). */
  function MasterParaJoin(t: Table, col: Option<string>, produtos: set<Value>): (m: Table)
    requires WellFormed(t)
    ensures WellFormed(m) && m.cols == t.cols
    ensures forall j :: 0 <= j < |m.rows| ==> m.rows[j] in t.rows && Get(m.rows[j], Produto) in produtos
    ensures DistinctKeys(m.rows, ChaveMaster(col))
    ensures forall i :: 0 <= i < |t.rows| && Get(t.rows[i], Produto) in produtos ==>
              ChaveMaster(col)(t.rows[i]) in KeysOf(m.rows, ChaveMaster(col))
  {
    var f := FilterRows(t, NaLista(produtos));
    var key := ChaveMaster(col);
    DedupKeys(f.rows, key);
    DedupSub(f.rows, key);
    DedupCobre(t.rows, f.rows, key, NaLista(produtos));
    Table(t.cols, DedupBy(f.rows, key))
  }

  /** `identificar_produtos_apresentacao_unica`: the selected products and
      the join base built from them; a base without `PRODUTO` is pandas'
      `KeyError`. */
  function IdentificarProdutos(t: Table): (r: Result<Identificacao>)
    requires WellFormed(t)
    ensures r.Err? <==> Produto !in t.cols
    ensures r.Ok? ==> r.value.produtos == Selecionados(t, ColunaApresentacao(t.cols))
    ensures r.Ok? ==> r.value.master == MasterParaJoin(t, ColunaApresentacao(t.cols), r.value.produtos)
  {
    if Produto !in t.cols then Err(KeyError(Produto))
    else
      var col := ColunaApresentacao(t.cols);
      var produtos := Selecionados(t, col);
      Ok(Identificacao(produtos, MasterParaJoin(t, col, produtos)))
  }

  /** `s` has exactly the one element `x`. */
  lemma UmElemento<T>(s: set<T>, x: T)
    requires x in s
    ensures |s| == 1 <==> forall y :: y in s ==> y == x
  {
    if forall y :: y in s ==> y == x {
      assert s == {x};
    } else {
      var y :| y in s && y != x;
      assert {x, y} <= s;
      assert |s - {x, y}| == |s| - 2;
    }
  }

  /** With a presentation column, a product qualifies iff some row of it has
      a presentation and every row of it has that one or none. */
  lemma QualificaComColuna(t: Table, p: Value, c: string)
    ensures Qualifica(t, p, Some(c)) <==>
      exists i :: 0 <= i < |t.rows| && DoProduto(t, i, p) && Get(t.rows[i], c) != Null && Unica(t, p, c, i)
  {
    var s := Apresentacoes(t, p, c);
    if |s| == 1 {
      var x :| x in s;
      UmElemento(s, x);
      var i :| 0 <= i < |t.rows| && DoProduto(t, i, p) && Get(t.rows[i], c) != Null && Get(t.rows[i], c) == x;
      forall j | 0 <= j < |t.rows| && DoProduto(t, j, p) && Get(t.rows[j], c) != Null ensures Get(t.rows[j], c) == x {
        assert Get(t.rows[j], c) in s;
      }
      assert Unica(t, p, c, i);
    }
    if exists i :: 0 <= i < |t.rows| && DoProduto(t, i, p) && Get(t.rows[i], c) != Null && Unica(t, p, c, i) {
      var i :| 0 <= i < |t.rows| && DoProduto(t, i, p) && Get(t.rows[i], c) != Null && Unica(t, p, c, i);
      var x := Get(t.rows[i], c);
      assert x in s;
      forall y | y in s ensures y == x {
        var j :| 0 <= j < |t.rows| && DoProduto(t, j, p) && Get(t.rows[j], c) != Null && Get(t.rows[j], c) == y;
      }
      UmElemento(s, x);
    }
  }

  /** Every row of product `p` has the presentation of row `i` or none. */
  predicate Unica(t: Table, p: Value, c: string, i: int)
    requires 0 <= i < |t.rows|
  {
    forall j :: 0 <= j < |t.rows| && DoProduto(t, j, p) && Get(t.rows[j], c) != Null ==> Get(t.rows[j], c) == Get(t.rows[i], c)
  }

  /** Without a presentation column, a product qualifies iff exactly one row
      names it. */
  lemma QualificaSemColuna(t: Table, p: Value)
    ensures Qualifica(t, p, None) <==>
      exists i :: 0 <= i < |t.rows| && DoProduto(t, i, p) && forall j :: 0 <= j < |t.rows| && DoProduto(t, j, p) ==> j == i
  {
    var s := LinhasDe(t, p);
    if |s| == 1 {
      var x :| x in s;
      UmElemento(s, x);
      forall j | 0 <= j < |t.rows| && DoProduto(t, j, p) ensures j == x {
        assert j in s;
      }
    }
    if exists i :: 0 <= i < |t.rows| && DoProduto(t, i, p) && forall j :: 0 <= j < |t.rows| && DoProduto(t, j, p) ==> j == i {
      var i :| 0 <= i < |t.rows| && DoProduto(t, i, p) && forall j :: 0 <= j < |t.rows| && DoProduto(t, j, p) ==> j == i;
      assert i in s;
      UmElemento(s, i);
    }
  }

  /** Without a presentation column the join base holds exactly one row per
      selected product. */
  lemma UmaLinhaPorProduto(t: Table)
    requires WellFormed(t) && Produto in t.cols && ColunaApresentacao(t.cols).None?
    ensures DistinctKeys(IdentificarProdutos(t).value.master.rows, ColKey(Produto))
  {
    var m := IdentificarProdutos(t).value.master.rows;
    var key := ChaveMaster(None);
    forall i, j | 0 <= i < j < |m| ensures ColKey(Produto)(m[i]) != ColKey(Produto)(m[j]) {
      assert key(m[i]) != key(m[j]);
    }
  }

  // ---------------------------------------------------------------------------
  // particionar_trabalhando
  // ---------------------------------------------------------------------------

  function Candidato(produtos: set<Value>): Row -> bool {
    (m: Row) => Get(m, NomeLimpo) in produtos
  }

  datatype Particao = Particao(candidatos: Table, naoCandidatos: Table)

  /** `particionar_trabalhando`: the items whose cleaned product name is a
      selected product, and the others; together they are the input. */
  function ParticionarTrabalhando(t: Table, produtos: set<Value>): (r: Result<Particao>)
    requires WellFormed(t)
    ensures r.Err? <==> NomeLimpo !in t.cols
    ensures r.Ok? ==> WellFormed(r.value.candidatos) && WellFormed(r.value.naoCandidatos)
    ensures r.Ok? ==> r.value.candidatos.cols == t.cols && r.value.naoCandidatos.cols == t.cols
    ensures r.Ok? ==> multiset(r.value.candidatos.rows) + multiset(r.value.naoCandidatos.rows) == multiset(t.rows)
    ensures r.Ok? ==> forall i :: 0 <= i < |r.value.candidatos.rows| ==> Get(r.value.candidatos.rows[i], NomeLimpo) in produtos
    ensures r.Ok? ==> forall i :: 0 <= i < |r.value.naoCandidatos.rows| ==> Get(r.value.naoCandidatos.rows[i], NomeLimpo) !in produtos
  {
    if NomeLimpo !in t.cols then Err(KeyError(NomeLimpo))
    else
      var mask := Candidato(produtos);
      FilterSplit(t.rows, mask);
      var cand := FilterRows(t, mask);
      var nao := FilterRows(t, Neg(mask));
      assert forall i :: 0 <= i < |nao.rows| ==> !mask(nao.rows[i]);
      Ok(Particao(cand, nao))
  }

  // ---------------------------------------------------------------------------
  // executar_join_apresentacao_unica
  // ---------------------------------------------------------------------------

  /** The columns the second clean-up drops (`'.1' in c or '.2' in c`). */
  predicate DuplicataUmDois(c: string) { Contains(c, ".1") || Contains(c, ".2") }

  predicate EhMaster(c: string) { EndsWith(c, Sufixo) }

  function Inteira(m: Row): Row { m }

  /** The master with every column renamed to `*_MASTER`
      (`preparar_master_para_join`). */
  function Direita(master: Table): (r: Table)
    requires WellFormed(master)
    ensures WellFormed(r)
  {
    assert Injetiva(master.cols, Sufixar) by {
      forall i, j | 0 <= i < |master.cols| && 0 <= j < |master.cols| && i != j
        ensures Sufixar(master.cols[i]) != Sufixar(master.cols[j])
      {
        SufixarInjetiva(master.cols[i], master.cols[j]);
      }
    }
    Renomear(master, Sufixar)
  }

  /** The renamed master columns the items lack. */
  function Novas(cand: Table, master: Table): (r: seq<string>)
    requires WellFormed(master)
    ensures NoDup(r)
    ensures forall c :: c in r ==> c !in cand.cols
  {
    FilterNoDup(Direita(master).cols, Not(EmCols(cand.cols)));
    Filter(Direita(master).cols, Not(EmCols(cand.cols)))
  }

  /** The left merge of the items with the renamed master on
      `NOME_PRODUTO_LIMPO` against `PRODUTO_MASTER`; a master column the
      items already have goes to `_DROP`, so only the new ones arrive. */
  function Bruto(cand: Table, master: Table): (r: Table)
    requires WellFormed(cand) && WellFormed(master)
    ensures WellFormed(r)
  {
    var extra := Novas(cand, master);
    MergeRowsFit(cand, Direita(master).rows, NomeLimpo, Sufixar(Produto), extra, LeftJoin);
    Table(UnionCols(cand.cols, extra), MergeRows(cand.rows, Direita(master).rows, NomeLimpo, Sufixar(Produto), extra, LeftJoin))
  }

  /** The merge with the `_DROP` and `.1`/`.2` columns removed. */
  function Mesclado(cand: Table, master: Table): (r: Table)
    requires WellFormed(cand) && WellFormed(master)
    ensures WellFormed(r) && |r.rows| == |Bruto(cand, master).rows|
    ensures forall c :: c in r.cols <==> c in Bruto(cand, master).cols && !DropSuffix(c) && !DuplicataUmDois(c)
    ensures forall i, c :: 0 <= i < |r.rows| && c in r.cols ==> r.rows[i][c] == Bruto(cand, master).rows[i][c]
  {
    DropCols(DropCols(Bruto(cand, master), DropSuffix), DuplicataUmDois)
  }

  /** The `*_MASTER` columns folded into the reference columns, or simply
      dropped when no reference is given. */
  function Integrado(m: Table, ref: Option<seq<string>>): (r: Table)
    requires WellFormed(m)
    ensures WellFormed(r) && |r.rows| == |m.rows|
  {
    if ref.Some? then IntegrarColunasMaster(m, ref.value) else DropCols(m, EhMaster)
  }

  /** The final `drop_duplicates`: on `chave_codigo` when the frame has it,
      on the whole row otherwise; the first row of each key is kept. */
  function SemDuplicatas(t: Table): (r: Table)
    requires WellFormed(t)
    ensures WellFormed(r) && r.cols == t.cols
    ensures forall i :: 0 <= i < |r.rows| ==> r.rows[i] in t.rows
    ensures ChaveCodigo in t.cols ==> DistinctKeys(r.rows, ColKey(ChaveCodigo))
    ensures ChaveCodigo in t.cols ==> KeysOf(r.rows, ColKey(ChaveCodigo)) == KeysOf(t.rows, ColKey(ChaveCodigo))
    ensures ChaveCodigo in t.cols ==> forall i :: 0 <= i < |r.rows| ==>
              exists j :: 0 <= j < |t.rows| && t.rows[j] == r.rows[i] && FirstOfKey(t.rows, ColKey(ChaveCodigo), j)
    ensures ChaveCodigo !in t.cols ==> NoDup(r.rows) && forall i :: 0 <= i < |t.rows| ==> t.rows[i] in r.rows
  {
    DedupSub(t.rows, ColKey(ChaveCodigo));
    DedupSub(t.rows, Inteira);
    DedupKeys(t.rows, ColKey(ChaveCodigo));
    DedupLinhas(t.rows);
    if ChaveCodigo in t.cols then Table(t.cols, DedupBy(t.rows, ColKey(ChaveCodigo)))
    else Table(t.cols, DedupBy(t.rows, Inteira))
  }

  /** Deduplicating on the whole row leaves each distinct row once. */
  lemma DedupLinhas(rows: seq<Row>)
    ensures NoDup(DedupBy(rows, Inteira))
    ensures forall i :: 0 <= i < |rows| ==> rows[i] in DedupBy(rows, Inteira)
  {
    DedupKeys(rows, Inteira);
    var d := DedupBy(rows, Inteira);
    assert forall i, j :: 0 <= i < j < |d| ==> Inteira(d[i]) != Inteira(d[j]);
    forall i | 0 <= i < |rows| ensures rows[i] in d {
      assert Inteira(rows[i]) in KeysOf(rows, Inteira);
    }
  }

  /** The joined frame before the final deduplication. */
  function Unido(cand: Table, master: Table, ref: Option<seq<string>>): (r: Table)
    requires WellFormed(cand) && WellFormed(master)
    ensures WellFormed(r)
  {
    Integrado(Mesclado(cand, master), ref)
  }

  /** `executar_join_apresentacao_unica`: no candidates give an empty frame;
      a missing key column is pandas' `KeyError`; otherwise the joined frame
      without duplicates. */
  function ExecutarJoin(cand: Table, master: Table, ref: Option<seq<string>>): (r: Result<Table>)
    requires WellFormed(cand) && WellFormed(master)
    ensures Vazio(cand) ==> r == Ok(Table([], []))
    ensures r.Err? <==> !Vazio(cand) && (NomeLimpo !in cand.cols || Produto !in master.cols)
    ensures r.Ok? ==> WellFormed(r.value)
    ensures r.Ok? && !Vazio(cand) ==> r.value == SemDuplicatas(Unido(cand, master, ref))
  {
    if Vazio(cand) then Ok(Table([], []))
    else if NomeLimpo !in cand.cols || Produto !in master.cols then
      Err(KeyError(if NomeLimpo !in cand.cols then NomeLimpo else Sufixar(Produto)))
    else Ok(SemDuplicatas(Unido(cand, master, ref)))
  }

  // Facts about the join

  /** `chave_codigo` is none of the columns the join drops. */
  lemma ChaveCodigoSimples()
    ensures !DropSuffix(ChaveCodigo) && !DuplicataUmDois(ChaveCodigo) && !EhMaster(ChaveCodigo)
  {
    assert forall i :: 0 <= i < |ChaveCodigo| ==> ChaveCodigo[i] != '.';
    assert !Contains(ChaveCodigo, ".1") by {
      forall i | 0 <= i <= |ChaveCodigo| - 2 ensures !OccursAt(ChaveCodigo, ".1", i) {
        assert ChaveCodigo[i] != ".1"[0];
      }
    }
    assert !Contains(ChaveCodigo, ".2") by {
      forall i | 0 <= i <= |ChaveCodigo| - 2 ensures !OccursAt(ChaveCodigo, ".2", i) {
        assert ChaveCodigo[i] != ".2"[0];
      }
    }
    assert ChaveCodigo[|ChaveCodigo| - 1] == 'o';
  }

  /** A column of the items that the clean-ups keep has, over the merged
      frame, exactly the values it had over the items. */
  lemma MescladoChaves(cand: Table, master: Table, c: string)
    requires WellFormed(cand) && WellFormed(master)
    requires c in cand.cols && !DropSuffix(c) && !DuplicataUmDois(c)
    ensures c in Mesclado(cand, master).cols
    ensures KeysOf(Mesclado(cand, master).rows, ColKey(c)) == KeysOf(cand.rows, ColKey(c))
  {
    var b := Bruto(cand, master);
    var m := Mesclado(cand, master);
    LeftMergeKeys(cand.rows, Direita(master).rows, NomeLimpo, Sufixar(Produto), Novas(cand, master), c);
    forall i | 0 <= i < |m.rows| ensures ColKey(c)(m.rows[i]) == ColKey(c)(b.rows[i]) {
    }
    KeysOfPointwise(m.rows, ColKey(c), b.rows, ColKey(c));
  }

  /** The same for the integration step, for a column that is neither a
      master column nor a reference column. */
  lemma IntegradoChaves(m: Table, ref: Option<seq<string>>, c: string)
    requires WellFormed(m) && c in m.cols && !EhMaster(c) && (ref.Some? ==> c !in ref.value)
    ensures c in Integrado(m, ref).cols
    ensures forall i :: 0 <= i < |m.rows| ==> Get(Integrado(m, ref).rows[i], c) == Get(m.rows[i], c)
    ensures KeysOf(Integrado(m, ref).rows, ColKey(c)) == KeysOf(m.rows, ColKey(c))
  {
    var u := Integrado(m, ref);
    if ref.Some? {
      IntegrarCols(m, ref.value, c);
      if !Vazio(m) {
        forall i | 0 <= i < |m.rows| ensures Get(u.rows[i], c) == Get(m.rows[i], c) {
          IntegrarPreserva(m, ref.value, i, c);
        }
      }
    }
    forall i | 0 <= i < |u.rows| ensures ColKey(c)(u.rows[i]) == ColKey(c)(m.rows[i]) {
    }
    KeysOfPointwise(u.rows, ColKey(c), m.rows, ColKey(c));
  }

  /** The join keeps exactly one row for every `chave_codigo` value the
      candidate items carry, and no other value (unless `chave_codigo` is
      itself a reference column to be filled from the master). */
  lemma JoinChaves(cand: Table, master: Table, ref: Option<seq<string>>)
    requires WellFormed(cand) && WellFormed(master) && ExecutarJoin(cand, master, ref).Ok? && !Vazio(cand)
    requires ChaveCodigo in cand.cols && (ref.Some? ==> ChaveCodigo !in ref.value)
    ensures ChaveCodigo in ExecutarJoin(cand, master, ref).value.cols
    ensures DistinctKeys(ExecutarJoin(cand, master, ref).value.rows, ColKey(ChaveCodigo))
    ensures KeysOf(ExecutarJoin(cand, master, ref).value.rows, ColKey(ChaveCodigo)) == KeysOf(cand.rows, ColKey(ChaveCodigo))
  {
    ChaveCodigoSimples();
    MescladoChaves(cand, master, ChaveCodigo);
    IntegradoChaves(Mesclado(cand, master), ref, ChaveCodigo);
  }

  /** A kept column that is not a reference column keeps its cells through
      the integration step. */
  lemma IntegradoPreserva(m: Table, ref: Option<seq<string>>, i: nat, c: string)
    requires WellFormed(m) && i < |m.rows| && c in Integrado(m, ref).cols && (ref.Some? ==> c !in ref.value)
    ensures c in m.cols && Integrado(m, ref).rows[i][c] == m.rows[i][c]
  {
    if ref.Some? && !Vazio(m) {
      IntegrarPreserva(m, ref.value, i, c);
    }
  }

  /** Renaming keeps the product column's values under `PRODUTO_MASTER`. */
  lemma DireitaProduto(master: Table)
    requires WellFormed(master) && Produto in master.cols
    ensures forall i :: 0 <= i < |master.rows| ==>
              ColKey(Sufixar(Produto))(Direita(master).rows[i]) == ColKey(Produto)(master.rows[i])
  {
    var k :| 0 <= k < |master.cols| && master.cols[k] == Produto;
    assert Direita(master).cols[k] == Sufixar(Produto);
  }

  /** Against a join base with one row per product, the merge keeps one row
      per candidate item, agreeing with it on every column it keeps. */
  lemma MescladoUmPorCandidato(cand: Table, master: Table)
    requires WellFormed(cand) && WellFormed(master) && Produto in master.cols
    requires DistinctKeys(master.rows, ColKey(Produto))
    ensures |Mesclado(cand, master).rows| == |cand.rows|
    ensures forall i, c :: 0 <= i < |cand.rows| && c in cand.cols && c in Mesclado(cand, master).cols ==>
              Mesclado(cand, master).rows[i][c] == cand.rows[i][c]
  {
    var right := Direita(master).rows;
    DireitaProduto(master);
    assert DistinctKeys(right, ColKey(Sufixar(Produto))) by {
      forall i, j | 0 <= i < j < |right| ensures ColKey(Sufixar(Produto))(right[i]) != ColKey(Sufixar(Produto))(right[j]) {
        assert ColKey(Produto)(master.rows[i]) != ColKey(Produto)(master.rows[j]);
      }
    }
    LeftMergeRowCount(cand.rows, right, NomeLimpo, Sufixar(Produto), Novas(cand, master));
  }

  /** The clean-ups keep every column of the items they do not target. */
  lemma MescladoMantem(cand: Table, master: Table, c: string)
    requires WellFormed(cand) && WellFormed(master)
    requires c in cand.cols && !DropSuffix(c) && !DuplicataUmDois(c)
    ensures c in Mesclado(cand, master).cols
  {
  }

  /** Before deduplication, against a base with one row per product: one
      row per candidate, with the candidate's `chave_codigo`. */
  lemma UnidoChave(cand: Table, master: Table, ref: Option<seq<string>>)
    requires WellFormed(cand) && WellFormed(master) && Produto in master.cols
    requires DistinctKeys(master.rows, ColKey(Produto))
    requires ChaveCodigo in cand.cols && (ref.Some? ==> ChaveCodigo !in ref.value)
    ensures |Unido(cand, master, ref).rows| == |cand.rows| && ChaveCodigo in Unido(cand, master, ref).cols
    ensures forall i :: 0 <= i < |cand.rows| ==>
              Get(Unido(cand, master, ref).rows[i], ChaveCodigo) == Get(cand.rows[i], ChaveCodigo)
  {
    var m := Mesclado(cand, master);
    ChaveCodigoSimples();
    MescladoMantem(cand, master, ChaveCodigo);
    MescladoUmPorCandidato(cand, master);
    IntegradoChaves(m, ref, ChaveCodigo);
  }

  /** Before deduplication, the kept non-reference cells are the
      candidate's. */
  lemma UnidoCelulas(cand: Table, master: Table, ref: Option<seq<string>>)
    requires WellFormed(cand) && WellFormed(master) && Produto in master.cols
    requires DistinctKeys(master.rows, ColKey(Produto))
    ensures UmPorCandidato(cand, Unido(cand, master, ref), ref)
  {
    MescladoUmPorCandidato(cand, master);
    IntegradoCelulas(cand, Mesclado(cand, master), ref);
  }

  /** Folding the master columns keeps every non-reference cell a merged
      frame already shares with the items. */
  lemma IntegradoCelulas(cand: Table, m: Table, ref: Option<seq<string>>)
    requires WellFormed(cand) && WellFormed(m) && |m.rows| == |cand.rows|
    requires forall i, c :: 0 <= i < |cand.rows| && c in cand.cols && c in m.cols ==> m.rows[i][c] == cand.rows[i][c]
    ensures UmPorCandidato(cand, Integrado(m, ref), ref)
  {
    var u := Integrado(m, ref);
    forall i, c | 0 <= i < |cand.rows| && c in cand.cols && c in u.cols && (ref.Some? ==> c !in ref.value)
      ensures u.rows[i][c] == cand.rows[i][c]
    {
      IntegradoPreserva(m, ref, i, c);
    }
    CelulasLidas(cand, u, ref);
  }

  /** A frame whose `chave_codigo` values are already distinct is its own
      deduplication. */
  lemma SemDuplicatasDistintas(t: Table)
    requires WellFormed(t) && ChaveCodigo in t.cols && DistinctKeys(t.rows, ColKey(ChaveCodigo))
    ensures SemDuplicatas(t) == t
  {
    DedupDistinct(t.rows, ColKey(ChaveCodigo));
  }

  /** `r` has one row per candidate item, in order, each agreeing with its
      item on every kept column other than the reference columns. */
  predicate UmPorCandidato(cand: Table, r: Table, ref: Option<seq<string>>) {
    |r.rows| == |cand.rows| &&
    forall i, c :: (0 <= i < |cand.rows| && c in cand.cols && c in r.cols && (ref.Some? ==> c !in ref.value)) ==>
      Get(r.rows[i], c) == Get(cand.rows[i], c)
  }

  /** Candidate items with distinct `chave_codigo` values, joined against a
      base with one row per product, come out one row per item, in order,
      each agreeing with its item on every column it keeps other than the
      reference columns. */
  lemma JoinUmPorCandidato(cand: Table, master: Table, ref: Option<seq<string>>)
    requires WellFormed(cand) && WellFormed(master) && !Vazio(cand)
    requires NomeLimpo in cand.cols && Produto in master.cols
    requires DistinctKeys(master.rows, ColKey(Produto))
    requires ChaveCodigo in cand.cols && DistinctKeys(cand.rows, ColKey(ChaveCodigo))
    requires ref.Some? ==> ChaveCodigo !in ref.value
    ensures ExecutarJoin(cand, master, ref).Ok?
    ensures UmPorCandidato(cand, ExecutarJoin(cand, master, ref).value, ref)
  {
    JoinSemPerdas(cand, master, ref);
    UnidoCelulas(cand, master, ref);
  }

  /** Equal stored cells read back equal through `Get`. */
  lemma CelulasLidas(cand: Table, u: Table, ref: Option<seq<string>>)
    requires WellFormed(cand) && WellFormed(u) && |u.rows| == |cand.rows|
    requires forall i, c :: (0 <= i < |cand.rows| && c in cand.cols && c in u.cols
               && (ref.Some? ==> c !in ref.value)) ==> u.rows[i][c] == cand.rows[i][c]
    ensures UmPorCandidato(cand, u, ref)
  {
    forall i, c | 0 <= i < |cand.rows| && c in cand.cols && c in u.cols && (ref.Some? ==> c !in ref.value)
      ensures Get(u.rows[i], c) == Get(cand.rows[i], c)
    {
      assert c in ColSet(cand.cols) && c in ColSet(u.cols);
    }
  }

  /** Under those conditions the deduplication removes nothing. */
  lemma JoinSemPerdas(cand: Table, master: Table, ref: Option<seq<string>>)
    requires WellFormed(cand) && WellFormed(master) && !Vazio(cand)
    requires NomeLimpo in cand.cols && Produto in master.cols
    requires DistinctKeys(master.rows, ColKey(Produto))
    requires ChaveCodigo in cand.cols && DistinctKeys(cand.rows, ColKey(ChaveCodigo))
    requires ref.Some? ==> ChaveCodigo !in ref.value
    ensures ExecutarJoin(cand, master, ref) == Ok(Unido(cand, master, ref))
  {
    UnidoDistinto(cand, master, ref);
    SemDuplicatasDistintas(Unido(cand, master, ref));
  }

  lemma UnidoDistinto(cand: Table, master: Table, ref: Option<seq<string>>)
    requires WellFormed(cand) && WellFormed(master) && Produto in master.cols
    requires DistinctKeys(master.rows, ColKey(Produto))
    requires ChaveCodigo in cand.cols && DistinctKeys(cand.rows, ColKey(ChaveCodigo))
    requires ref.Some? ==> ChaveCodigo !in ref.value
    ensures ChaveCodigo in Unido(cand, master, ref).cols
    ensures DistinctKeys(Unido(cand, master, ref).rows, ColKey(ChaveCodigo))
  {
    UnidoChave(cand, master, ref);
    DistinctGet(Unido(cand, master, ref).rows, cand.rows, ChaveCodigo);
  }
}
