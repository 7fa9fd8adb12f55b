/** Stage 12 of the invoice pipeline (`src/nfe_unificacao_matching.py`):
    the ANVISA base and the manual base are merged into one master set of
    product names; the item names outside that set go through six fixed
    rewriting rules and a dictionary of fuzzy corrections; items that are
    plainly not medicines are dropped; the items still outside the set
    form the no-match report. */
module UnificacaoMatching {
  import opened Wrappers
  import opened Text
  import opened Seqs
  import opened Frame
  import opened ApresentacaoUnica

  const PrincipioAtivo := "PRINCIPIO ATIVO"
  const Descricao := "descricao_produto"

  /** The two columns a base must have to enter the master. */
  const Requeridas: seq<string> := [Produto, PrincipioAtivo]

  // ---------------------------------------------------------------------------
  // normalizar_colunas
  // ---------------------------------------------------------------------------

  /** A column name as `normalizar_colunas` leaves it: upper case, with no
      white space at either end. */
  predicate NomeNormal(c: string) {
    IsUpperText(c) && (|c| == 0 || (!IsSpace(c[0]) && !IsSpace(c[|c| - 1])))
  }

  /** `normalizar_colunas`: every column is renamed to its name without
      accents (`semAcento`, the NFKD-and-ASCII step), upper-cased and
      stripped; the cells move with their column. */
  function NormalizarColunas(t: Table, semAcento: string -> string): (r: Table)
    requires WellFormed(t) && Injetiva(t.cols, NomeNormalizado(semAcento))
    ensures WellFormed(r) && |r.rows| == |t.rows| && |r.cols| == |t.cols|
    ensures forall k :: 0 <= k < |r.cols| ==> NomeNormal(r.cols[k])
    ensures forall k :: 0 <= k < |t.cols| ==> r.cols[k] == NomeNormalizado(semAcento)(t.cols[k])
    ensures forall i, k :: 0 <= i < |t.rows| && 0 <= k < |t.cols| ==>
              Get(r.rows[i], r.cols[k]) == t.rows[i][t.cols[k]]
  {
    var r := Renomear(t, NomeNormalizado(semAcento));
    assert forall k :: 0 <= k < |r.cols| ==> NomeNormal(r.cols[k]) by {
      forall k | 0 <= k < |r.cols| ensures NomeNormal(r.cols[k]) {
        StripUpperNormal(semAcento(t.cols[k]));
      }
    }
    r
  }

  /** Stripping upper-case text leaves it upper case. */
  lemma StripUpperNormal(s: string)
    ensures NomeNormal(Strip(Upper(s)))
  {
    var u := Upper(s);
    UpperIsUpper(s);
    var l := TrimLeftSp(u);
    TrimLeftSuffix(u);
    TrimRightPrefix(l);
    var r := TrimRightSp(l);
    assert Strip(u) == r;
    forall i | 0 <= i < |r| ensures UpperChar(r[i]) == r[i] {
      assert r[i] == l[i] == u[|u| - |l| + i];
    }
  }

  /** A normal name is its own normalisation when removing accents leaves
      it alone. */
  lemma NomeNormalFixo(c: string, semAcento: string -> string)
    requires NomeNormal(c) && semAcento(c) == c
    ensures NomeNormalizado(semAcento)(c) == c
  {
    assert Upper(c) == c;
    assert TrimLeftSp(c) == c;
    assert TrimRightSp(c) == c;
  }

  /** Normalising twice renames nothing more, as long as removing accents
      leaves the normalised names alone. */
  lemma NormalizarIdempotente(t: Table, semAcento: string -> string)
    requires WellFormed(t) && Injetiva(t.cols, NomeNormalizado(semAcento))
    requires forall c :: NomeNormal(c) ==> semAcento(c) == c
    ensures Injetiva(NormalizarColunas(t, semAcento).cols, NomeNormalizado(semAcento))
    ensures NormalizarColunas(NormalizarColunas(t, semAcento), semAcento) == NormalizarColunas(t, semAcento)
  {
    var n := NormalizarColunas(t, semAcento);
    NormaisFixos(n, semAcento);
    var m := NormalizarColunas(n, semAcento);
    forall i | 0 <= i < |n.rows| ensures m.rows[i] == n.rows[i] {
      NormalizarLinhaFixa(n, semAcento, i);
    }
  }

  /** Names already normal are fixed by the normalisation, so it is
      injective on them. */
  lemma NormaisFixos(n: Table, semAcento: string -> string)
    requires WellFormed(n) && forall k :: 0 <= k < |n.cols| ==> NomeNormal(n.cols[k])
    requires forall c :: NomeNormal(c) ==> semAcento(c) == c
    ensures forall k :: 0 <= k < |n.cols| ==> NomeNormalizado(semAcento)(n.cols[k]) == n.cols[k]
    ensures Injetiva(n.cols, NomeNormalizado(semAcento))
  {
    forall k | 0 <= k < |n.cols| ensures NomeNormalizado(semAcento)(n.cols[k]) == n.cols[k] {
      NomeNormalFixo(n.cols[k], semAcento);
    }
  }

  lemma NormalizarLinhaFixa(n: Table, semAcento: string -> string, i: nat)
    requires WellFormed(n) && i < |n.rows|
    requires forall k :: 0 <= k < |n.cols| ==> NomeNormalizado(semAcento)(n.cols[k]) == n.cols[k]
    requires Injetiva(n.cols, NomeNormalizado(semAcento))
    ensures NormalizarColunas(n, semAcento).rows[i] == n.rows[i]
  {
    var m := NormalizarColunas(n, semAcento);
    assert m.cols == n.cols;
    forall c | c in n.cols ensures Get(m.rows[i], c) == Get(n.rows[i], c) {
      var k :| 0 <= k < |n.cols| && n.cols[k] == c;
    }
    SameRow(m, n, i);
  }

  // ---------------------------------------------------------------------------
  // criar_base_master_unificada
  // ---------------------------------------------------------------------------

  /** What one base gives the master: its normalised `PRODUTO` and
      `PRINCIPIO ATIVO` columns, or nothing when it is missing or lacks one
      of them. */
  function Contribuicao(b: Option<Table>, semAcento: string -> string): (r: Option<Table>)
    requires b.Some? ==> WellFormed(b.value) && Injetiva(b.value.cols, NomeNormalizado(semAcento))
    ensures r.Some? <==> b.Some? && Produto in NormalizarColunas(b.value, semAcento).cols
                                 && PrincipioAtivo in NormalizarColunas(b.value, semAcento).cols
    ensures r.Some? ==> WellFormed(r.value) && r.value.cols == Requeridas && |r.value.rows| == |b.value.rows|
    ensures r.Some? ==> forall i, c :: 0 <= i < |b.value.rows| && c in Requeridas ==>
              Get(r.value.rows[i], c) == Get(NormalizarColunas(b.value, semAcento).rows[i], c)
  {
    if b.None? then None
    else
      var n := NormalizarColunas(b.value, semAcento);
      if Produto in n.cols && PrincipioAtivo in n.cols then Some(Reindex(n, Requeridas)) else None
  }

  /** The rows of the contributing bases, ANVISA first (`pd.concat`). */
  function Empilhadas(a: Option<Table>, m: Option<Table>): seq<Row> {
    (if a.Some? then a.value.rows else []) + (if m.Some? then m.value.rows else [])
  }

  function TemProduto(row: Row): bool { Get(row, Produto) != Null }

  datatype BaseMaster = BaseMaster(produtos: set<Value>, tabela: Table)

  /** The rows of a contributing base all have exactly the two columns. */
  lemma EmpilhadasColunas(a: Option<Table>, m: Option<Table>)
    requires a.Some? ==> WellFormed(a.value) && a.value.cols == Requeridas
    requires m.Some? ==> WellFormed(m.value) && m.value.cols == Requeridas
    ensures forall i :: 0 <= i < |Empilhadas(a, m)| ==> Empilhadas(a, m)[i].Keys == ColSet(Requeridas)
  {
    var todas := Empilhadas(a, m);
    var ra := if a.Some? then a.value.rows else [];
    forall i | 0 <= i < |todas| ensures todas[i].Keys == ColSet(Requeridas) {
      if i >= |ra| {
        assert todas[i] == m.value.rows[i - |ra|];
      } else {
        assert todas[i] == a.value.rows[i];
      }
    }
  }

  /** `.dropna(subset=['PRODUTO']).drop_duplicates(subset=['PRODUTO'])`:
      rows of the input, none with a null product, one per product, and
      every non-null product of the input kept. */
  function SemNulosUnicos(todas: seq<Row>): (r: seq<Row>)
    ensures forall i :: 0 <= i < |r| ==> Get(r[i], Produto) != Null && r[i] in todas
    ensures DistinctKeys(r, ColKey(Produto))
    ensures KeysOf(r, ColKey(Produto)) == KeysOf(todas, ColKey(Produto)) - {Null}
  {
    var comProduto := Filter(todas, TemProduto);
    var unicas := DedupBy(comProduto, ColKey(Produto));
    DedupKeys(comProduto, ColKey(Produto));
    KeysOfFilterKey(todas, ColKey(Produto), TemProduto, Null);
    DedupSub(comProduto, ColKey(Produto));
    assert forall i :: 0 <= i < |unicas| ==> TemProduto(unicas[i]) && unicas[i] in todas by {
      forall i | 0 <= i < |unicas| ensures TemProduto(unicas[i]) && unicas[i] in todas {
        assert unicas[i] in comProduto;
        var j :| 0 <= j < |comProduto| && comProduto[j] == unicas[i];
      }
    }
    unicas
  }

  /** `criar_base_master_unificada`: `ValueError` when neither base
      contributes; otherwise the stacked rows without a null `PRODUTO`, one
      per product (the first), and the set of their product names: exactly
      the non-null names of the contributing bases. */
  function CriarBaseMasterUnificada(anvisa: Option<Table>, manual: Option<Table>, semAcento: string -> string): (r: Result<BaseMaster>)
    requires anvisa.Some? ==> WellFormed(anvisa.value) && Injetiva(anvisa.value.cols, NomeNormalizado(semAcento))
    requires manual.Some? ==> WellFormed(manual.value) && Injetiva(manual.value.cols, NomeNormalizado(semAcento))
    ensures r.Err? <==> Contribuicao(anvisa, semAcento).None? && Contribuicao(manual, semAcento).None?
    ensures r.Err? ==> r.error.ValueError?
    ensures r.Ok? ==> WellFormed(r.value.tabela) && r.value.tabela.cols == Requeridas
    ensures r.Ok? ==> DistinctKeys(r.value.tabela.rows, ColKey(Produto))
    ensures r.Ok? ==> forall i :: 0 <= i < |r.value.tabela.rows| ==>
              Get(r.value.tabela.rows[i], Produto) != Null &&
              r.value.tabela.rows[i] in Empilhadas(Contribuicao(anvisa, semAcento), Contribuicao(manual, semAcento))
    ensures r.Ok? ==> r.value.produtos == KeysOf(r.value.tabela.rows, ColKey(Produto))
    ensures r.Ok? ==> (r.value.produtos ==
                       KeysOf(Empilhadas(Contribuicao(anvisa, semAcento), Contribuicao(manual, semAcento)), ColKey(Produto)) - {Null})
  {
    var ca := Contribuicao(anvisa, semAcento);
    var cm := Contribuicao(manual, semAcento);
    if ca.None? && cm.None? then Err(ValueError("Nenhuma base mestre valida encontrada!"))
    else
      var todas := Empilhadas(ca, cm);
      var unicas := SemNulosUnicos(todas);
      EmpilhadasColunas(ca, cm);
      assert WellFormed(Table(Requeridas, unicas));
      Ok(BaseMaster(KeysOf(unicas, ColKey(Produto)), Table(Requeridas, unicas)))
  }

  // ---------------------------------------------------------------------------
  // verificar_matches and gerar_relatorio_final
  // ---------------------------------------------------------------------------

  /** `df[coluna].isin(set_master)` on one row. */
  function NaMaster(master: set<Value>, c: string): Row -> bool {
    (row: Row) => Get(row, c) in master
  }

  /** `verificar_matches`: how many rows have their `coluna` in the master
      set; a missing column is a `KeyError`. All rows match iff the count is
      the frame's length, none iff it is zero. */
  function VerificarMatches(t: Table, master: set<Value>, c: string): (r: Result<nat>)
    ensures r.Err? <==> c !in t.cols
    ensures r.Ok? ==> r.value <= |t.rows|
    ensures r.Ok? ==> (r.value == 0 <==> forall i :: 0 <= i < |t.rows| ==> Get(t.rows[i], c) !in master)
    ensures r.Ok? ==> (r.value == |t.rows| <==> forall i :: 0 <= i < |t.rows| ==> Get(t.rows[i], c) in master)
  {
    if c !in t.cols then Err(KeyError(c))
    else
      var p := NaMaster(master, c);
      var n := |Filter(t.rows, p)|;
      assert (forall i :: 0 <= i < |t.rows| ==> !p(t.rows[i])) ==> n == 0 by {
        if forall i :: 0 <= i < |t.rows| ==> !p(t.rows[i]) {
          FilterNone(t.rows, p);
        }
      }
      assert (forall i :: 0 <= i < |t.rows| ==> p(t.rows[i])) ==> n == |t.rows| by {
        if forall i :: 0 <= i < |t.rows| ==> p(t.rows[i]) {
          FilterAll(t.rows, p);
        }
      }
      assert (exists i :: 0 <= i < |t.rows| && !p(t.rows[i])) ==> n < |t.rows| by {
        if i :| 0 <= i < |t.rows| && !p(t.rows[i]) {
          FilterSplitCount(t.rows, p);
          assert Neg(p)(t.rows[i]);
          assert t.rows[i] in Filter(t.rows, Neg(p));
        }
      }
      Ok(n)
  }

  /** The percentage `verificar_matches` reports: zero on an empty frame,
      otherwise the share of matches times 100, between 0 and 100. */
  function Percentual(matched: nat, total: nat): (r: real)
    ensures total == 0 ==> r == 0.0
    ensures matched <= total ==> 0.0 <= r <= 100.0
    ensures 0 < total && matched == total ==> r == 100.0
    ensures 0 < total && matched == 0 ==> r == 0.0
  {
    if total > 0 then (matched as real / total as real) * 100.0 else 0.0
  }

  /** `gerar_relatorio_final`: the rows whose `NOME_PRODUTO_LIMPO` is not in
      the master set, in their order; a missing column is a `KeyError`. */
  function GerarRelatorioFinal(t: Table, master: set<Value>): (r: Result<Table>)
    requires WellFormed(t)
    ensures r.Err? <==> NomeLimpo !in t.cols
    ensures r.Ok? ==> WellFormed(r.value) && r.value.cols == t.cols
    ensures r.Ok? ==> forall i :: 0 <= i < |r.value.rows| ==>
              Get(r.value.rows[i], NomeLimpo) !in master && r.value.rows[i] in t.rows
    ensures r.Ok? ==> forall i :: 0 <= i < |t.rows| && Get(t.rows[i], NomeLimpo) !in master ==>
              t.rows[i] in r.value.rows
    ensures r.Ok? ==> Subsequence(r.value.rows, t.rows)
  {
    if NomeLimpo !in t.cols then Err(KeyError(NomeLimpo))
    else
      FilterSubsequence(t.rows, Neg(NaMaster(master, NomeLimpo)));
      Ok(FilterRows(t, Neg(NaMaster(master, NomeLimpo))))
  }

  /** The matches counted and the rows reported add up to the frame. */
  lemma RelatorioComplementa(t: Table, master: set<Value>)
    requires WellFormed(t) && NomeLimpo in t.cols
    ensures VerificarMatches(t, master, NomeLimpo).Ok? && GerarRelatorioFinal(t, master).Ok?
    ensures VerificarMatches(t, master, NomeLimpo).value + |GerarRelatorioFinal(t, master).value.rows| == |t.rows|
  {
    FilterSplitCount(t.rows, NaMaster(master, NomeLimpo));
  }

  // ---------------------------------------------------------------------------
  // aplicar_regras_especificas
  // ---------------------------------------------------------------------------

  /** A rule: when every pattern occurs in the description, the item is
      renamed to `nome`. */
  datatype Regra = Regra(padroes: seq<string>, nome: string)

  /** The rules, in the order they run. */
  const Regras: seq<Regra> := [
    Regra(["ENOXAPARINA", "CRISTALIA"], "HEPARINOX"),
    Regra(["ENOXAPARINA", "BLAU"], "ENOXALOW"),
    Regra(["ENOXAPARINA", "MYLAN"], "HEPTRIS"),
    Regra(["ENOXAPARINA", "EURO"], "VERSA"),
    Regra(["HEPTRIS"], "HEPTRIS"),
    Regra(["ACALABRUTINIBE"], "CALQUENCE")
  ]

  /** `str.contains(p, case=False, na=False)` on one cell: a cell that is
      not text never matches. */
  predicate ContemCI(v: Value, p: string) { v.Str? && ContainsCI(v.s, p) }

  /** The rule fires on a description containing all its patterns. */
  predicate Dispara(regra: Regra, desc: Value) {
    forall k :: 0 <= k < |regra.padroes| ==> ContemCI(desc, regra.padroes[k])
  }

  /** One item's name after the rules run in order; `fora` is whether the
      name was outside the master set on entry, which is fixed before the
      first rule runs. */
  function NomeAposRegras(fora: bool, desc: Value, nome: Value, rs: seq<Regra>): Value
    decreases |rs|
  {
    if |rs| == 0 then nome
    else NomeAposRegras(fora, desc, if fora && Dispara(rs[0], desc) then Str(rs[0].nome) else nome, rs[1..])
  }

  /** With no rule firing, or on an item already in the master set, the
      name stays. */
  lemma {:induction false} RegrasSemEfeito(fora: bool, desc: Value, nome: Value, rs: seq<Regra>)
    requires !fora || forall k :: 0 <= k < |rs| ==> !Dispara(rs[k], desc)
    ensures NomeAposRegras(fora, desc, nome, rs) == nome
    decreases |rs|
  {
    if |rs| > 0 {
      assert !fora || !Dispara(rs[0], desc);
      RegrasSemEfeito(fora, desc, nome, rs[1..]);
    }
  }

  /** On an item outside the master set, the last rule that fires decides
      the name: a later rule overrides an earlier one. */
  lemma {:induction false} RegrasUltimaVence(desc: Value, nome: Value, rs: seq<Regra>, k: nat)
    requires k < |rs| && Dispara(rs[k], desc)
    requires forall j :: k < j < |rs| ==> !Dispara(rs[j], desc)
    ensures NomeAposRegras(true, desc, nome, rs) == Str(rs[k].nome)
    decreases |rs|
  {
    var prox := if Dispara(rs[0], desc) then Str(rs[0].nome) else nome;
    if k == 0 {
      RegrasSemEfeito(true, desc, prox, rs[1..]);
    } else {
      RegrasUltimaVence(desc, prox, rs[1..], k - 1);
    }
  }

  function RenomearPorRegras(master: set<Value>): Row -> Value {
    (row: Row) => NomeAposRegras(Get(row, NomeLimpo) !in master, Get(row, Descricao), Get(row, NomeLimpo), Regras)
  }

  /** `aplicar_regras_especificas`: only `NOME_PRODUTO_LIMPO` changes, and
      only on rows whose name was outside the master set on entry; a
      missing name or description column is a `KeyError`. The rules run one
      after the other over the whole frame; as the mask is fixed on entry
      and the description is never written, this is the same as running
      them all on each row in turn. */
  function AplicarRegrasEspecificas(t: Table, master: set<Value>): (r: Result<Table>)
    requires WellFormed(t)
    ensures r.Err? <==> NomeLimpo !in t.cols || Descricao !in t.cols
    ensures r.Ok? ==> WellFormed(r.value) && r.value.cols == t.cols && |r.value.rows| == |t.rows|
    ensures r.Ok? ==> forall i :: 0 <= i < |t.rows| && Get(t.rows[i], NomeLimpo) in master ==> r.value.rows[i] == t.rows[i]
    ensures r.Ok? ==> forall i, c :: 0 <= i < |t.rows| && c in t.cols && c != NomeLimpo ==>
              Get(r.value.rows[i], c) == Get(t.rows[i], c)
    ensures r.Ok? ==> forall i :: 0 <= i < |t.rows| ==>
              Get(r.value.rows[i], NomeLimpo) ==
              NomeAposRegras(Get(t.rows[i], NomeLimpo) !in master, Get(t.rows[i], Descricao), Get(t.rows[i], NomeLimpo), Regras)
  {
    if NomeLimpo !in t.cols then Err(KeyError(NomeLimpo))
    else if Descricao !in t.cols then Err(KeyError(Descricao))
    else
      var r := SetCol(t, NomeLimpo, RenomearPorRegras(master));
      assert forall i :: 0 <= i < |t.rows| && Get(t.rows[i], NomeLimpo) in master ==> r.rows[i] == t.rows[i] by {
        forall i | 0 <= i < |t.rows| && Get(t.rows[i], NomeLimpo) in master ensures r.rows[i] == t.rows[i] {
          RegrasSemEfeito(false, Get(t.rows[i], Descricao), Get(t.rows[i], NomeLimpo), Regras);
        }
      }
      Ok(r)
  }

  /** The name an item ends with under the rules: the last rule firing on
      its description when the name was outside the master set, and the
      old name when none fires. */
  lemma RegrasEfeito(t: Table, master: set<Value>, i: nat, k: nat)
    requires WellFormed(t) && NomeLimpo in t.cols && Descricao in t.cols && i < |t.rows|
    requires Get(t.rows[i], NomeLimpo) !in master
    requires k < |Regras| && Dispara(Regras[k], Get(t.rows[i], Descricao))
    requires forall j :: k < j < |Regras| ==> !Dispara(Regras[j], Get(t.rows[i], Descricao))
    ensures Get(AplicarRegrasEspecificas(t, master).value.rows[i], NomeLimpo) == Str(Regras[k].nome)
  {
    RegrasUltimaVence(Get(t.rows[i], Descricao), Get(t.rows[i], NomeLimpo), Regras, k);
  }

  /** An item on which no rule fires keeps its name. */
  lemma RegrasSemDisparo(t: Table, master: set<Value>, i: nat)
    requires WellFormed(t) && NomeLimpo in t.cols && Descricao in t.cols && i < |t.rows|
    requires forall k :: 0 <= k < |Regras| ==> !Dispara(Regras[k], Get(t.rows[i], Descricao))
    ensures AplicarRegrasEspecificas(t, master).value.rows[i] == t.rows[i]
  {
    var row := t.rows[i];
    RegrasSemEfeito(Get(row, NomeLimpo) !in master, Get(row, Descricao), Get(row, NomeLimpo), Regras);
    assert row[NomeLimpo := Get(row, NomeLimpo)] == row;
  }

  // ---------------------------------------------------------------------------
  // aplicar_fuzzy_dict
  // ---------------------------------------------------------------------------

  /** `Series.replace(dict)` on one cell: a text cell that is a key of the
      dictionary becomes its value, all keys at once (a replaced value is
      not looked up again). */
  function Substituir(v: Value, d: map<string, string>): Value {
    if v.Str? && v.s in d then Str(d[v.s]) else v
  }

  function CorrigirFuzzy(master: set<Value>, d: map<string, string>): Row -> Value {
    (row: Row) => if Get(row, NomeLimpo) in master then Get(row, NomeLimpo) else Substituir(Get(row, NomeLimpo), d)
  }

  /** `aplicar_fuzzy_dict`: an empty dictionary returns the frame as it is;
      otherwise the names outside the master set are replaced through the
      dictionary and nothing else changes; a missing name column is a
      `KeyError`. No name in the master set leaves it. */
  function AplicarFuzzyDict(t: Table, master: set<Value>, d: map<string, string>): (r: Result<Table>)
    requires WellFormed(t)
    ensures |d| == 0 ==> r == Ok(t)
    ensures r.Err? <==> |d| > 0 && NomeLimpo !in t.cols
    ensures r.Ok? ==> WellFormed(r.value) && r.value.cols == t.cols && |r.value.rows| == |t.rows|
    ensures r.Ok? ==> forall i :: 0 <= i < |t.rows| && Get(t.rows[i], NomeLimpo) in master ==>
              r.value.rows[i] == t.rows[i]
    ensures r.Ok? ==> forall i :: 0 <= i < |t.rows| && Get(t.rows[i], NomeLimpo) !in master ==>
              Get(r.value.rows[i], NomeLimpo) == Substituir(Get(t.rows[i], NomeLimpo), d)
    ensures r.Ok? ==> forall i, c :: 0 <= i < |t.rows| && c in t.cols && c != NomeLimpo ==>
              Get(r.value.rows[i], c) == Get(t.rows[i], c)
  {
    if |d| == 0 then Ok(t)
    else if NomeLimpo !in t.cols then Err(KeyError(NomeLimpo))
    else
      var r := SetCol(t, NomeLimpo, CorrigirFuzzy(master, d));
      assert forall i :: 0 <= i < |t.rows| && Get(t.rows[i], NomeLimpo) in master ==> r.rows[i] == t.rows[i] by {
        forall i | 0 <= i < |t.rows| && Get(t.rows[i], NomeLimpo) in master ensures r.rows[i] == t.rows[i] {
          assert t.rows[i][NomeLimpo := Get(t.rows[i], NomeLimpo)] == t.rows[i];
        }
      }
      Ok(r)
  }

  /** Every correction lands in the master set or on a name the dictionary
      does not correct again. */
  predicate Estavel(master: set<Value>, d: map<string, string>) {
    forall k :: k in d ==> Str(d[k]) in master || d[k] !in d
  }

  /** With such a dictionary the second pass of the stage changes nothing:
      corrections are not chained. */
  lemma FuzzyDuasVezes(t: Table, master: set<Value>, d: map<string, string>)
    requires WellFormed(t) && NomeLimpo in t.cols && Estavel(master, d)
    ensures AplicarFuzzyDict(t, master, d).Ok?
    ensures AplicarFuzzyDict(AplicarFuzzyDict(t, master, d).value, master, d) == AplicarFuzzyDict(t, master, d)
  {
    var r1 := AplicarFuzzyDict(t, master, d).value;
    var r2 := AplicarFuzzyDict(r1, master, d).value;
    forall i | 0 <= i < |r1.rows| ensures r2.rows[i] == r1.rows[i] {
      FuzzyLinhaEstavel(t, master, d, i);
    }
    assert r2.rows == r1.rows;
    assert r2 == r1;
  }

  lemma FuzzyLinhaEstavel(t: Table, master: set<Value>, d: map<string, string>, i: nat)
    requires WellFormed(t) && NomeLimpo in t.cols && Estavel(master, d) && i < |t.rows|
    ensures AplicarFuzzyDict(t, master, d).Ok?
    ensures AplicarFuzzyDict(AplicarFuzzyDict(t, master, d).value, master, d).Ok?
    ensures AplicarFuzzyDict(AplicarFuzzyDict(t, master, d).value, master, d).value.rows[i] ==
            AplicarFuzzyDict(t, master, d).value.rows[i]
  {
    var r1 := AplicarFuzzyDict(t, master, d).value;
    var r2 := AplicarFuzzyDict(r1, master, d).value;
    if |d| > 0 {
      var v := Get(t.rows[i], NomeLimpo);
      var w := Get(r1.rows[i], NomeLimpo);
      if w !in master {
        assert Substituir(w, d) == w by {
          if v !in master && v.Str? && v.s in d {
            assert w == Str(d[v.s]);
          }
        }
        assert r1.rows[i][NomeLimpo := w] == r1.rows[i];
      }
    }
  }

  // ---------------------------------------------------------------------------
  // filtrar_nao_medicinais_final
  // ---------------------------------------------------------------------------

  /** Names that mark an item as not a medicine; the trailing spaces are
      part of the patterns. */
  const NaoMedicinais: seq<string> := [
    "OLEO MINERAL", "ULTRASSONOGRAFIA", "DIAGNOSTICOS", "ESPIROMETRIA",
    "ENDOTRAQUEAIS", "ULTRASOM", "LOCACAO", "SUPORTE", "AGUA OXIGENADA",
    "LIMPEZA", "LIVRO", "SHERLOCK", "ELETROCARDIOGRAMA", "ELETROCARDIOGRAFO",
    "VASELINA", "DELETAR", "PVPI ", "ALVEJANTE", "LIDOVET", "DOXINEW",
    "ZELOTRIL ", "VITAKA ", "QUINOLON ", "IVERMIN ", "DEXACORT", "BIOXAN COMPOSTO"
  ]

  /** The alternation of the patterns, matched case-insensitively; a name
      that is not text never matches. */
  predicate NaoMedicinal(v: Value) {
    exists k :: 0 <= k < |NaoMedicinais| && ContemCI(v, NaoMedicinais[k])
  }

  function Medicinal(row: Row): bool { !NaoMedicinal(Get(row, NomeLimpo)) }

  /** `filtrar_nao_medicinais_final`: the rows whose name matches a
      pattern are removed and the others kept in order; a missing name
      column is a `KeyError`. */
  function FiltrarNaoMedicinaisFinal(t: Table): (r: Result<Table>)
    requires WellFormed(t)
    ensures r.Err? <==> NomeLimpo !in t.cols
    ensures r.Ok? ==> WellFormed(r.value) && r.value.cols == t.cols
    ensures r.Ok? ==> forall i :: 0 <= i < |r.value.rows| ==>
              !NaoMedicinal(Get(r.value.rows[i], NomeLimpo)) && r.value.rows[i] in t.rows
    ensures r.Ok? ==> forall i :: 0 <= i < |t.rows| && !NaoMedicinal(Get(t.rows[i], NomeLimpo)) ==>
              t.rows[i] in r.value.rows
    ensures r.Ok? ==> Subsequence(r.value.rows, t.rows)
  {
    if NomeLimpo !in t.cols then Err(KeyError(NomeLimpo))
    else
      FilterSubsequence(t.rows, Medicinal);
      Ok(FilterRows(t, Medicinal))
  }

  /** The rows kept and the rows removed together are the input, and
      filtering again removes nothing more. */
  lemma FiltroParticiona(t: Table)
    requires WellFormed(t) && NomeLimpo in t.cols
    ensures FiltrarNaoMedicinaisFinal(t).Ok?
    ensures multiset(FiltrarNaoMedicinaisFinal(t).value.rows) + multiset(Filter(t.rows, Neg(Medicinal))) == multiset(t.rows)
    ensures FiltrarNaoMedicinaisFinal(FiltrarNaoMedicinaisFinal(t).value) == FiltrarNaoMedicinaisFinal(t)
  {
    FilterSplit(t.rows, Medicinal);
    FilterIdempotent(t.rows, Medicinal);
  }

  // ---------------------------------------------------------------------------
  // processar_unificacao_matching
  // ---------------------------------------------------------------------------

  datatype Saida = Saida(final: Table, semCorrespondencia: Table)

  /** The report lists exactly the final rows outside the master set. */
  predicate RelatorioDe(o: Saida, master: set<Value>) {
    (forall i :: 0 <= i < |o.semCorrespondencia.rows| ==>
       Get(o.semCorrespondencia.rows[i], NomeLimpo) !in master && o.semCorrespondencia.rows[i] in o.final.rows) &&
    (forall i :: 0 <= i < |o.final.rows| && Get(o.final.rows[i], NomeLimpo) !in master ==>
       o.final.rows[i] in o.semCorrespondencia.rows)
  }

  /** Steps 5 to 9 on a frame that has both columns. */
  function Etapas(t: Table, master: set<Value>, d: map<string, string>): (r: Saida)
    requires WellFormed(t) && NomeLimpo in t.cols && Descricao in t.cols
    ensures WellFormed(r.final) && r.final.cols == t.cols && |r.final.rows| <= |t.rows|
    ensures RelatorioDe(r, master)
  {
    var t1 := AplicarRegrasEspecificas(t, master).value;
    var t2 := AplicarFuzzyDict(t1, master, d).value;
    var t3 := FiltrarNaoMedicinaisFinal(t2).value;
    var t4 := AplicarFuzzyDict(t3, master, d).value;
    var rel := GerarRelatorioFinal(t4, master).value;
    Saida(t4, rel)
  }

  /** `processar_unificacao_matching` once the master set is known: a
      missing name or description column is a `ValueError`; otherwise the
      rules, the first fuzzy pass, the filter, the second fuzzy pass and the
      report, which lists exactly the final rows outside the master set. */
  function ProcessarComMaster(master: set<Value>, t: Table, d: map<string, string>): (r: Result<Saida>)
    requires WellFormed(t)
    ensures r.Err? <==> NomeLimpo !in t.cols || Descricao !in t.cols
    ensures r.Err? ==> r.error.ValueError?
    ensures r.Ok? ==> WellFormed(r.value.final) && r.value.final.cols == t.cols && |r.value.final.rows| <= |t.rows|
    ensures r.Ok? ==> RelatorioDe(r.value, master)
  {
    if NomeLimpo !in t.cols then Err(ValueError("Coluna 'NOME_PRODUTO_LIMPO' nao encontrada!"))
    else if Descricao !in t.cols then Err(ValueError("Coluna 'descricao_produto' nao encontrada!"))
    else Ok(Etapas(t, master, d))
  }

  /** `processar_unificacao_matching` after loading: the master comes
      first, so a failure to build it is reported before any column check. */
  function ProcessarUnificacaoMatching(anvisa: Option<Table>, manual: Option<Table>, semAcento: string -> string,
                                       t: Table, d: map<string, string>): (r: Result<Saida>)
    requires anvisa.Some? ==> WellFormed(anvisa.value) && Injetiva(anvisa.value.cols, NomeNormalizado(semAcento))
    requires manual.Some? ==> WellFormed(manual.value) && Injetiva(manual.value.cols, NomeNormalizado(semAcento))
    requires WellFormed(t)
    ensures r.Err? <==> CriarBaseMasterUnificada(anvisa, manual, semAcento).Err? || NomeLimpo !in t.cols || Descricao !in t.cols
    ensures r.Err? ==> r.error.ValueError?
  {
    var base := CriarBaseMasterUnificada(anvisa, manual, semAcento);
    if base.Err? then Err(base.error) else ProcessarComMaster(base.value.produtos, t, d)
  }
}
