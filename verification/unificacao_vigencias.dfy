/** Merging of consecutive identical validity intervals
    (`unificacao_vigencias.py`): the table is sorted by product and start,
    consecutive rows of one product whose checked columns agree form a
    block, and every block becomes one row with the first row's values and
    the last row's end. */
module UnificacaoVigencias {
  import opened Wrappers
  import opened Dates
  import opened Ordenacao
  import opened Frame
  import opened Seqs
  import Vigencias

  /** One row: the product id, the price id, `VIG_INICIO`, `VIG_FIM` (NaT
      is `None`) and the cells of the other columns. */
  datatype Registro = Registro(idProduto: string, idPreco: string, inicio: Date, fim: Option<Date>, cels: Row)

  /** The table: the names of the columns other than `id_produto`,
      `id_preco`, `VIG_INICIO` and `VIG_FIM`, and the rows. */
  datatype Quadro = Quadro(cols: seq<string>, regs: seq<Registro>)

  /** A start read by `pd.to_datetime`: a real day of a four-digit year. */
  predicate Datado(r: Registro) { Valid(r.inicio) && FourDigitYear(r.inicio) }

  /** Every row carries exactly the table's other columns. */
  predicate Formado(q: Quadro) {
    forall i :: 0 <= i < |q.regs| ==> q.regs[i].cels.Keys == ColSet(q.cols)
  }

  // ---------------------------------------------------------------------------
  // Preparation (unificacao_vigencias.py:29-34)
  // ---------------------------------------------------------------------------

  function ChaveProdutoInicio(r: Registro): Chave { Chave(r.idProduto, Vigencias.Dia(r.inicio), 0) }

  /** `sort_values(['id_produto', 'VIG_INICIO'])`, stable. */
  function Preparar(rs: seq<Registro>): (r: seq<Registro>)
    ensures OrdenadaPor(r, ChaveProdutoInicio)
    ensures multiset(r) == multiset(rs)
  {
    Ordenar(rs, ChaveProdutoInicio)
  }

  /** A table that is already sorted is left as it is. */
  lemma {:induction false} PrepararOrdenada(rs: seq<Registro>)
    requires OrdenadaPor(rs, ChaveProdutoInicio)
    ensures Preparar(rs) == rs
  {
    var key: Registro -> Chave := ChaveProdutoInicio;
    OrdenarOrdenada(rs, key);
  }

  // ---------------------------------------------------------------------------
  // Checked columns (unificacao_vigencias.py:52-57, config.py:29-33)
  // ---------------------------------------------------------------------------

  const ColunasMudanca: seq<string> := [
    "PF 0%", "PF 20%", "PMVG 0%", "PMVG 20%", "ICMS 0%", "CAP",
    "PRINCÍPIO ATIVO", "LABORATÓRIO", "PRODUTO", "APRESENTAÇÃO",
    "CLASSE TERAPÊUTICA", "TIPO DE PRODUTO (STATUS DO PRODUTO)", "REGIME DE PREÇO"
  ]

  /** The names of `cols` that are also in `cfg`, in the order of `cols`. */
  function Presentes(cols: seq<string>, cfg: seq<string>): (r: seq<string>)
    ensures forall c :: c in r <==> c in cfg && c in cols
  {
    if |cols| == 0 then []
    else (if cols[0] in cfg then [cols[0]] else []) + Presentes(cols[1..], cfg)
  }

  /** The configured columns the table has, in the table's own column
      order (which does not affect the change test); when it has none of
      them, every column other than the product, the dates and the price
      id. */
  function ColunasVerificadas(cols: seq<string>): (r: seq<string>)
    ensures forall c :: c in r ==> c in cols
    ensures (exists c :: c in ColunasMudanca && c in cols) ==> forall c :: c in r <==> c in ColunasMudanca && c in cols
    ensures (forall c :: c in ColunasMudanca ==> c !in cols) ==> r == cols
  {
    var p := Presentes(cols, ColunasMudanca);
    if |p| > 0 then
      assert p[0] in p;
      p
    else
      assert forall c :: c in ColunasMudanca ==> c !in cols;
      cols
  }

  // ---------------------------------------------------------------------------
  // Block starts and block ids (unificacao_vigencias.py:61-65)
  // ---------------------------------------------------------------------------

  /** `ne` between two cells: a missing cell differs from every cell, itself
      included. */
  predicate Difere(a: Value, b: Value) { a == Null || b == Null || a != b }

  /** Row `atual` starts a new block after row `anterior`. */
  predicate Muda(atual: Registro, anterior: Registro, chk: seq<string>) {
    atual.idProduto != anterior.idProduto || exists c :: c in chk && Difere(Get(atual.cels, c), Get(anterior.cels, c))
  }

  /** `inicio_bloco`: the first row, or a row that changes the product or a
      checked column. */
  predicate InicioBloco(rs: seq<Registro>, chk: seq<string>, i: nat)
    requires i < |rs|
  {
    i == 0 || Muda(rs[i], rs[i - 1], chk)
  }

  /** `bloco_id = inicio_bloco.cumsum()`. */
  function BlocoId(rs: seq<Registro>, chk: seq<string>, i: nat): (r: nat)
    requires i < |rs|
    ensures 1 <= r <= i + 1
  {
    (if i == 0 then 0 else BlocoId(rs, chk, i - 1)) + (if InicioBloco(rs, chk, i) then 1 else 0)
  }

  /** Block ids never decrease, and two rows share one exactly when no block
      starts after the first of them up to the second. */
  lemma {:induction false} BlocoIdCresce(rs: seq<Registro>, chk: seq<string>, i: nat, j: nat)
    requires i <= j < |rs|
    ensures BlocoId(rs, chk, i) <= BlocoId(rs, chk, j)
    ensures BlocoId(rs, chk, i) == BlocoId(rs, chk, j) <==> forall k :: i < k <= j ==> !InicioBloco(rs, chk, k)
  {
    if i < j {
      BlocoIdCresce(rs, chk, i, j - 1);
      if BlocoId(rs, chk, i) == BlocoId(rs, chk, j) {
        assert !InicioBloco(rs, chk, j);
      }
    }
  }

  // ---------------------------------------------------------------------------
  // Blocks and groups (unificacao_vigencias.py:83-87)
  // ---------------------------------------------------------------------------

  function Ultimo<T>(s: seq<T>): T
    requires |s| > 0
  {
    s[|s| - 1]
  }

  /** The concatenation of the runs. */
  function Achatar<T>(b: seq<seq<T>>): seq<T> {
    if |b| == 0 then [] else Achatar(b[..|b| - 1]) + b[|b| - 1]
  }

  lemma AchatarAnexo<T>(p: seq<seq<T>>, u: seq<T>)
    ensures Achatar(p + [u]) == Achatar(p) + u
  {
    assert (p + [u])[..|p|] == p;
  }

  /** The maximal runs of the first `n` rows: a new run at every block
      start. */
  function Blocos(rs: seq<Registro>, chk: seq<string>, n: nat): (b: seq<seq<Registro>>)
    requires n <= |rs|
    ensures |b| == if n == 0 then 0 else BlocoId(rs, chk, n - 1)
    ensures forall j :: 0 <= j < |b| ==> |b[j]| > 0
  {
    if n == 0 then []
    else
      var p := Blocos(rs, chk, n - 1);
      if InicioBloco(rs, chk, n - 1) then p + [[rs[n - 1]]]
      else p[..|p| - 1] + [p[|p| - 1] + [rs[n - 1]]]
  }

  /** A block: no row after the first starts a new one. */
  predicate Bloco(b: seq<Registro>, chk: seq<string>) {
    |b| > 0 && forall i :: 0 < i < |b| ==> !Muda(b[i], b[i - 1], chk)
  }

  /** Run `j` begins with a row that changes from the last row of run
      `j - 1`. */
  predicate Fronteira(b: seq<seq<Registro>>, chk: seq<string>, j: nat)
    requires 0 < j < |b|
  {
    |b[j - 1]| > 0 && |b[j]| > 0 && Muda(b[j][0], Ultimo(b[j - 1]), chk)
  }

  /** The runs are blocks cut at block starts. */
  predicate Particao(b: seq<seq<Registro>>, chk: seq<string>) {
    (forall j :: 0 <= j < |b| ==> Bloco(b[j], chk))
    && (forall j :: 0 < j < |b| ==> Fronteira(b, chk, j))
  }

  lemma BlocosPasso(rs: seq<Registro>, chk: seq<string>, n: nat)
    requires 0 < n <= |rs|
    ensures InicioBloco(rs, chk, n - 1) ==> Blocos(rs, chk, n) == Blocos(rs, chk, n - 1) + [[rs[n - 1]]]
    ensures !InicioBloco(rs, chk, n - 1) ==>
      var p := Blocos(rs, chk, n - 1);
      |p| > 0 && Blocos(rs, chk, n) == p[..|p| - 1] + [Ultimo(p) + [rs[n - 1]]]
  {
  }

  /** The last row of the last run is the last row read. */
  lemma BlocosUltimo(rs: seq<Registro>, chk: seq<string>, n: nat)
    requires 0 < n <= |rs|
    ensures Ultimo(Ultimo(Blocos(rs, chk, n))) == rs[n - 1]
  {
    BlocosPasso(rs, chk, n);
  }

  /** Together the runs are the rows, in order. */
  lemma {:induction false} BlocosAchatar(rs: seq<Registro>, chk: seq<string>, n: nat)
    requires n <= |rs|
    ensures Achatar(Blocos(rs, chk, n)) == rs[..n]
  {
    if n > 0 {
      BlocosAchatar(rs, chk, n - 1);
      BlocosPasso(rs, chk, n);
      var p := Blocos(rs, chk, n - 1);
      var x := rs[n - 1];
      assert rs[..n] == rs[..n - 1] + [x];
      if InicioBloco(rs, chk, n - 1) {
        AchatarAnexo(p, [x]);
      } else {
        var q := p[..|p| - 1];
        var u := Ultimo(p);
        assert p == q + [u];
        AchatarAnexo(q, u);
        AchatarAnexo(q, u + [x]);
        Associa(Achatar(q), u, [x]);
      }
    }
  }

  lemma BlocoEstendido(b: seq<Registro>, x: Registro, chk: seq<string>)
    requires Bloco(b, chk) && !Muda(x, Ultimo(b), chk)
    ensures Bloco(b + [x], chk)
  {
    var e := b + [x];
    forall i | 0 < i < |e| ensures !Muda(e[i], e[i - 1], chk) {
      if i < |b| {
        assert e[i] == b[i] && e[i - 1] == b[i - 1];
      }
    }
  }

  /** The runs are the blocks: each is a block, and each later run begins
      with a block start. */
  lemma {:induction false} BlocosParticao(rs: seq<Registro>, chk: seq<string>, n: nat)
    requires n <= |rs|
    ensures Particao(Blocos(rs, chk, n), chk)
  {
    if n > 0 {
      BlocosParticao(rs, chk, n - 1);
      BlocosPasso(rs, chk, n);
      var p := Blocos(rs, chk, n - 1);
      var x := rs[n - 1];
      if n > 1 {
        BlocosUltimo(rs, chk, n - 1);
      }
      if InicioBloco(rs, chk, n - 1) {
        ParticaoAnexada(p, x, chk);
      } else {
        BlocoEstendido(Ultimo(p), x, chk);
        ParticaoEstendida(p, x, chk);
      }
    }
  }

  lemma ParticaoAnexada(p: seq<seq<Registro>>, x: Registro, chk: seq<string>)
    requires Particao(p, chk)
    requires |p| > 0 ==> Muda(x, Ultimo(Ultimo(p)), chk)
    ensures Particao(p + [[x]], chk)
  {
    var b := p + [[x]];
    forall j | 0 <= j < |b| ensures Bloco(b[j], chk) {
      if j < |p| {
        assert b[j] == p[j];
      }
    }
    forall j | 0 < j < |b| ensures Fronteira(b, chk, j) {
      assert b[j - 1] == p[j - 1];
      if j < |p| {
        assert b[j] == p[j];
        assert Fronteira(p, chk, j);
      }
    }
  }

  lemma ParticaoEstendida(p: seq<seq<Registro>>, x: Registro, chk: seq<string>)
    requires Particao(p, chk) && |p| > 0 && Bloco(Ultimo(p) + [x], chk)
    ensures Particao(p[..|p| - 1] + [Ultimo(p) + [x]], chk)
  {
    var b := p[..|p| - 1] + [Ultimo(p) + [x]];
    forall j | 0 <= j < |b| ensures Bloco(b[j], chk) {
      if j < |p| - 1 {
        assert b[j] == p[j];
      }
    }
    forall j | 0 < j < |b| ensures Fronteira(b, chk, j) {
      assert b[j - 1] == p[j - 1];
      assert b[j][0] == p[j][0];
      assert Fronteira(p, chk, j);
    }
  }

  /** The rows whose block id is `k`, in order: a group of
      `groupby('bloco_id')`. */
  function Grupo(rs: seq<Registro>, chk: seq<string>, k: nat, n: nat): seq<Registro>
    requires n <= |rs|
  {
    if n == 0 then [] else Grupo(rs, chk, k, n - 1) + (if BlocoId(rs, chk, n - 1) == k then [rs[n - 1]] else [])
  }

  /** The groups of the block ids are the runs: the group of id `k` is run
      `k`, and the other ids have no rows. */
  lemma {:induction false} GruposSaoBlocos(rs: seq<Registro>, chk: seq<string>, n: nat)
    requires n <= |rs|
    ensures forall k :: 1 <= k <= |Blocos(rs, chk, n)| ==> Grupo(rs, chk, k, n) == Blocos(rs, chk, n)[k - 1]
    ensures forall k :: k == 0 || k > |Blocos(rs, chk, n)| ==> Grupo(rs, chk, k, n) == []
  {
    if n > 0 {
      GruposSaoBlocos(rs, chk, n - 1);
      forall k: nat ensures 1 <= k <= |Blocos(rs, chk, n)| ==> Grupo(rs, chk, k, n) == Blocos(rs, chk, n)[k - 1]
        ensures k == 0 || k > |Blocos(rs, chk, n)| ==> Grupo(rs, chk, k, n) == []
      {
        GrupoPasso(rs, chk, k, n - 1);
      }
    }
  }

  /** One step of `GruposSaoBlocos`, for one id. */
  lemma GrupoPasso(rs: seq<Registro>, chk: seq<string>, k: nat, m: nat)
    requires m < |rs|
    requires forall k' :: 1 <= k' <= |Blocos(rs, chk, m)| ==> Grupo(rs, chk, k', m) == Blocos(rs, chk, m)[k' - 1]
    requires forall k' :: k' == 0 || k' > |Blocos(rs, chk, m)| ==> Grupo(rs, chk, k', m) == []
    ensures 1 <= k <= |Blocos(rs, chk, m + 1)| ==> Grupo(rs, chk, k, m + 1) == Blocos(rs, chk, m + 1)[k - 1]
    ensures k == 0 || k > |Blocos(rs, chk, m + 1)| ==> Grupo(rs, chk, k, m + 1) == []
  {
    var p := Blocos(rs, chk, m);
    var x := rs[m];
    var g := Grupo(rs, chk, k, m);
    BlocosPasso(rs, chk, m + 1);
    assert Grupo(rs, chk, k, m + 1) == g + (if BlocoId(rs, chk, m) == k then [x] else []);
    if InicioBloco(rs, chk, m) {
      if k == |p| + 1 {
        assert g == [];
      } else if 1 <= k <= |p| {
        assert Blocos(rs, chk, m + 1)[k - 1] == p[k - 1];
      }
    } else if 1 <= k < |p| {
      assert Blocos(rs, chk, m + 1)[k - 1] == p[k - 1];
    }
  }

  // ---------------------------------------------------------------------------
  // Collapsing a block (unificacao_vigencias.py:83-87)
  // ---------------------------------------------------------------------------

  /** `agg('first')`: the first non-missing cell of the column, missing if
      there is none. */
  function PrimeiroNaoNulo(b: seq<Registro>, c: string): (v: Value)
    ensures v == Null ==> forall i :: 0 <= i < |b| ==> Get(b[i].cels, c) == Null
    ensures v != Null ==> exists i :: 0 <= i < |b| && Get(b[i].cels, c) == v && forall j :: 0 <= j < i ==> Get(b[j].cels, c) == Null
  {
    if |b| == 0 then Null
    else if Get(b[0].cels, c) != Null then Get(b[0].cels, c)
    else
      var v := PrimeiroNaoNulo(b[1..], c);
      assert forall i :: 0 < i < |b| ==> b[i] == b[1..][i - 1];
      v
  }

  /** `agg('last')` on `VIG_FIM`: the last end that is not NaT. */
  function UltimoFim(b: seq<Registro>): (f: Option<Date>)
    ensures f.None? ==> forall i :: 0 <= i < |b| ==> b[i].fim.None?
    ensures f.Some? ==> exists i :: 0 <= i < |b| && b[i].fim == f && forall j :: i < j < |b| ==> b[j].fim.None?
  {
    if |b| == 0 then None
    else if b[|b| - 1].fim.Some? then b[|b| - 1].fim
    else
      var f := UltimoFim(b[..|b| - 1]);
      assert forall i :: 0 <= i < |b| - 1 ==> b[i] == b[..|b| - 1][i];
      f
  }

  /** One row per block: `first` for every column but `VIG_FIM`, `last` for
      `VIG_FIM`. */
  function Colapsar(b: seq<Registro>, cols: seq<string>): Registro
    requires |b| > 0
  {
    Registro(b[0].idProduto, b[0].idPreco, b[0].inicio, UltimoFim(b),
             map c | c in cols :: PrimeiroNaoNulo(b, c))
  }

  /** Inside a block the product and every checked cell are those of the
      first row, and past the first row no checked cell is missing. */
  lemma {:induction false} BlocoConstante(b: seq<Registro>, chk: seq<string>, i: nat)
    requires Bloco(b, chk) && i < |b|
    ensures b[i].idProduto == b[0].idProduto
    ensures forall c :: c in chk ==> Get(b[i].cels, c) == Get(b[0].cels, c)
    ensures i > 0 ==> forall c :: c in chk ==> Get(b[0].cels, c) != Null
  {
    if i > 0 {
      BlocoConstante(b, chk, i - 1);
      assert !Muda(b[i], b[i - 1], chk);
    }
  }

  /** A collapsed block keeps the product and start of its first row, the
      checked cells of its first row (which are those of its last row), and
      the last end that is not NaT. */
  lemma ColapsarBloco(b: seq<Registro>, chk: seq<string>, cols: seq<string>)
    requires Bloco(b, chk) && forall c :: c in chk ==> c in cols
    ensures Colapsar(b, cols).idProduto == b[0].idProduto == Ultimo(b).idProduto
    ensures Colapsar(b, cols).inicio == b[0].inicio
    ensures forall c :: c in chk ==> Get(Colapsar(b, cols).cels, c) == Get(b[0].cels, c) == Get(Ultimo(b).cels, c)
    ensures Colapsar(b, cols).fim == UltimoFim(b)
  {
    BlocoConstante(b, chk, |b| - 1);
  }

  /** A block of one row collapses to that row when the row has exactly
      the table's columns. */
  lemma ColapsarUnitario(x: Registro, cols: seq<string>)
    requires x.cels.Keys == ColSet(cols)
    ensures Colapsar([x], cols) == x
  {
    var m := map c | c in cols :: PrimeiroNaoNulo([x], c);
    forall c | c in cols ensures m[c] == x.cels[c] {
      assert Get([x][0].cels, c) == x.cels[c];
    }
    assert m == x.cels;
  }

  // ---------------------------------------------------------------------------
  // Aggregation (unificacao_vigencias.py:70-90)
  // ---------------------------------------------------------------------------

  /** The number of groups: the last block id. */
  function NumBlocos(rs: seq<Registro>, chk: seq<string>): (m: nat)
    ensures m <= |rs|
    ensures m == |Blocos(rs, chk, |rs|)|
  {
    if |rs| == 0 then 0 else BlocoId(rs, chk, |rs| - 1)
  }

  /** `df.groupby('bloco_id').agg(...)`: one collapsed row per block id, in
      increasing id order. */
  function Agregar(rs: seq<Registro>, chk: seq<string>, cols: seq<string>): (r: seq<Registro>)
    ensures |r| == NumBlocos(rs, chk)
  {
    GruposSaoBlocos(rs, chk, |rs|);
    seq(NumBlocos(rs, chk), j requires 0 <= j < NumBlocos(rs, chk) => Colapsar(Grupo(rs, chk, j + 1, |rs|), cols))
  }

  /** The aggregation collapses exactly the blocks. */
  lemma AgregarPorBlocos(rs: seq<Registro>, chk: seq<string>, cols: seq<string>, j: nat)
    requires j < NumBlocos(rs, chk)
    ensures |Blocos(rs, chk, |rs|)[j]| > 0
    ensures Agregar(rs, chk, cols)[j] == Colapsar(Blocos(rs, chk, |rs|)[j], cols)
  {
    GruposSaoBlocos(rs, chk, |rs|);
  }

  /** The first row of every run. */
  function Cabecas(b: seq<seq<Registro>>): (h: seq<Registro>)
    requires forall j :: 0 <= j < |b| ==> |b[j]| > 0
    ensures |h| == |b|
  {
    seq(|b|, j requires 0 <= j < |b| => b[j][0])
  }

  /** A row of a sorted table is not after the rows before it. */
  lemma AnteriorNaoDepois(rs: seq<Registro>, key: Registro -> Chave, m: nat, h: Registro)
    requires OrdenadaPor(rs, key) && m < |rs| && h in rs[..m]
    ensures !Menor(key(rs[m]), key(h))
  {
    var i :| 0 <= i < m && rs[..m][i] == h;
    assert rs[i] == h;
  }

  /** Every run is nonempty and begins with an element of `s`. */
  predicate CabecasEm(b: seq<seq<Registro>>, s: seq<Registro>) {
    forall j :: 0 <= j < |b| ==> |b[j]| > 0 && b[j][0] in s
  }

  /** Every run begins with one of the rows read. */
  lemma {:induction false} CabecasLidas(rs: seq<Registro>, chk: seq<string>, n: nat)
    requires n <= |rs|
    ensures CabecasEm(Blocos(rs, chk, n), rs[..n])
  {
    if n > 0 {
      CabecasLidas(rs, chk, n - 1);
      CabecasLidasPasso(rs, chk, n - 1);
    }
  }

  lemma CabecasLidasPasso(rs: seq<Registro>, chk: seq<string>, m: nat)
    requires m < |rs| && CabecasEm(Blocos(rs, chk, m), rs[..m])
    ensures CabecasEm(Blocos(rs, chk, m + 1), rs[..m + 1])
  {
    BlocosPasso(rs, chk, m + 1);
    var p := Blocos(rs, chk, m);
    if InicioBloco(rs, chk, m) {
      LidasAnexo(rs, p, m);
    } else {
      LidasExtensao(rs, p, m);
    }
  }

  lemma LidasAnexo(rs: seq<Registro>, p: seq<seq<Registro>>, m: nat)
    requires m < |rs| && CabecasEm(p, rs[..m])
    ensures CabecasEm(p + [[rs[m]]], rs[..m + 1])
  {
    var b := p + [[rs[m]]];
    assert rs[..m + 1] == rs[..m] + [rs[m]];
    forall j | 0 <= j < |b| ensures |b[j]| > 0 && b[j][0] in rs[..m + 1] {
      if j < |p| {
        assert b[j] == p[j];
      }
    }
  }

  lemma LidasExtensao(rs: seq<Registro>, p: seq<seq<Registro>>, m: nat)
    requires m < |rs| && CabecasEm(p, rs[..m]) && |p| > 0
    ensures CabecasEm(p[..|p| - 1] + [Ultimo(p) + [rs[m]]], rs[..m + 1])
  {
    var b := p[..|p| - 1] + [Ultimo(p) + [rs[m]]];
    assert rs[..m + 1] == rs[..m] + [rs[m]];
    forall j | 0 <= j < |b| ensures |b[j]| > 0 && b[j][0] in rs[..m + 1] {
      assert b[j][0] == p[j][0];
    }
  }

  /** The runs of a sorted table begin in sorted order. */
  lemma {:induction false} CabecasOrdenadas(rs: seq<Registro>, chk: seq<string>, key: Registro -> Chave, n: nat)
    requires OrdenadaPor(rs, key) && n <= |rs|
    ensures OrdenadaPor(Cabecas(Blocos(rs, chk, n)), key)
  {
    if n > 0 {
      CabecasOrdenadas(rs, chk, key, n - 1);
      CabecasLidas(rs, chk, n - 1);
      CabecasPasso(rs, chk, key, n - 1);
    }
  }

  lemma CabecasPasso(rs: seq<Registro>, chk: seq<string>, key: Registro -> Chave, m: nat)
    requires OrdenadaPor(rs, key) && m < |rs|
    requires OrdenadaPor(Cabecas(Blocos(rs, chk, m)), key)
    requires CabecasEm(Blocos(rs, chk, m), rs[..m])
    ensures OrdenadaPor(Cabecas(Blocos(rs, chk, m + 1)), key)
  {
    BlocosPasso(rs, chk, m + 1);
    var p := Blocos(rs, chk, m);
    if InicioBloco(rs, chk, m) {
      CabecasAnexadas(rs, key, p, m);
    } else {
      CabecasEstendidas(p, rs[m]);
    }
  }

  /** Extending the last run keeps the heads. */
  lemma CabecasEstendidas(p: seq<seq<Registro>>, x: Registro)
    requires |p| > 0 && forall j :: 0 <= j < |p| ==> |p[j]| > 0
    ensures Cabecas(p[..|p| - 1] + [Ultimo(p) + [x]]) == Cabecas(p)
  {
    var b := p[..|p| - 1] + [Ultimo(p) + [x]];
    assert forall j :: 0 <= j < |b| ==> b[j][0] == p[j][0];
  }

  /** A new run begun by row `m` keeps the heads sorted. */
  lemma CabecasAnexadas(rs: seq<Registro>, key: Registro -> Chave, p: seq<seq<Registro>>, m: nat)
    requires OrdenadaPor(rs, key) && m < |rs|
    requires CabecasEm(p, rs[..m])
    requires OrdenadaPor(Cabecas(p), key)
    ensures OrdenadaPor(Cabecas(p + [[rs[m]]]), key)
  {
    var hp := Cabecas(p);
    var x := rs[m];
    assert Cabecas(p + [[x]]) == hp + [x];
    forall a | 0 <= a < |hp| ensures !Menor(key(x), key(hp[a])) {
      AnteriorNaoDepois(rs, key, m, p[a][0]);
    }
    AnexarOrdenada(hp, x, key);
  }

  // ---------------------------------------------------------------------------
  // Finalisation and the whole step (unificacao_vigencias.py:92-156)
  // ---------------------------------------------------------------------------

  predicate Datados(rs: seq<Registro>) {
    forall i :: 0 <= i < |rs| ==> Datado(rs[i])
  }

  /** `id_preco` rebuilt from the product and the row's start. */
  function Reidentificar(r: Registro): Registro
    requires Datado(r)
  {
    r.(idPreco := Vigencias.IdPreco(r.idProduto, r.inicio))
  }

  /** Every row gets its price id back from its product and start;
      `bloco_id` is not a column of the result. */
  function Finalizar(rs: seq<Registro>): (r: seq<Registro>)
    requires Datados(rs)
    ensures |r| == |rs|
    ensures forall i :: 0 <= i < |rs| ==> r[i] == Reidentificar(rs[i])
  {
    seq(|rs|, i requires 0 <= i < |rs| && Datados(rs) => Reidentificar(rs[i]))
  }

  /** The runs of the sorted table. */
  function BlocosDe(q: Quadro): seq<seq<Registro>> {
    var rs := Preparar(q.regs);
    Blocos(rs, ColunasVerificadas(q.cols), |rs|)
  }

  lemma PrepararDatadas(rs: seq<Registro>)
    requires Datados(rs)
    ensures Datados(Preparar(rs))
  {
    OrdenarElementos(rs, ChaveProdutoInicio);
    forall i | 0 <= i < |Preparar(rs)| ensures Datado(Preparar(rs)[i]) {
      var x := Preparar(rs)[i];
      assert x in rs;
    }
  }

  lemma AgregarDatadas(rs: seq<Registro>, chk: seq<string>, cols: seq<string>)
    requires Datados(rs)
    ensures Datados(Agregar(rs, chk, cols))
  {
    forall j | 0 <= j < NumBlocos(rs, chk) ensures Datado(Agregar(rs, chk, cols)[j]) {
      AgregarPorBlocos(rs, chk, cols, j);
      CabecaNaTabela(rs, chk, j);
    }
  }

  /** The first row of a run is one of the rows. */
  lemma CabecaNaTabela(rs: seq<Registro>, chk: seq<string>, j: nat)
    requires j < |Blocos(rs, chk, |rs|)|
    ensures Blocos(rs, chk, |rs|)[j][0] in rs
  {
    BlocosAchatar(rs, chk, |rs|);
    EmAchatada(Blocos(rs, chk, |rs|), j, 0);
    assert rs[..|rs|] == rs;
  }

  lemma {:induction false} EmAchatada<T>(b: seq<seq<T>>, j: nat, k: nat)
    requires j < |b| && k < |b[j]|
    ensures b[j][k] in Achatar(b)
  {
    if j < |b| - 1 {
      EmAchatada(b[..|b| - 1], j, k);
      assert b[..|b| - 1][j] == b[j];
    }
  }

  /** Where an element of the concatenation comes from. */
  lemma {:induction false} OrigemAchatada<T>(b: seq<seq<T>>, x: T) returns (j: nat, k: nat)
    requires x in Achatar(b)
    ensures j < |b| && k < |b[j]| && b[j][k] == x
  {
    var p := b[..|b| - 1];
    var u := b[|b| - 1];
    if x in u {
      j := |b| - 1;
      k :| 0 <= k < |u| && u[k] == x;
    } else {
      assert x in Achatar(p);
      j, k := OrigemAchatada(p, x);
      assert p[j] == b[j];
    }
  }

  /** `unificar_vigencias_consecutivas`. */
  function Unificar(q: Quadro): (r: Quadro)
    requires Datados(q.regs)
    ensures r.cols == q.cols
    ensures |r.regs| <= |q.regs|
  {
    var rs := Preparar(q.regs);
    var chk := ColunasVerificadas(q.cols);
    PrepararDatadas(q.regs);
    AgregarDatadas(rs, chk, q.cols);
    Quadro(q.cols, Finalizar(Agregar(rs, chk, q.cols)))
  }

  // ---------------------------------------------------------------------------
  // Properties of the whole step
  // ---------------------------------------------------------------------------

  /** Row `j` of the result is block `j` of the sorted table collapsed: the
      first row's product, start and non-missing cells, the last end that
      is not NaT, and the price id of its product and start. */
  lemma UnificarPorBloco(q: Quadro, r: Quadro, j: nat)
    requires Datados(q.regs) && Unificar(q) == r && j < |r.regs|
    ensures |r.regs| == |BlocosDe(q)| && |BlocosDe(q)[j]| > 0
    ensures var b := BlocosDe(q)[j];
      && r.regs[j].idProduto == b[0].idProduto
      && r.regs[j].inicio == b[0].inicio
      && r.regs[j].fim == UltimoFim(b)
      && r.regs[j].cels == Colapsar(b, q.cols).cels
    ensures Datado(r.regs[j]) && r.regs[j].idPreco == Vigencias.IdPreco(r.regs[j].idProduto, r.regs[j].inicio)
    ensures r.regs[j].cels.Keys == ColSet(q.cols)
  {
    var rs := Preparar(q.regs);
    var chk := ColunasVerificadas(q.cols);
    PrepararDatadas(q.regs);
    AgregarDatadas(rs, chk, q.cols);
    AgregarPorBlocos(rs, chk, q.cols, j);
  }

  /** Two rows that agree on the product and the checked cells change (or
      not) in the same way. */
  lemma MudaCongruente(a: Registro, b: Registro, a2: Registro, b2: Registro, chk: seq<string>)
    requires a.idProduto == a2.idProduto && b.idProduto == b2.idProduto
    requires forall c :: c in chk ==> Get(a.cels, c) == Get(a2.cels, c) && Get(b.cels, c) == Get(b2.cels, c)
    ensures Muda(a, b, chk) == Muda(a2, b2, chk)
  {
  }

  /** Nothing is left to merge: every row of the result changes the
      product or a checked column from the row before it. */
  lemma UnificarMaximal(q: Quadro, r: Quadro)
    requires Datados(q.regs) && Unificar(q) == r
    ensures forall j :: 0 < j < |r.regs| ==> Muda(r.regs[j], r.regs[j - 1], ColunasVerificadas(q.cols))
  {
    forall j | 0 < j < |r.regs| ensures Muda(r.regs[j], r.regs[j - 1], ColunasVerificadas(q.cols)) {
      UnificarMaximalEm(q, r, j);
    }
  }

  lemma UnificarMaximalEm(q: Quadro, r: Quadro, j: nat)
    requires Datados(q.regs) && Unificar(q) == r && 0 < j < |r.regs|
    ensures Muda(r.regs[j], r.regs[j - 1], ColunasVerificadas(q.cols))
  {
    var rs := Preparar(q.regs);
    var chk := ColunasVerificadas(q.cols);
    var b := BlocosDe(q);
    UnificarPorBloco(q, r, j);
    UnificarPorBloco(q, r, j - 1);
    BlocosParticao(rs, chk, |rs|);
    assert Fronteira(b, chk, j);
    ColapsarBloco(b[j], chk, q.cols);
    ColapsarBloco(b[j - 1], chk, q.cols);
    MudaCongruente(r.regs[j], r.regs[j - 1], b[j][0], Ultimo(b[j - 1]), chk);
  }

  /** The result is sorted by product and start. */
  lemma UnificarOrdenada(q: Quadro, r: Quadro)
    requires Datados(q.regs) && Unificar(q) == r
    ensures OrdenadaPor(r.regs, ChaveProdutoInicio)
  {
    var rs := Preparar(q.regs);
    var chk := ColunasVerificadas(q.cols);
    var key: Registro -> Chave := ChaveProdutoInicio;
    var b := BlocosDe(q);
    CabecasOrdenadas(rs, chk, key, |rs|);
    forall j | 0 <= j < |r.regs| ensures key(r.regs[j]) == key(Cabecas(b)[j]) {
      UnificarPorBloco(q, r, j);
    }
    OrdenadaPointwise(r.regs, key, Cabecas(b), key);
  }

  /** Every row read is represented in the result by a row of its product
      with its checked cells. */
  lemma UnificarCobre(q: Quadro, r: Quadro, i: nat) returns (j: nat)
    requires Datados(q.regs) && Unificar(q) == r && i < |q.regs|
    ensures j < |r.regs| && r.regs[j].idProduto == q.regs[i].idProduto
    ensures forall c :: c in ColunasVerificadas(q.cols) ==> Get(r.regs[j].cels, c) == Get(q.regs[i].cels, c)
  {
    var rs := Preparar(q.regs);
    var chk := ColunasVerificadas(q.cols);
    var b := BlocosDe(q);
    var x := q.regs[i];
    OrdenarElementos(q.regs, ChaveProdutoInicio);
    assert x in rs;
    BlocosAchatar(rs, chk, |rs|);
    assert rs[..|rs|] == rs;
    var k;
    j, k := OrigemAchatada(b, x);
    BlocosParticao(rs, chk, |rs|);
    BlocoConstante(b[j], chk, k);
    ColapsarBloco(b[j], chk, q.cols);
    UnificarPorBloco(q, r, j);
  }

  /** With every row a block start, the runs are single rows. */
  lemma {:induction false} BlocosUnitarios(rs: seq<Registro>, chk: seq<string>, n: nat)
    requires n <= |rs| && forall i :: 0 < i < |rs| ==> Muda(rs[i], rs[i - 1], chk)
    ensures |Blocos(rs, chk, n)| == n
    ensures forall i :: 0 <= i < n ==> Blocos(rs, chk, n)[i] == [rs[i]]
  {
    if n > 0 {
      BlocosUnitarios(rs, chk, n - 1);
      BlocosPasso(rs, chk, n);
    }
  }

  /** Merging twice merges nothing more. */
  lemma UnificarIdempotente(q: Quadro, r: Quadro)
    requires Datados(q.regs) && Unificar(q) == r
    ensures Datados(r.regs) && Unificar(r) == r
  {
    ResultadoDatado(q, r);
    UnificarOrdenada(q, r);
    PrepararOrdenada(r.regs);
    ResultadoUnitario(q, r);
    IdempotenteFinal(q, r);
  }

  lemma ResultadoDatado(q: Quadro, r: Quadro)
    requires Datados(q.regs) && Unificar(q) == r
    ensures Datados(r.regs)
  {
    forall j | 0 <= j < |r.regs| ensures Datado(r.regs[j]) {
      UnificarPorBloco(q, r, j);
    }
  }

  /** Read again, the result has one run per row. */
  lemma ResultadoUnitario(q: Quadro, r: Quadro)
    requires Datados(q.regs) && Unificar(q) == r
    ensures |Blocos(r.regs, ColunasVerificadas(r.cols), |r.regs|)| == |r.regs|
    ensures forall i :: 0 <= i < |r.regs| ==> Blocos(r.regs, ColunasVerificadas(r.cols), |r.regs|)[i] == [r.regs[i]]
  {
    UnificarMaximal(q, r);
    BlocosUnitarios(r.regs, ColunasVerificadas(r.cols), |r.regs|);
  }

  lemma IdempotenteFinal(q: Quadro, r: Quadro)
    requires Datados(q.regs) && Unificar(q) == r && Datados(r.regs)
    requires Preparar(r.regs) == r.regs
    requires |Blocos(r.regs, ColunasVerificadas(r.cols), |r.regs|)| == |r.regs|
    requires forall i :: 0 <= i < |r.regs| ==> Blocos(r.regs, ColunasVerificadas(r.cols), |r.regs|)[i] == [r.regs[i]]
    ensures Unificar(r) == r
  {
    forall j | 0 <= j < |r.regs| ensures Unificar(r).regs[j] == r.regs[j] {
      IdempotenteEm(q, r, j);
    }
  }

  lemma IdempotenteEm(q: Quadro, r: Quadro, j: nat)
    requires Datados(q.regs) && Unificar(q) == r && Datados(r.regs) && j < |r.regs|
    requires Preparar(r.regs) == r.regs
    requires |Blocos(r.regs, ColunasVerificadas(r.cols), |r.regs|)| == |r.regs|
    requires forall i :: 0 <= i < |r.regs| ==> Blocos(r.regs, ColunasVerificadas(r.cols), |r.regs|)[i] == [r.regs[i]]
    ensures |Unificar(r).regs| == |r.regs| && Unificar(r).regs[j] == r.regs[j]
  {
    AgregarPorBlocos(r.regs, ColunasVerificadas(r.cols), r.cols, j);
    UnificarPorBloco(q, r, j);
    ColapsarUnitario(r.regs[j], r.cols);
  }
}
