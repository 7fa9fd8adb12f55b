/** Partitioning for the reporting tool
    (`pipelines/nfe/src/nfe_etapa22_particionamento.py`): every row gets a
    stable id, the first 16 characters of a hash of four key fields, with
    "_k" appended to the k-th repeat of an id; groups of columns are moved
    out of the central table into auxiliary tables keyed by that id; and one
    misspelt municipality is corrected. The hash is a parameter; file
    reading and writing are not modelled. */
module Particionamento {
  import opened Wrappers
  import opened Seqs
  import opened Text
  import opened Dates
  import opened Frame

  const Id := "id"
  const Municipio := "municipio"

  // ---------------------------------------------------------------------------
  // The hash id
  // ---------------------------------------------------------------------------

  /** `str(row.get(c, ''))`: a column the row lacks gives empty text. */
  function Campo(r: Row, c: string, repr: Value -> string): string {
    if c in r then Texto(r[c], repr) else ""
  }

  /** The text that is hashed: the note key, the item id, the description
      and the barcode, separated by '|'. */
  function ChaveUnica(r: Row, repr: Value -> string): string {
    Campo(r, "chave_codigo", repr) + "|" + Campo(r, "id_descricao", repr) + "|"
    + Campo(r, "descricao_produto", repr) + "|" + Campo(r, "codigo_ean", repr)
  }

  /** The first 16 characters of the hex digest `md5` gives (Python's slice
      takes the whole text when it is shorter). */
  function IdHash(r: Row, repr: Value -> string, md5: string -> string): (id: string)
    ensures |id| <= 16
    ensures id <= md5(ChaveUnica(r, repr))
    ensures (forall j :: 0 <= j < |md5(ChaveUnica(r, repr))| ==> md5(ChaveUnica(r, repr))[j] != '_') ==> '_' !in id
  {
    var h := md5(ChaveUnica(r, repr));
    if |h| <= 16 then h else h[..16]
  }

  /** Rows that agree on the four key fields get the same id, whatever
      else they hold: the id is stable across runs and loads. */
  lemma IdEstavel(a: Row, b: Row, repr: Value -> string, md5: string -> string)
    requires forall c :: c in ["chave_codigo", "id_descricao", "descricao_produto", "codigo_ean"] ==>
               (c in a <==> c in b) && (c in a ==> a[c] == b[c])
    ensures IdHash(a, repr, md5) == IdHash(b, repr, md5)
  {
    assert Campo(a, "chave_codigo", repr) == Campo(b, "chave_codigo", repr);
    assert Campo(a, "id_descricao", repr) == Campo(b, "id_descricao", repr);
    assert Campo(a, "descricao_produto", repr) == Campo(b, "descricao_produto", repr);
    assert Campo(a, "codigo_ean", repr) == Campo(b, "codigo_ean", repr);
  }

  // ---------------------------------------------------------------------------
  // Duplicate ids
  // ---------------------------------------------------------------------------

  /** How many times `x` occurs in `s`. */
  function Ocorrencias(s: seq<string>, x: string): nat {
    if |s| == 0 then 0 else Ocorrencias(s[..|s| - 1], x) + (if s[|s| - 1] == x then 1 else 0)
  }

  /** `groupby('id').cumcount()`: how many earlier rows carry the id of row
      `i`. */
  function Anteriores(ids: seq<string>, i: nat): nat
    requires i < |ids|
  {
    Ocorrencias(ids[..i], ids[i])
  }

  /** The id of row `i` after suffixing: the first occurrence keeps its
      id, the k-th repeat gets "_k". */
  function Sufixado(ids: seq<string>, i: nat): string
    requires i < |ids|
  {
    var k := Anteriores(ids, i);
    if k == 0 then ids[i] else ids[i] + "_" + NatText(k)
  }

  /** The suffixing of `preparar_dataframe`, done only when some id
      repeats. */
  function Sufixar(ids: seq<string>): (r: seq<string>)
    ensures |r| == |ids|
    ensures forall i :: 0 <= i < |ids| ==> r[i] == Sufixado(ids, i)
  {
    if NoDup(ids) then
      SemRepeticao(ids);
      ids
    else seq(|ids|, i requires 0 <= i < |ids| => Sufixado(ids, i))
  }

  /** Without a repeated id no row has an earlier twin, so skipping the
      suffixing when nothing repeats changes nothing. */
  lemma SemRepeticao(ids: seq<string>)
    requires NoDup(ids)
    ensures forall i :: 0 <= i < |ids| ==> Sufixado(ids, i) == ids[i]
  {
    forall i | 0 <= i < |ids| ensures Anteriores(ids, i) == 0 {
      Ausente(ids[..i], ids[i]);
    }
  }

  lemma {:induction false} Ausente(s: seq<string>, x: string)
    requires x !in s
    ensures Ocorrencias(s, x) == 0
  {
    if |s| > 0 {
      Ausente(s[..|s| - 1], x);
    }
  }

  /** A later twin has seen at least one more occurrence. */
  lemma {:induction false} OcorrenciasCrescem(s: seq<string>, i: nat, j: nat)
    requires i < j <= |s|
    ensures Ocorrencias(s[..j], s[i]) >= Ocorrencias(s[..i], s[i]) + 1
    decreases j
  {
    if j == i + 1 {
      assert s[..j][..i] == s[..i];
    } else {
      OcorrenciasCrescem(s, i, j - 1);
      assert s[..j][..j - 1] == s[..j - 1];
    }
  }

  /** Text made of a part without '_', one '_' and a part without '_' is
      split there in only one way. */
  lemma UmSublinhado(a: string, b: string, c: string, d: string)
    requires '_' !in a && '_' !in b && '_' !in c && '_' !in d
    requires a + "_" + b == c + "_" + d
    ensures a == c && b == d
  {
    var x := a + "_" + b;
    assert x[|a|] == '_' && (c + "_" + d)[|c|] == '_';
    assert forall k :: 0 <= k < |a| ==> x[k] == a[k];
    assert forall k :: 0 <= k < |c| ==> x[k] == c[k];
    assert a == x[..|a|] && c == x[..|c|];
    assert b == x[|a| + 1..] && d == x[|c| + 1..];
  }

  lemma DigitosSemSublinhado(n: nat)
    ensures '_' !in NatText(n)
  {
    var t := NatText(n);
    assert forall j :: 0 <= j < |t| ==> IsDigit(t[j]);
  }

  /** When no hash contains '_' (hex digests never do) the suffixed ids are
      all different: a repeat's suffix tells it apart from the first
      occurrence and from every other repeat. */
  lemma SufixarUnicos(ids: seq<string>)
    requires forall i :: 0 <= i < |ids| ==> '_' !in ids[i]
    ensures NoDup(Sufixar(ids))
  {
    var r := Sufixar(ids);
    forall i, j | 0 <= i < j < |ids| ensures r[i] != r[j] {
      DistintosSufixados(ids, i, j);
    }
  }

  lemma DistintosSufixados(ids: seq<string>, i: nat, j: nat)
    requires forall i :: 0 <= i < |ids| ==> '_' !in ids[i]
    requires i < j < |ids|
    ensures Sufixado(ids, i) != Sufixado(ids, j)
  {
    var ki := Anteriores(ids, i);
    var kj := Anteriores(ids, j);
    DigitosSemSublinhado(ki);
    DigitosSemSublinhado(kj);
    if ids[i] == ids[j] {
      OcorrenciasCrescem(ids, i, j);
      assert kj > ki;
      if ki > 0 && ids[i] + "_" + NatText(ki) == ids[j] + "_" + NatText(kj) {
        UmSublinhado(ids[i], NatText(ki), ids[j], NatText(kj));
        NatTextRoundTrip(ki);
        NatTextRoundTrip(kj);
      }
      assert (ids[j] + "_" + NatText(kj))[|ids[j]|] == '_';
    } else if ki > 0 && kj > 0 && ids[i] + "_" + NatText(ki) == ids[j] + "_" + NatText(kj) {
      UmSublinhado(ids[i], NatText(ki), ids[j], NatText(kj));
    } else if ki > 0 && kj == 0 {
      assert (ids[i] + "_" + NatText(ki))[|ids[i]|] == '_';
    } else if ki == 0 && kj > 0 {
      assert (ids[j] + "_" + NatText(kj))[|ids[j]|] == '_';
    }
  }

  // ---------------------------------------------------------------------------
  // preparar_dataframe
  // ---------------------------------------------------------------------------

  /** `df["id"] = ids`, the ids given row by row. */
  function ComIds(t: Table, ids: seq<string>): (r: Table)
    requires WellFormed(t) && |ids| == |t.rows|
    ensures WellFormed(r) && |r.rows| == |t.rows|
    ensures Id in t.cols ==> r.cols == t.cols
    ensures Id !in t.cols ==> r.cols == t.cols + [Id]
    ensures forall i :: 0 <= i < |t.rows| ==> Get(r.rows[i], Id) == Str(ids[i])
    ensures forall i, c :: 0 <= i < |t.rows| && c != Id ==> Get(r.rows[i], c) == Get(t.rows[i], c)
  {
    var cols := if Id in t.cols then t.cols else t.cols + [Id];
    assert ColSet(cols) == ColSet(t.cols) + {Id};
    Table(cols, seq(|t.rows|, i requires 0 <= i < |t.rows| => t.rows[i][Id := Str(ids[i])]))
  }

  /** The hash id of every row, before suffixing. */
  function IdsHash(t: Table, repr: Value -> string, md5: string -> string): (ids: seq<string>)
    ensures |ids| == |t.rows|
    ensures forall i :: 0 <= i < |t.rows| ==> ids[i] == IdHash(t.rows[i], repr, md5)
  {
    seq(|t.rows|, i requires 0 <= i < |t.rows| => IdHash(t.rows[i], repr, md5))
  }

  function ColunaNumerica(c: string, numerico: Value -> Value): Row -> Value {
    (r: Row) => numerico(Get(r, c))
  }

  /** `pd.to_numeric(errors="coerce")` (the parameter `numerico`) on a
      column the frame has. */
  function Numerica(t: Table, c: string, numerico: Value -> Value): (r: Table)
    requires WellFormed(t)
    ensures WellFormed(r) && r.cols == t.cols && |r.rows| == |t.rows|
    ensures forall i, d :: 0 <= i < |t.rows| && d != c ==> Get(r.rows[i], d) == Get(t.rows[i], d)
  {
    if c in t.cols then SetCol(t, c, ColunaNumerica(c, numerico)) else t
  }

  /** Every hex digit of a digest is a digit or a letter, never '_'. */
  ghost predicate SemSublinhado(md5: string -> string) {
    forall x: string, j :: 0 <= j < |md5(x)| ==> md5(x)[j] != '_'
  }

  /** `preparar_dataframe`: the id column holds the suffixed hash ids, the
      two adjusted value columns are made numeric, and nothing else
      changes. */
  function Preparar(t: Table, repr: Value -> string, md5: string -> string, numerico: Value -> Value): (r: Table)
    requires WellFormed(t)
    ensures WellFormed(r) && |r.rows| == |t.rows| && Id in r.cols
    ensures forall c :: c in r.cols <==> c in t.cols || c == Id
    ensures var ids := IdsHash(t, repr, md5);
            forall i :: 0 <= i < |t.rows| ==> Get(r.rows[i], Id) == Str(Sufixado(ids, i))
    ensures forall i, c :: 0 <= i < |t.rows| && c != Id && c != "valor_produtos_ajustado" && c != "valor_unitario_ajustado" ==>
              Get(r.rows[i], c) == Get(t.rows[i], c)
  {
    var u := ComIds(t, Sufixar(IdsHash(t, repr, md5)));
    Numerica(Numerica(u, "valor_produtos_ajustado", numerico), "valor_unitario_ajustado", numerico)
  }

  /** With a digest that never holds '_', every row ends with its own id. */
  lemma PrepararUnicos(t: Table, repr: Value -> string, md5: string -> string, numerico: Value -> Value)
    requires WellFormed(t) && SemSublinhado(md5)
    ensures var r := Preparar(t, repr, md5, numerico);
            forall i, j :: 0 <= i < j < |r.rows| ==> Get(r.rows[i], Id) != Get(r.rows[j], Id)
  {
    var ids := IdsHash(t, repr, md5);
    SufixarUnicos(ids);
  }

  // ---------------------------------------------------------------------------
  // extrair_tabelas
  // ---------------------------------------------------------------------------

  /** One auxiliary table: its file name and its rows. */
  datatype Auxiliar = Auxiliar(nome: string, tabela: Table)

  /** The central table left after the extraction and the auxiliary
      tables, in the order of their specification. */
  datatype Particao = Particao(central: Table, auxiliares: seq<Auxiliar>)

  /** A specification `(file name, columns)` of `TABELAS_A_CRIAR`. */
  type Spec = (string, seq<string>)

  /** `TABELAS_A_CRIAR`, in its order. */
  function TabelasACriar(): seq<Spec> {
    [("df_dosagem.csv", ["QUANTIDADE MG", "QUANTIDADE ML", "QUANTIDADE UI"]),
     ("df_registro_anvisa.csv", ["REGISTRO"]),
     ("df_entidades.csv", ["cpf_cnpj", "razao_social_destinatario", "nome_fantasia_destinatario",
                           "cpf_cnpj_emitente", "razao_social_emitente", "nome_fantasia_emitente"]),
     ("df_valores_ajustados.csv", ["valor_produtos_ajustado", "valor_unitario_ajustado"]),
     ("df_eans.csv", ["EAN_1", "EAN_2", "EAN_3"])]
  }

  /** The column lists have no repeats and never list the id. */
  predicate SpecsValidas(specs: seq<Spec>) {
    forall k :: 0 <= k < |specs| ==> NoDup(specs[k].1) && Id !in specs[k].1
  }

  /** The column is listed by some specification. */
  predicate Listada(specs: seq<Spec>, c: string) {
    exists k :: 0 <= k < |specs| && c in specs[k].1
  }

  function Tem(a: seq<string>): string -> bool { (c: string) => c in a }

  /** `[col for col in colunas if col in df_central.columns]`. */
  function Existentes(cols: seq<string>, t: Table): (r: seq<string>)
    requires NoDup(cols)
    ensures NoDup(r)
    ensures forall c :: c in r <==> c in cols && c in t.cols
  {
    FilterNoDup(cols, Tem(t.cols));
    Filter(cols, Tem(t.cols))
  }

  /** Some of the columns `cols` holds a value in the row. */
  predicate AlgumValor(r: Row, cols: seq<string>) {
    exists c :: c in cols && Get(r, c) != Null
  }

  function ComValor(cols: seq<string>): Row -> bool { (r: Row) => AlgumValor(r, cols) }

  /** The row read through the columns `cols` only. */
  predicate Projecao(row: Row, orig: Row, cols: seq<string>) {
    forall c :: c in cols ==> Get(row, c) == Get(orig, c)
  }

  /** Some row of `t` read through `cols` is `row`. */
  predicate TemOrigem(row: Row, t: Table, cols: seq<string>) {
    exists j :: 0 <= j < |t.rows| && Projecao(row, t.rows[j], cols)
  }

  /** `df_central[["id"] + cols]`, rows with every listed column missing
      dropped, then exact duplicate rows dropped. Every row of the result
      is a row of the frame read through the id and `cols`, holds a value
      in one of `cols`, and appears once; every row of the frame with a
      value in one of `cols` is represented. */
  function Subconjunto(t: Table, cols: seq<string>): (r: Table)
    requires WellFormed(t) && Id in t.cols && NoDup(cols) && Id !in cols
    requires forall c :: c in cols ==> c in t.cols
    ensures WellFormed(r) && r.cols == [Id] + cols && |r.rows| <= |t.rows|
    ensures NoDup(r.rows)
    ensures forall i :: 0 <= i < |r.rows| ==> AlgumValor(r.rows[i], cols)
    ensures forall i :: 0 <= i < |r.rows| ==> TemOrigem(r.rows[i], t, [Id] + cols)
    ensures forall j :: 0 <= j < |t.rows| && AlgumValor(t.rows[j], cols) ==>
              exists i :: 0 <= i < |r.rows| && Projecao(r.rows[i], t.rows[j], [Id] + cols)
  {
    var schema := [Id] + cols;
    var p := Reindex(t, schema);
    var f := Filter(p.rows, ComValor(cols));
    var d := Distinct(f);
    SubconjuntoFatos(t, cols, p, f, d);
    Table(schema, d)
  }

  lemma SubconjuntoFatos(t: Table, cols: seq<string>, p: Table, f: seq<Row>, d: seq<Row>)
    requires WellFormed(t) && Id in t.cols && NoDup(cols) && Id !in cols
    requires p == Reindex(t, [Id] + cols) && f == Filter(p.rows, ComValor(cols)) && d == Distinct(f)
    ensures WellFormed(Table([Id] + cols, d)) && |d| <= |t.rows|
    ensures forall i :: 0 <= i < |d| ==> AlgumValor(d[i], cols)
    ensures forall i :: 0 <= i < |d| ==> TemOrigem(d[i], t, [Id] + cols)
    ensures forall j :: 0 <= j < |t.rows| && AlgumValor(t.rows[j], cols) ==>
              exists i :: 0 <= i < |d| && Projecao(d[i], t.rows[j], [Id] + cols)
  {
    DistinctLen(f);
    assert forall i :: 0 <= i < |d| ==> d[i] in f;
    SubconjuntoOrigem(t, [Id] + cols, p, d);
    SubconjuntoCompleto(t, cols, p, f, d);
  }

  /** Every kept row is a row of the frame read through the schema. */
  lemma SubconjuntoOrigem(t: Table, schema: seq<string>, p: Table, d: seq<Row>)
    requires NoDup(schema) && p == Reindex(t, schema)
    requires forall i :: 0 <= i < |d| ==> d[i] in p.rows
    ensures forall i :: 0 <= i < |d| ==> TemOrigem(d[i], t, schema)
  {
    forall i | 0 <= i < |d| ensures TemOrigem(d[i], t, schema) {
      var j := UmaOrigem(t, schema, p, d[i]);
    }
  }

  lemma UmaOrigem(t: Table, schema: seq<string>, p: Table, x: Row) returns (j: nat)
    requires NoDup(schema) && p == Reindex(t, schema) && x in p.rows
    ensures j < |t.rows| && Projecao(x, t.rows[j], schema)
  {
    j :| 0 <= j < |p.rows| && p.rows[j] == x;
    forall c | c in schema ensures Get(x, c) == Get(t.rows[j], c) {
      assert p.rows[j].Keys == ColSet(schema);
    }
  }

  /** Every row of the frame with a value in one of the columns is kept. */
  lemma SubconjuntoCompleto(t: Table, cols: seq<string>, p: Table, f: seq<Row>, d: seq<Row>)
    requires NoDup([Id] + cols) && p == Reindex(t, [Id] + cols) && f == Filter(p.rows, ComValor(cols))
    requires forall x :: x in d <==> x in f
    ensures forall j :: 0 <= j < |t.rows| && AlgumValor(t.rows[j], cols) ==>
              exists i :: 0 <= i < |d| && Projecao(d[i], t.rows[j], [Id] + cols)
  {
    var schema := [Id] + cols;
    forall j | 0 <= j < |t.rows| && AlgumValor(t.rows[j], cols)
      ensures exists i :: 0 <= i < |d| && Projecao(d[i], t.rows[j], schema)
    {
      var c :| c in cols && Get(t.rows[j], c) != Null;
      assert Get(p.rows[j], c) != Null;
      assert ComValor(cols)(p.rows[j]);
      assert p.rows[j] in d;
      var i :| 0 <= i < |d| && d[i] == p.rows[j];
      assert Projecao(d[i], t.rows[j], schema);
    }
  }

  lemma {:induction false} DistinctLen<T(!new)>(s: seq<T>)
    ensures |Distinct(s)| <= |s|
  {
    if |s| > 0 {
      DistinctLen(s[..|s| - 1]);
    }
  }

  /** Some listed column exists in the frame. */
  predicate AlgumaExiste(specs: seq<Spec>, t: Table) {
    exists k, c :: 0 <= k < |specs| && c in specs[k].1 && c in t.cols
  }

  /** What one specification leaves: the central table and the auxiliary
      table made from it (none when the specification is skipped). */
  datatype Passo = Passo(central: Table, feitas: seq<Auxiliar>)

  /** One turn of the loop of `extrair_tabelas`: the listed columns the
      central table has are copied with the id into an auxiliary table and
      removed from the central table; without any of them the turn is
      skipped and nothing changes. Copying needs the id column (pandas'
      `KeyError` otherwise). */
  function UmPasso(t: Table, spec: Spec): (r: Result<Passo>)
    requires WellFormed(t) && NoDup(spec.1) && Id !in spec.1
    ensures r.Err? <==> Id !in t.cols && exists c :: c in spec.1 && c in t.cols
    ensures r.Ok? ==> WellFormed(r.value.central) && |r.value.central.rows| == |t.rows| && |r.value.feitas| <= 1
    ensures r.Ok? ==> forall c :: c in r.value.central.cols <==> c in t.cols && c !in spec.1
    ensures r.Ok? ==> forall i, c :: 0 <= i < |t.rows| && c !in spec.1 ==> Get(r.value.central.rows[i], c) == Get(t.rows[i], c)
    ensures (forall c :: c in spec.1 ==> c !in t.cols) ==> r == Ok(Passo(t, []))
  {
    var ex := Existentes(spec.1, t);
    if |ex| == 0 then Ok(Passo(t, []))
    else if Id !in t.cols then
      assert ex[0] in spec.1 && ex[0] in t.cols;
      Err(KeyError(Id))
    else
      DropGet(t, Tem(ex));
      Ok(Passo(DropCols(t, Tem(ex)), [Auxiliar(spec.0, Subconjunto(t, ex))]))
  }

  /** `extrair_tabelas` without the file writing: the specifications in
      their order, each on the central table the previous ones left. The
      id column is needed as soon as one listed column exists. The central
      table ends with exactly its unlisted columns, their cells untouched,
      and a frame without any listed column comes back as it is with no
      auxiliary table. */
  function Extrair(t: Table, specs: seq<Spec>): (r: Result<Particao>)
    requires WellFormed(t) && SpecsValidas(specs)
    ensures r.Err? <==> Id !in t.cols && AlgumaExiste(specs, t)
    ensures r.Ok? ==> WellFormed(r.value.central) && |r.value.central.rows| == |t.rows|
    ensures r.Ok? ==> forall c :: c in r.value.central.cols <==> c in t.cols && !Listada(specs, c)
    ensures r.Ok? ==> forall i, c :: 0 <= i < |t.rows| && !Listada(specs, c) ==>
              Get(r.value.central.rows[i], c) == Get(t.rows[i], c)
    ensures !AlgumaExiste(specs, t) ==> r == Ok(Particao(t, []))
    decreases |specs|
  {
    if |specs| == 0 then Ok(Particao(t, []))
    else
      ListadaCabeca(specs, t);
      assert !AlgumaExiste(specs, t) ==> forall c :: c in specs[0].1 ==> c !in t.cols;
      match UmPasso(t, specs[0])
      case Err(e) => Err(e)
      case Ok(p) =>
        match Extrair(p.central, specs[1..])
        case Err(e) =>
          ErroDoCorte(t, specs, p.central, true);
          Err(e)
        case Ok(q) =>
          ErroDoCorte(t, specs, p.central, false);
          CorteComposto(t, specs, p.central, q.central);
          assert p.feitas == [] && q.auxiliares == [] ==> p.feitas + q.auxiliares == [];
          Ok(Particao(q.central, p.feitas + q.auxiliares))
  }

  /** The rest of the specifications fail on the table the first one
      left exactly when the whole list fails on the frame. */
  lemma ErroDoCorte(t: Table, specs: seq<Spec>, m: Table, falha: bool)
    requires |specs| > 0 && Id !in specs[0].1
    requires AlgumaExiste(specs, t) <==> (exists c :: c in specs[0].1 && c in t.cols) || AlgumaExiste(specs[1..], t)
    requires !(Id !in t.cols && exists c :: c in specs[0].1 && c in t.cols)
    requires forall c :: c in m.cols <==> c in t.cols && c !in specs[0].1
    requires (forall c :: c in specs[0].1 ==> c !in t.cols) ==> m == t
    requires falha <==> Id !in m.cols && AlgumaExiste(specs[1..], m)
    ensures falha <==> Id !in t.cols && AlgumaExiste(specs, t)
  {
  }

  /** The central table after the first specification and then the rest
      is the central table after all of them. */
  lemma CorteComposto(t: Table, specs: seq<Spec>, m: Table, u: Table)
    requires |specs| > 0
    requires forall c :: Listada(specs, c) <==> c in specs[0].1 || Listada(specs[1..], c)
    requires |m.rows| == |t.rows| && forall c :: c in m.cols <==> c in t.cols && c !in specs[0].1
    requires forall i, c :: 0 <= i < |t.rows| && c !in specs[0].1 ==> Get(m.rows[i], c) == Get(t.rows[i], c)
    requires |u.rows| == |m.rows| && forall c :: c in u.cols <==> c in m.cols && !Listada(specs[1..], c)
    requires forall i, c :: 0 <= i < |m.rows| && !Listada(specs[1..], c) ==> Get(u.rows[i], c) == Get(m.rows[i], c)
    ensures |u.rows| == |t.rows| && forall c :: c in u.cols <==> c in t.cols && !Listada(specs, c)
    ensures forall i, c :: 0 <= i < |t.rows| && !Listada(specs, c) ==> Get(u.rows[i], c) == Get(t.rows[i], c)
  {
  }

  /** How the listing of the whole specification splits into its head and
      its tail. */
  lemma ListadaCabeca(specs: seq<Spec>, t: Table)
    requires |specs| > 0
    ensures forall c :: Listada(specs, c) <==> c in specs[0].1 || Listada(specs[1..], c)
    ensures AlgumaExiste(specs, t) <==> (exists c :: c in specs[0].1 && c in t.cols) || AlgumaExiste(specs[1..], t)
  {
    forall c | Listada(specs, c) ensures c in specs[0].1 || Listada(specs[1..], c) {
      var k :| 0 <= k < |specs| && c in specs[k].1;
      if k > 0 {
        assert specs[1..][k - 1] == specs[k];
      }
    }
    forall c | Listada(specs[1..], c) ensures Listada(specs, c) {
      var k :| 0 <= k < |specs| - 1 && c in specs[1..][k].1;
      assert specs[k + 1] == specs[1..][k];
    }
    if AlgumaExiste(specs, t) {
      var k, c :| 0 <= k < |specs| && c in specs[k].1 && c in t.cols;
      if k > 0 {
        assert specs[1..][k - 1] == specs[k];
      }
    }
    if AlgumaExiste(specs[1..], t) {
      var k, c :| 0 <= k < |specs| - 1 && c in specs[1..][k].1 && c in t.cols;
      assert specs[k + 1] == specs[1..][k];
    }
  }

  // ---------------------------------------------------------------------------
  // The auxiliary tables
  // ---------------------------------------------------------------------------

  /** What an auxiliary table is with respect to the frame `t` it was cut
      from: id first, columns of `t` only, no repeated row, and every row
      some row of `t` read through its columns. */
  predicate AuxiliarValida(a: Auxiliar, t: Table) {
    WellFormed(a.tabela) && |a.tabela.cols| > 0 && a.tabela.cols[0] == Id
    && (forall c :: c in a.tabela.cols ==> c in t.cols)
    && NoDup(a.tabela.rows)
    && forall i :: 0 <= i < |a.tabela.rows| ==> TemOrigem(a.tabela.rows[i], t, a.tabela.cols)
  }

  /** An auxiliary table cut from a later central table `u` is one of the
      frame `t` too: `u` keeps the cells of `t` outside `fora`, and has no
      column of `fora`. */
  lemma Transferir(a: Auxiliar, u: Table, t: Table, fora: seq<string>)
    requires AuxiliarValida(a, u) && |u.rows| == |t.rows|
    requires forall c :: c in u.cols ==> c in t.cols && c !in fora
    requires forall i, c :: 0 <= i < |t.rows| && c !in fora ==> Get(u.rows[i], c) == Get(t.rows[i], c)
    ensures AuxiliarValida(a, t)
  {
    var x := a.tabela;
    forall i | 0 <= i < |x.rows| ensures TemOrigem(x.rows[i], t, x.cols) {
      var j :| 0 <= j < |u.rows| && Projecao(x.rows[i], u.rows[j], x.cols);
      assert Projecao(x.rows[i], t.rows[j], x.cols);
    }
  }

  /** The table one specification makes is valid, and its columns are
      listed by that specification. */
  lemma PassoValido(t: Table, spec: Spec)
    requires WellFormed(t) && NoDup(spec.1) && Id !in spec.1
    ensures var r := UmPasso(t, spec);
            r.Ok? ==> forall k :: 0 <= k < |r.value.feitas| ==>
              AuxiliarValida(r.value.feitas[k], t)
              && r.value.feitas[k].nome == spec.0
              && forall c :: c in r.value.feitas[k].tabela.cols && c != Id ==> c in spec.1
  {
  }

  /** Each of the tables is valid for the frame `t` and holds only columns
      some specification lists. */
  predicate AuxiliaresDe(aux: seq<Auxiliar>, t: Table, specs: seq<Spec>) {
    forall k :: 0 <= k < |aux| ==>
      AuxiliarValida(aux[k], t) && forall c :: c in aux[k].tabela.cols && c != Id ==> Listada(specs, c)
  }

  /** `extrair_tabelas`' auxiliary tables: each is valid for the input
      frame, and holds only columns some specification lists. */
  lemma {:induction false} ExtrairAuxiliares(t: Table, specs: seq<Spec>)
    requires WellFormed(t) && SpecsValidas(specs)
    ensures var r := Extrair(t, specs);
            r.Ok? ==> forall k :: 0 <= k < |r.value.auxiliares| ==>
              AuxiliarValida(r.value.auxiliares[k], t)
              && forall c :: c in r.value.auxiliares[k].tabela.cols && c != Id ==> Listada(specs, c)
    decreases |specs|
  {
    if |specs| > 0 {
      match UmPasso(t, specs[0])
      case Err(_) =>
      case Ok(p) =>
        ExtrairAuxiliares(p.central, specs[1..]);
        match Extrair(p.central, specs[1..])
        case Err(_) =>
        case Ok(q) =>
          ExtrairCabeca(t, specs, p, q);
          ExtrairAuxiliaresPasso(t, specs, p, q.auxiliares);
    }
  }

  /** The step of `ExtrairAuxiliares`: the first specification's tables
      followed by those the rest cut from the central table it left. */
  lemma ExtrairAuxiliaresPasso(t: Table, specs: seq<Spec>, p: Passo, resto: seq<Auxiliar>)
    requires WellFormed(t) && SpecsValidas(specs) && |specs| > 0
    requires UmPasso(t, specs[0]) == Ok(p)
    requires AuxiliaresDe(resto, p.central, specs[1..])
    ensures AuxiliaresDe(p.feitas + resto, t, specs)
  {
    ListadaCabeca(specs, t);
    PassoValido(t, specs[0]);
    Juntar(t, specs, p, resto);
  }

  lemma ExtrairCabeca(t: Table, specs: seq<Spec>, p: Passo, q: Particao)
    requires WellFormed(t) && SpecsValidas(specs) && |specs| > 0
    requires UmPasso(t, specs[0]) == Ok(p)
    requires WellFormed(p.central) && Extrair(p.central, specs[1..]) == Ok(q)
    ensures Extrair(t, specs) == Ok(Particao(q.central, p.feitas + q.auxiliares))
  {
  }

  /** The auxiliary tables of the first specification followed by those of
      the rest, cut from the central table the first one left. */
  lemma Juntar(t: Table, specs: seq<Spec>, p: Passo, resto: seq<Auxiliar>)
    requires WellFormed(t) && |specs| > 0 && |p.central.rows| == |t.rows|
    requires forall c :: Listada(specs, c) <==> c in specs[0].1 || Listada(specs[1..], c)
    requires forall c :: c in p.central.cols ==> c in t.cols && c !in specs[0].1
    requires forall i, c :: 0 <= i < |t.rows| && c !in specs[0].1 ==> Get(p.central.rows[i], c) == Get(t.rows[i], c)
    requires forall k :: 0 <= k < |p.feitas| ==>
               AuxiliarValida(p.feitas[k], t) && forall c :: c in p.feitas[k].tabela.cols && c != Id ==> c in specs[0].1
    requires forall k :: 0 <= k < |resto| ==>
               AuxiliarValida(resto[k], p.central) && forall c :: c in resto[k].tabela.cols && c != Id ==> Listada(specs[1..], c)
    ensures var todas := p.feitas + resto;
            forall k :: 0 <= k < |todas| ==>
              AuxiliarValida(todas[k], t) && forall c :: c in todas[k].tabela.cols && c != Id ==> Listada(specs, c)
  {
    var todas := p.feitas + resto;
    forall k | 0 <= k < |todas|
      ensures AuxiliarValida(todas[k], t)
      ensures forall c :: c in todas[k].tabela.cols && c != Id ==> Listada(specs, c)
    {
      if k >= |p.feitas| {
        assert todas[k] == resto[k - |p.feitas|];
        Transferir(todas[k], p.central, t, specs[0].1);
      }
    }
  }

  // ---------------------------------------------------------------------------
  // ajustar_municipio
  // ---------------------------------------------------------------------------

  const Teresinha := "SANTA TERESINHA"
  const Terezinha := "SANTA TEREZINHA"

  /** The spelling fix of one municipality cell: only the text
      "SANTA TERESINHA" changes, and it becomes "SANTA TEREZINHA". */
  function Corrigir(v: Value): (r: Value)
    ensures r != Str(Teresinha)
    ensures v != Str(Teresinha) ==> r == v
  {
    if v == Str(Teresinha) then Str(Terezinha) else v
  }

  function ColunaMunicipio(r: Row): Value { Corrigir(Get(r, Municipio)) }

  /** `ajustar_municipio`: a frame without the column comes back as it is;
      otherwise no cell of the column reads "SANTA TERESINHA" any more, the
      cells that did read "SANTA TEREZINHA", and every other cell stays. */
  function AjustarMunicipio(t: Table): (r: Table)
    requires WellFormed(t)
    ensures WellFormed(r) && r.cols == t.cols && |r.rows| == |t.rows|
    ensures Municipio !in t.cols ==> r == t
    ensures forall i :: 0 <= i < |t.rows| ==> Get(r.rows[i], Municipio) != Str(Teresinha)
    ensures Municipio in t.cols ==> forall i :: 0 <= i < |t.rows| && Get(t.rows[i], Municipio) == Str(Teresinha) ==>
              Get(r.rows[i], Municipio) == Str(Terezinha)
    ensures forall i, c :: 0 <= i < |t.rows| && (c != Municipio || Get(t.rows[i], c) != Str(Teresinha)) ==>
              Get(r.rows[i], c) == Get(t.rows[i], c)
  {
    if Municipio in t.cols then SetCol(t, Municipio, ColunaMunicipio) else t
  }

  /** Fixing the spelling twice fixes it once. */
  lemma AjustarIdempotente(t: Table)
    requires WellFormed(t)
    ensures AjustarMunicipio(AjustarMunicipio(t)) == AjustarMunicipio(t)
  {
    var r := AjustarMunicipio(t);
    var r2 := AjustarMunicipio(r);
    forall i | 0 <= i < |r2.rows| ensures r2.rows[i] == r.rows[i] {
      SameRow(r2, r, i);
    }
  }

  // ---------------------------------------------------------------------------
  // The stage
  // ---------------------------------------------------------------------------

  /** The specification list meets what `extrair_tabelas` needs. */
  lemma TabelasValidas()
    ensures SpecsValidas(TabelasACriar())
  {
    var specs := TabelasACriar();
    forall k | 0 <= k < |specs| ensures NoDup(specs[k].1) && Id !in specs[k].1 {
    }
  }

  /** `main` without the files: the frame is prepared, cut into the central
      table and the auxiliary tables of `TABELAS_A_CRIAR`, and the central
      table has its municipality spelling fixed. The id column the
      preparation adds means the cut never fails. The central table keeps
      one row per input row and exactly the unlisted columns. */
  function Particionar(t: Table, repr: Value -> string, md5: string -> string, numerico: Value -> Value): (r: Particao)
    requires WellFormed(t)
    ensures WellFormed(r.central) && |r.central.rows| == |t.rows| && Id in r.central.cols
    ensures ColunasCentrais(t, r.central, TabelasACriar())
    ensures forall i :: 0 <= i < |t.rows| ==> Get(r.central.rows[i], Municipio) != Str(Teresinha)
    ensures forall k :: 0 <= k < |r.auxiliares| ==>
              AuxiliarValida(r.auxiliares[k], Preparar(t, repr, md5, numerico))
  {
    TabelasValidas();
    ParticionarCom(t, TabelasACriar(), repr, md5, numerico)
  }

  /** The central table has the id and the input's columns, less those some
      specification lists. */
  ghost predicate ColunasCentrais(t: Table, central: Table, specs: seq<Spec>) {
    forall c :: c in central.cols <==> (c in t.cols || c == Id) && !Listada(specs, c)
  }

  /** The same cut for any valid list of specifications. */
  function ParticionarCom(t: Table, specs: seq<Spec>, repr: Value -> string, md5: string -> string,
                          numerico: Value -> Value): (r: Particao)
    requires WellFormed(t) && SpecsValidas(specs)
    ensures WellFormed(r.central) && |r.central.rows| == |t.rows| && Id in r.central.cols
    ensures ColunasCentrais(t, r.central, specs)
    ensures forall i :: 0 <= i < |t.rows| ==> Get(r.central.rows[i], Municipio) != Str(Teresinha)
    ensures forall k :: 0 <= k < |r.auxiliares| ==>
              AuxiliarValida(r.auxiliares[k], Preparar(t, repr, md5, numerico))
  {
    var u := Preparar(t, repr, md5, numerico);
    var p := Extrair(u, specs).value;
    AuxiliaresValidas(u, specs, p);
    ColunasDoCorte(t.cols, u, p.central, AjustarMunicipio(p.central), specs);
    Particao(AjustarMunicipio(p.central), p.auxiliares)
  }

  /** The auxiliary tables of a successful cut are valid for the frame cut. */
  lemma AuxiliaresValidas(u: Table, specs: seq<Spec>, p: Particao)
    requires WellFormed(u) && SpecsValidas(specs) && Extrair(u, specs) == Ok(p)
    ensures forall k :: 0 <= k < |p.auxiliares| ==> AuxiliarValida(p.auxiliares[k], u)
  {
    ExtrairAuxiliares(u, specs);
  }

  /** The columns left after preparing, cutting and fixing the spelling:
      the input's and the id, less the listed ones. */
  lemma ColunasDoCorte(cols: seq<string>, u: Table, central: Table, ajustada: Table, specs: seq<Spec>)
    requires forall c :: c in u.cols <==> c in cols || c == Id
    requires forall c :: c in central.cols <==> c in u.cols && !Listada(specs, c)
    requires ajustada.cols == central.cols
    ensures forall c :: c in ajustada.cols <==> (c in cols || c == Id) && !Listada(specs, c)
  {
  }
}
