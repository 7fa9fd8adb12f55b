/** Column handling of the unique-presentation join
    (`src/nfe_matching_apresentacao_unica.py`): the master base's columns
    arrive with a `_MASTER` suffix, and every reference column is filled from
    the first master column that spells the same name (with or without
    spaces and underscores, or under an alternative name); placeholder
    barcodes do not count as values. The result is then aligned to the
    reference schema. */
module ApresentacaoUnicaColunas {
  import opened Text
  import opened Seqs
  import opened Frame

  const Sufixo := "_MASTER"

  // ---------------------------------------------------------------------------
  // Column-name candidates
  // ---------------------------------------------------------------------------

  /** The four spellings `_variacoes_nome_coluna` tries, in order. */
  function Grafias(n: string): seq<string> {
    [n, ReplaceChar(n, '_', ' '), RemoveChar(RemoveChar(n, '_'), ' '), ReplaceChar(n, ' ', '_')]
  }

  predicate NaoVazio(s: string) { s != "" }

  /** `_variacoes_nome_coluna`: the non-empty spellings, without repetitions,
      the name itself first. */
  function VariacoesNomeColuna(n: string): (r: seq<string>)
    ensures NoDup(r)
    ensures forall v :: v in r <==> v in Grafias(n) && v != ""
    ensures n != "" ==> |r| > 0 && r[0] == n
  {
    var f := Filter(Grafias(n), NaoVazio);
    assert n != "" ==> f[0] == n by {
      if n != "" {
        assert f == [n] + Filter(Grafias(n)[1..], NaoVazio);
      }
    }
    Distinct(f)
  }

  /** A name with its separators (`_` and space) taken out. */
  function Esqueleto(s: string): string {
    if |s| == 0 then ""
    else (if s[0] == '_' || s[0] == ' ' then "" else [s[0]]) + Esqueleto(s[1..])
  }

  predicate Separador(c: char) { c == '_' || c == ' ' }

  lemma EsqueletoCons(h: char, x: string)
    ensures Esqueleto([h] + x) == (if Separador(h) then "" else [h]) + Esqueleto(x)
  {
    assert ([h] + x)[1..] == x;
  }

  lemma {:induction false} EsqueletoTroca(s: string, a: char, b: char)
    requires Separador(a) && Separador(b)
    ensures Esqueleto(ReplaceChar(s, a, b)) == Esqueleto(s)
  {
    if |s| > 0 {
      var t := ReplaceChar(s, a, b);
      assert t == [t[0]] + ReplaceChar(s[1..], a, b);
      EsqueletoTroca(s[1..], a, b);
      EsqueletoCons(t[0], ReplaceChar(s[1..], a, b));
      assert Separador(t[0]) <==> Separador(s[0]);
    }
  }

  lemma {:induction false} EsqueletoRemove(s: string, c: char)
    requires Separador(c)
    ensures Esqueleto(RemoveChar(s, c)) == Esqueleto(s)
  {
    if |s| > 0 {
      var x := RemoveChar(s[1..], c);
      EsqueletoRemove(s[1..], c);
      if s[0] == c {
        assert RemoveChar(s, c) == x;
      } else {
        assert RemoveChar(s, c) == [s[0]] + x;
        EsqueletoCons(s[0], x);
      }
    }
  }

  /** Every variation spells the same name once spaces and underscores are
      ignored. */
  lemma VariacoesMesmoEsqueleto(n: string)
    ensures forall v :: v in VariacoesNomeColuna(n) ==> Esqueleto(v) == Esqueleto(n)
  {
    EsqueletoTroca(n, '_', ' ');
    EsqueletoTroca(n, ' ', '_');
    EsqueletoRemove(n, '_');
    EsqueletoRemove(RemoveChar(n, '_'), ' ');
  }

  /** `ALTERNATIVAS_COLUNAS_MASTER`. */
  function Alternativas(n: string): seq<string> {
    if n == "APRESENTACAO" then ["APRESENTACAO_ORIGINAL"]
    else if n == "APRESENTACAO_ORIGINAL" then ["APRESENTACAO"]
    else if n == "PRINCIPIO ATIVO" then ["PRINCIPIO_ATIVO"]
    else if n == "PRINCIPIO_ATIVO" then ["PRINCIPIO ATIVO"]
    else []
  }

  function ComSufixo(vs: seq<string>): (r: seq<string>)
    ensures |r| == |vs| && forall i :: 0 <= i < |vs| ==> r[i] == vs[i] + Sufixo
  {
    seq(|vs|, i requires 0 <= i < |vs| => vs[i] + Sufixo)
  }

  /** `c` is a variation of `b` with the suffix. */
  predicate VariacaoSufixada(b: string, c: string) {
    EndsWith(c, Sufixo) && c[..|c| - |Sufixo|] in VariacoesNomeColuna(b)
  }

  lemma ComSufixoMembro(vs: seq<string>, c: string)
    ensures c in ComSufixo(vs) <==> EndsWith(c, Sufixo) && c[..|c| - |Sufixo|] in vs
  {
    var r := ComSufixo(vs);
    if c in r {
      var i :| 0 <= i < |r| && r[i] == c;
      assert c[..|c| - |Sufixo|] == vs[i];
    }
    if EndsWith(c, Sufixo) && c[..|c| - |Sufixo|] in vs {
      var i :| 0 <= i < |vs| && vs[i] == c[..|c| - |Sufixo|];
      assert r[i] == c;
    }
  }

  /** The suffixed variations of every base, base by base. */
  function TodasVariacoes(bases: seq<string>): seq<string> {
    if |bases| == 0 then [] else ComSufixo(VariacoesNomeColuna(bases[0])) + TodasVariacoes(bases[1..])
  }

  lemma {:induction false} TodasVariacoesMembro(bases: seq<string>, c: string)
    ensures c in TodasVariacoes(bases) <==> exists j :: 0 <= j < |bases| && VariacaoSufixada(bases[j], c)
  {
    if |bases| > 0 {
      TodasVariacoesMembro(bases[1..], c);
      ComSufixoMembro(VariacoesNomeColuna(bases[0]), c);
      ExisteNaCauda(bases, c);
    }
  }

  lemma ExisteNaCauda(bases: seq<string>, c: string)
    requires |bases| > 0
    ensures (exists j :: 0 <= j < |bases| && VariacaoSufixada(bases[j], c)) <==>
            VariacaoSufixada(bases[0], c) || exists j :: 0 <= j < |bases[1..]| && VariacaoSufixada(bases[1..][j], c)
  {
    if exists j :: 0 <= j < |bases| && VariacaoSufixada(bases[j], c) {
      var j :| 0 <= j < |bases| && VariacaoSufixada(bases[j], c);
      if j > 0 {
        assert bases[1..][j - 1] == bases[j];
      }
    }
    if exists j :: 0 <= j < |bases[1..]| && VariacaoSufixada(bases[1..][j], c) {
      var j :| 0 <= j < |bases[1..]| && VariacaoSufixada(bases[1..][j], c);
      assert bases[j + 1] == bases[1..][j];
    }
  }

  /** `_candidatos_coluna_master`: the suffixed variations of the name and of
      its alternatives, without repetitions, the suffixed name first. */
  function CandidatosColunaMaster(n: string): (r: seq<string>)
    ensures NoDup(r)
    ensures forall c :: c in r ==> EndsWith(c, Sufixo)
    ensures forall c :: c in r <==> exists j :: 0 <= j < |[n] + Alternativas(n)| && VariacaoSufixada(([n] + Alternativas(n))[j], c)
    ensures n != "" ==> |r| > 0 && r[0] == n + Sufixo
  {
    var todas := TodasVariacoes([n] + Alternativas(n));
    assert forall c :: c in todas <==> exists j :: 0 <= j < |[n] + Alternativas(n)| && VariacaoSufixada(([n] + Alternativas(n))[j], c) by {
      forall c ensures c in todas <==> exists j :: 0 <= j < |[n] + Alternativas(n)| && VariacaoSufixada(([n] + Alternativas(n))[j], c) {
        TodasVariacoesMembro([n] + Alternativas(n), c);
      }
    }
    assert n != "" ==> todas[0] == n + Sufixo by {
      if n != "" {
        assert ([n] + Alternativas(n))[0] == n;
        assert ComSufixo(VariacoesNomeColuna(n))[0] == n + Sufixo;
      }
    }
    Distinct(todas)
  }

  // ---------------------------------------------------------------------------
  // Placeholders
  // ---------------------------------------------------------------------------

  const Placeholders: set<string> := {"", "SEM GTIN", "SEMGTIN", "NAN", "NONE", "0", "0000000000000"}

  /** A barcode cell that stands for no barcode: a placeholder text (after
      trimming and upper-casing) or a numeric zero (Python's `False == 0`
      makes a false flag one too). */
  predicate EhPlaceholder(v: Value) {
    match v
    case Null => false
    case Num(x) => x == 0.0
    case Flag(b) => !b
    case Str(s) => Upper(Strip(s)) in Placeholders
  }

  predicate ColunaEan(c: string) { StartsWith(Upper(c), "EAN") }

  /** `_normalizar_valores_placeholder` on one cell of column `coluna`. */
  function NormalizarPlaceholder(v: Value, coluna: string): (r: Value)
    ensures r == v || r == Null
    ensures r == Null <==> v == Null || (ColunaEan(coluna) && EhPlaceholder(v))
  {
    if ColunaEan(coluna) && EhPlaceholder(v) then Null else v
  }

  lemma NormalizarPlaceholderIdempotente(v: Value, coluna: string)
    ensures NormalizarPlaceholder(NormalizarPlaceholder(v, coluna), coluna) == NormalizarPlaceholder(v, coluna)
  {
  }

  // ---------------------------------------------------------------------------
  // integrar_colunas_master
  // ---------------------------------------------------------------------------

  /** `combine_first` down a list of columns: the first non-missing cell. */
  function PrimeiroNaoNulo(r: Row, cs: seq<string>): (v: Value)
    ensures v == Null <==> forall j :: 0 <= j < |cs| ==> Get(r, cs[j]) == Null
    ensures v != Null ==> exists j :: 0 <= j < |cs| && Get(r, cs[j]) == v && forall k :: 0 <= k < j ==> Get(r, cs[k]) == Null
  {
    if |cs| == 0 then Null
    else if Get(r, cs[0]) != Null then Get(r, cs[0])
    else
      var v := PrimeiroNaoNulo(r, cs[1..]);
      assert v != Null ==> exists j :: 0 <= j < |cs| && Get(r, cs[j]) == v && forall k :: 0 <= k < j ==> Get(r, cs[k]) == Null by {
        if v != Null {
          var j :| 0 <= j < |cs[1..]| && Get(r, cs[1..][j]) == v && forall k :: 0 <= k < j ==> Get(r, cs[1..][k]) == Null;
          assert Get(r, cs[j + 1]) == v;
          assert forall k :: 1 <= k < j + 1 ==> Get(r, cs[k]) == Get(r, cs[1..][k - 1]);
        }
      }
      v
  }

  function EmCols(cols: seq<string>): string -> bool { (c: string) => c in cols }

  /** The candidates of `coluna` the frame has, in candidate order. */
  function Existentes(cols: seq<string>, coluna: string): seq<string> {
    Filter(CandidatosColunaMaster(coluna), EmCols(cols))
  }

  /** The new cell of `coluna`: its own value unless missing or a
      placeholder, else the first master value. */
  function Preenchido(r: Row, coluna: string, ex: seq<string>): Value {
    var base := NormalizarPlaceholder(Get(r, coluna), coluna);
    if base != Null then base else PrimeiroNaoNulo(r, ex)
  }

  datatype Estado = Estado(t: Table, usadas: set<string>)

  /** One round of the loop over the reference columns. */
  function Passo(e: Estado, coluna: string): (f: Estado)
    requires WellFormed(e.t)
    ensures WellFormed(f.t) && |f.t.rows| == |e.t.rows|
  {
    var ex := Existentes(e.t.cols, coluna);
    if |ex| == 0 then e
    else Estado(SetCol(e.t, coluna, (r: Row) => Preenchido(r, coluna, ex)), e.usadas + set c | c in ex)
  }

  function Percorrer(e: Estado, ref: seq<string>): (f: Estado)
    requires WellFormed(e.t)
    ensures WellFormed(f.t) && |f.t.rows| == |e.t.rows|
    decreases |ref|
  {
    if |ref| == 0 then e else Percorrer(Passo(e, ref[0]), ref[1..])
  }

  /** A `_MASTER` column no reference column used. */
  function Sobra(usadas: set<string>): string -> bool {
    (c: string) => EndsWith(c, Sufixo) && c !in usadas
  }

  /** `df.empty`: no rows or no columns. */
  predicate Vazio(t: Table) { |t.rows| == 0 || |t.cols| == 0 }

  /** `integrar_colunas_master`. */
  function IntegrarColunasMaster(t: Table, ref: seq<string>): (r: Table)
    requires WellFormed(t)
    ensures WellFormed(r) && |r.rows| == |t.rows|
    ensures Vazio(t) ==> r == t
  {
    if Vazio(t) then t
    else
      var f := Percorrer(Estado(t, {}), ref);
      DropCols(f.t, Sobra(f.usadas))
  }

  // Facts about the loop

  lemma ExistentesCongruente(cols1: seq<string>, cols2: seq<string>, coluna: string)
    requires forall c :: EndsWith(c, Sufixo) ==> (c in cols1 <==> c in cols2)
    ensures Existentes(cols1, coluna) == Existentes(cols2, coluna)
  {
    FilterCongruent(CandidatosColunaMaster(coluna), EmCols(cols1), EmCols(cols2));
  }

  lemma PreenchidoCongruente(r1: Row, r2: Row, coluna: string, ex: seq<string>)
    requires Get(r1, coluna) == Get(r2, coluna)
    requires forall j :: 0 <= j < |ex| ==> Get(r1, ex[j]) == Get(r2, ex[j])
    ensures Preenchido(r1, coluna, ex) == Preenchido(r2, coluna, ex)
  {
    PrimeiroNaoNuloCongruente(r1, r2, ex);
  }

  lemma {:induction false} PrimeiroNaoNuloCongruente(r1: Row, r2: Row, cs: seq<string>)
    requires forall j :: 0 <= j < |cs| ==> Get(r1, cs[j]) == Get(r2, cs[j])
    ensures PrimeiroNaoNulo(r1, cs) == PrimeiroNaoNulo(r2, cs)
  {
    if |cs| > 0 {
      PrimeiroNaoNuloCongruente(r1, r2, cs[1..]);
    }
  }

  /** No reference column looks like a master column. */
  predicate RefLimpa(ref: seq<string>) {
    NoDup(ref) && forall j :: 0 <= j < |ref| ==> !EndsWith(ref[j], Sufixo)
  }

  /** What `coluna` holds after its round. */
  function Final(e: Estado, i: nat, coluna: string): Value
    requires i < |e.t.rows|
  {
    if |Existentes(e.t.cols, coluna)| > 0 then Preenchido(e.t.rows[i], coluna, Existentes(e.t.cols, coluna))
    else Get(e.t.rows[i], coluna)
  }

  /** One round writes only its own column (adding it when new) and records
      only candidates of that column as used. */
  lemma PassoEfeito(e: Estado, coluna: string)
    requires WellFormed(e.t)
    ensures forall c :: c in Passo(e, coluna).t.cols <==> c in e.t.cols || (c == coluna && |Existentes(e.t.cols, coluna)| > 0)
    ensures forall i, c :: 0 <= i < |e.t.rows| && c != coluna ==> Get(Passo(e, coluna).t.rows[i], c) == Get(e.t.rows[i], c)
    ensures forall i :: 0 <= i < |e.t.rows| ==> Get(Passo(e, coluna).t.rows[i], coluna) == Final(e, i, coluna)
    ensures forall c :: c in Passo(e, coluna).usadas ==> c in e.usadas || c in CandidatosColunaMaster(coluna)
  {
    PassoCols(e, coluna);
    PassoCelulas(e, coluna);
  }

  lemma PassoCols(e: Estado, coluna: string)
    requires WellFormed(e.t)
    ensures forall c :: c in Passo(e, coluna).t.cols <==> c in e.t.cols || (c == coluna && |Existentes(e.t.cols, coluna)| > 0)
    ensures forall c :: c in Passo(e, coluna).usadas ==> c in e.usadas || c in CandidatosColunaMaster(coluna)
  {
  }

  lemma PassoCelulas(e: Estado, coluna: string)
    requires WellFormed(e.t)
    ensures forall i, c :: 0 <= i < |e.t.rows| && c != coluna ==> Get(Passo(e, coluna).t.rows[i], c) == Get(e.t.rows[i], c)
    ensures forall i :: 0 <= i < |e.t.rows| ==> Get(Passo(e, coluna).t.rows[i], coluna) == Final(e, i, coluna)
  {
  }

  lemma RestoLimpo(ref: seq<string>)
    requires |ref| > 0 && RefLimpa(ref)
    ensures RefLimpa(ref[1..]) && ref[0] !in ref[1..] && !EndsWith(ref[0], Sufixo)
  {
    var rest := ref[1..];
    forall j | 0 <= j < |rest| ensures !EndsWith(rest[j], Sufixo) {
      assert rest[j] == ref[j + 1];
    }
  }

  /** The loop adds only reference columns and keeps every column. */
  lemma {:induction false} PercorrerCols(e: Estado, ref: seq<string>)
    requires WellFormed(e.t)
    ensures forall c :: c in Percorrer(e, ref).t.cols ==> c in e.t.cols || c in ref
    ensures forall c :: c in e.t.cols ==> c in Percorrer(e, ref).t.cols
    decreases |ref|
  {
    if |ref| > 0 {
      PassoEfeito(e, ref[0]);
      PercorrerCols(Passo(e, ref[0]), ref[1..]);
    }
  }

  /** A column no round is about keeps its cells. */
  lemma {:induction false} PercorrerOutras(e: Estado, ref: seq<string>, i: nat, c: string)
    requires WellFormed(e.t) && i < |e.t.rows| && c !in ref
    ensures Get(Percorrer(e, ref).t.rows[i], c) == Get(e.t.rows[i], c)
    decreases |ref|
  {
    if |ref| > 0 {
      PassoEfeito(e, ref[0]);
      PercorrerOutras(Passo(e, ref[0]), ref[1..], i, c);
    }
  }

  /** A reference column ends with the value its round computes from the
      input: rounds before it write neither it nor any master column. */
  lemma {:induction false} PercorrerRef(e: Estado, ref: seq<string>, i: nat, c: string)
    requires WellFormed(e.t) && RefLimpa(ref) && i < |e.t.rows| && c in ref
    ensures Get(Percorrer(e, ref).t.rows[i], c) == Final(e, i, c)
    decreases |ref|
  {
    var e1 := Passo(e, ref[0]);
    PassoEfeito(e, ref[0]);
    RestoLimpo(ref);
    if c == ref[0] {
      PercorrerOutras(e1, ref[1..], i, c);
    } else {
      PercorrerRef(e1, ref[1..], i, c);
      ExistentesCongruente(e1.t.cols, e.t.cols, c);
      var ex := Existentes(e.t.cols, c);
      forall j | 0 <= j < |ex| ensures Get(e1.t.rows[i], ex[j]) == Get(e.t.rows[i], ex[j]) {
        assert ex[j] in CandidatosColunaMaster(c);
      }
      PreenchidoCongruente(e1.t.rows[i], e.t.rows[i], c, ex);
    }
  }

  /** A reference column with a candidate is present after the loop. */
  lemma {:induction false} PercorrerPresente(e: Estado, ref: seq<string>, c: string)
    requires WellFormed(e.t) && RefLimpa(ref) && c in ref && |Existentes(e.t.cols, c)| > 0
    ensures c in Percorrer(e, ref).t.cols
    decreases |ref|
  {
    var e1 := Passo(e, ref[0]);
    PassoEfeito(e, ref[0]);
    RestoLimpo(ref);
    if c == ref[0] {
      PercorrerCols(e1, ref[1..]);
    } else {
      ExistentesCongruente(e1.t.cols, e.t.cols, c);
      PercorrerPresente(e1, ref[1..], c);
    }
  }

  /** Only candidates of reference columns are recorded as used. */
  lemma {:induction false} PercorrerUsadas(e: Estado, ref: seq<string>, c: string)
    requires WellFormed(e.t) && c in Percorrer(e, ref).usadas
    ensures c in e.usadas || exists j :: 0 <= j < |ref| && c in CandidatosColunaMaster(ref[j])
    decreases |ref|
  {
    if |ref| > 0 {
      var e1 := Passo(e, ref[0]);
      PassoEfeito(e, ref[0]);
      PercorrerUsadas(e1, ref[1..], c);
      if c !in e1.usadas {
        var j :| 0 <= j < |ref[1..]| && c in CandidatosColunaMaster(ref[1..][j]);
        assert ref[1..][j] == ref[j + 1];
      } else if c !in e.usadas {
        assert c in CandidatosColunaMaster(ref[0]);
      }
    }
  }

  /** `integrar_colunas_master` on a non-empty frame: each reference column
      with a master candidate holds its own value unless missing or a
      placeholder, else the first master value in candidate order. */
  lemma IntegrarPreenche(t: Table, ref: seq<string>, i: nat, c: string)
    requires WellFormed(t) && !Vazio(t) && RefLimpa(ref) && i < |t.rows| && c in ref && |Existentes(t.cols, c)| > 0
    ensures c in IntegrarColunasMaster(t, ref).cols
    ensures IntegrarColunasMaster(t, ref).rows[i][c] == Preenchido(t.rows[i], c, Existentes(t.cols, c))
  {
    var e := Estado(t, {});
    var f := Percorrer(e, ref);
    PercorrerPresente(e, ref, c);
    PercorrerRef(e, ref, i, c);
    var j :| 0 <= j < |ref| && ref[j] == c;
    assert !Sobra(f.usadas)(c);
  }

  /** Every kept column that is not a reference column keeps its cells. */
  lemma IntegrarPreserva(t: Table, ref: seq<string>, i: nat, c: string)
    requires WellFormed(t) && !Vazio(t) && i < |t.rows| && c in IntegrarColunasMaster(t, ref).cols && c !in ref
    ensures c in t.cols && IntegrarColunasMaster(t, ref).rows[i][c] == t.rows[i][c]
  {
    var e := Estado(t, {});
    var f := Percorrer(e, ref);
    PercorrerCols(e, ref);
    PercorrerOutras(e, ref, i, c);
    assert f.t.rows[i][c] == Get(f.t.rows[i], c);
  }

  /** The master columns that remain are candidates some reference column
      used; the others are dropped. */
  lemma IntegrarSemSobras(t: Table, ref: seq<string>, c: string)
    requires WellFormed(t) && !Vazio(t) && c in IntegrarColunasMaster(t, ref).cols && EndsWith(c, Sufixo)
    ensures exists j :: 0 <= j < |ref| && c in CandidatosColunaMaster(ref[j])
  {
    var e := Estado(t, {});
    var f := Percorrer(e, ref);
    assert !Sobra(f.usadas)(c);
    PercorrerUsadas(e, ref, c);
  }

  /** Integration adds only reference columns and drops only master
      columns. */
  lemma IntegrarCols(t: Table, ref: seq<string>, c: string)
    requires WellFormed(t)
    ensures c in IntegrarColunasMaster(t, ref).cols ==> c in t.cols || c in ref
    ensures c in t.cols && !EndsWith(c, Sufixo) ==> c in IntegrarColunasMaster(t, ref).cols
  {
    if !Vazio(t) {
      PercorrerCols(Estado(t, {}), ref);
    }
  }

  // ---------------------------------------------------------------------------
  // alinhar_dataframe_para_schema
  // ---------------------------------------------------------------------------

  /** `alinhar_dataframe_para_schema`: an empty frame is returned as it is;
      otherwise exactly the reference columns, in reference order, missing
      ones all missing. */
  function AlinharParaSchema(t: Table, ref: seq<string>): (r: Table)
    requires WellFormed(t) && NoDup(ref)
    ensures WellFormed(r) && |r.rows| == |t.rows|
    ensures Vazio(t) ==> r == t
    ensures !Vazio(t) ==> r.cols == ref && forall i, c :: 0 <= i < |r.rows| && c in ref ==> r.rows[i][c] == Get(t.rows[i], c)
  {
    if Vazio(t) then t else Reindex(t, ref)
  }

  /** Aligning an aligned frame again changes nothing. */
  lemma AlinharIdempotente(t: Table, ref: seq<string>)
    requires WellFormed(t) && NoDup(ref)
    ensures AlinharParaSchema(AlinharParaSchema(t, ref), ref) == AlinharParaSchema(t, ref)
  {
    if !Vazio(t) {
      if |ref| == 0 {
        assert Vazio(AlinharParaSchema(t, ref));
      } else {
        ReindexIdempotent(t, ref);
      }
    }
  }
}
