/** Stage 14 of the NFe pipeline (`pipelines/nfe/src/nfe_etapa14_extracao_ia.py`):
    the rows still unmatched after stage 13 get structured attributes from
    a language model, or from a results file it produced earlier. The model
    covers what the stage does around that call: how the descriptions are
    prepared for it, the placeholder results used when there are none, the
    laboratory-name corrections and the left merge that brings the results
    back. The model's answer, the files and the clock are parameters. */
module Etapa14Ia {
  import opened Wrappers
  import opened Text
  import opened Seqs
  import opened Frame
  import UtilsLimpeza

  const Desc := "descricao_produto"
  const Limpo := "NOME_PRODUTO_LIMPO"
  const Lab := "IA_LABORATORIO"
  const LabCorrigido := "IA_LABORATORIO_CORRIGIDO"

  /** The attribute columns the model fills. */
  const ColunasIa: seq<string> := ["IA_PRODUTO", "IA_LABORATORIO", "IA_TIPO DA UNIDADE",
                                   "IA_QUANTIDADE MG (POR UNIDADE/ML)", "IA_QUANTIDADE ML",
                                   "IA_QUANTIDADE UI", "IA_QUANTIDADE UNIDADES"]

  /** The columns of the model's answer: the description, then the
      attributes. */
  const ColunasCsv: seq<string> := [Desc] + ColunasIa

  // ---------------------------------------------------------------------------
  // Truncation at the first separator: `str.split(r'\s+(SEP|...)', n=1)[0].strip()`
  // ---------------------------------------------------------------------------

  /** `c\s+[0-9]` at the start of `t`. */
  predicate LetraNumero(t: string, c: char) {
    |t| >= 2 && t[0] == c && IsSpace(t[1]) && 1 + SpaceRun(t, 1) < |t| && IsDigit(t[1 + SpaceRun(t, 1)])
  }

  /** One of the separators starts `t`. The words are plain prefixes, with
      no boundary after them, so `VAL` also starts `VALIUM`; `LOT` and `VAL`
      already cover `LOTE` and `VALIDADE`, which changes where a split
      happens not at all. */
  predicate ComecaSeparador(t: string) {
    StartsWith(t, "DESCONTINUADO") || StartsWith(t, "VALIDADE") || StartsWith(t, "LOTE")
    || StartsWith(t, "LOT") || StartsWith(t, "VENC") || StartsWith(t, "VAL") || StartsWith(t, "FAB")
    || LetraNumero(t, 'L') || LetraNumero(t, 'V')
  }

  /** The pattern `\s+(SEP|...)` matches at the start of `t`. Every
      separator starts with a letter, so `\s+` can only take the whole
      whitespace run. */
  predicate SeparadorNoInicio(t: string) {
    |t| > 0 && IsSpace(t[0]) && ComecaSeparador(t[SpaceRun(t, 0)..])
  }

  /** The pattern matches at position `k` of `s`. */
  predicate SeparadorEm(s: string, k: nat) {
    k < |s| && SeparadorNoInicio(s[k..])
  }

  /** Where `split(n=1)` cuts: the leftmost match from `i` on, or the end of
      the text when there is none. */
  function Corte(s: string, i: nat): (c: nat)
    requires i <= |s|
    ensures i <= c <= |s|
    ensures c < |s| ==> SeparadorEm(s, c)
    ensures forall k :: i <= k < c ==> !SeparadorEm(s, k)
    decreases |s| - i
  {
    if i == |s| then |s|
    else if SeparadorEm(s, i) then i
    else Corte(s, i + 1)
  }

  /** The description up to the first separator, stripped. */
  function Truncar(s: string): (r: string)
    ensures exists c :: 0 <= c <= |s| && r == Strip(s[..c]) && (c == |s| || SeparadorEm(s, c))
                        && forall k :: 0 <= k < c ==> !SeparadorEm(s, k)
    ensures |r| == 0 || (!IsSpace(r[0]) && !IsSpace(r[|r| - 1]))
    ensures forall k :: !SeparadorEm(r, k)
  {
    var c := Corte(s, 0);
    SemSeparadorAntes(s, c);
    Strip(s[..c])
  }

  // Matches survive when text is appended after them or put before them.

  lemma StartsWithMais(t: string, q: string, p: string)
    requires StartsWith(t, p)
    ensures StartsWith(t + q, p)
  {
    assert (t + q)[..|p|] == t[..|p|];
  }

  lemma {:induction false} SpaceRunMais(t: string, q: string, j: nat)
    requires j <= |t| && j + SpaceRun(t, j) < |t|
    ensures SpaceRun(t + q, j) == SpaceRun(t, j)
    decreases |t| - j
  {
    assert (t + q)[j] == t[j];
    if IsSpace(t[j]) {
      SpaceRunMais(t, q, j + 1);
    }
  }

  lemma LetraNumeroMais(t: string, q: string, c: char)
    requires LetraNumero(t, c)
    ensures LetraNumero(t + q, c)
  {
    SpaceRunMais(t, q, 1);
    var tq := t + q;
    assert tq[0] == t[0] && tq[1] == t[1] && tq[1 + SpaceRun(t, 1)] == t[1 + SpaceRun(t, 1)];
  }

  lemma ComecaSeparadorMais(t: string, q: string)
    requires ComecaSeparador(t)
    ensures ComecaSeparador(t + q)
  {
    if LetraNumero(t, 'L') {
      LetraNumeroMais(t, q, 'L');
    } else if LetraNumero(t, 'V') {
      LetraNumeroMais(t, q, 'V');
    } else if StartsWith(t, "LOT") {
      StartsWithMais(t, q, "LOT");
    } else if StartsWith(t, "VAL") {
      StartsWithMais(t, q, "VAL");
    } else if StartsWith(t, "VENC") {
      StartsWithMais(t, q, "VENC");
    } else if StartsWith(t, "FAB") {
      StartsWithMais(t, q, "FAB");
    } else if StartsWith(t, "DESCONTINUADO") {
      StartsWithMais(t, q, "DESCONTINUADO");
    } else if StartsWith(t, "VALIDADE") {
      StartsWithMais(t, q, "VALIDADE");
    } else {
      StartsWithMais(t, q, "LOTE");
    }
  }

  /** A separator is never empty, so the whitespace run before it ends
      inside the text. */
  lemma ComecaSeparadorNaoVazio(t: string)
    requires ComecaSeparador(t)
    ensures |t| > 0
  {
  }

  lemma SeparadorNoInicioMais(t: string, q: string)
    requires SeparadorNoInicio(t)
    ensures SeparadorNoInicio(t + q)
  {
    var n := SpaceRun(t, 0);
    ComecaSeparadorNaoVazio(t[n..]);
    SpaceRunMais(t, q, 0);
    assert (t + q)[n..] == t[n..] + q;
    ComecaSeparadorMais(t[n..], q);
  }

  /** A match in a prefix of `s` is a match in `s`. */
  lemma SeparadorDoPrefixo(s: string, c: nat, k: nat)
    requires c <= |s| && SeparadorEm(s[..c], k)
    ensures SeparadorEm(s, k)
  {
    assert s[..c][k..] + s[c..] == s[k..];
    SeparadorNoInicioMais(s[..c][k..], s[c..]);
  }

  /** A match in a suffix of `s` is a match in `s`. */
  lemma SeparadorDoSufixo(s: string, a: nat, k: nat)
    requires a <= |s| && SeparadorEm(s[a..], k)
    ensures SeparadorEm(s, a + k)
  {
    assert s[a..][k..] == s[a + k..];
  }

  /** `strip()` keeps a slice of the text. */
  lemma StripTrecho(p: string) returns (a: nat)
    ensures a + |Strip(p)| <= |p| && Strip(p) == p[a..a + |Strip(p)|]
  {
    var l := TrimLeftSp(p);
    TrimLeftSuffix(p);
    TrimRightPrefix(l);
    a := |p| - |l|;
  }

  /** Cutting before the first match and stripping leaves no match. */
  lemma SemSeparadorAntes(s: string, c: nat)
    requires c <= |s| && forall k :: 0 <= k < c ==> !SeparadorEm(s, k)
    ensures forall k :: !SeparadorEm(Strip(s[..c]), k)
  {
    forall k: nat | SeparadorEm(Strip(s[..c]), k) ensures false {
      SeparadorAntesDoCorte(s, c, k);
    }
  }

  /** A match in the stripped prefix is a match of `s` before the cut. */
  lemma SeparadorAntesDoCorte(s: string, c: nat, k: nat)
    requires c <= |s| && SeparadorEm(Strip(s[..c]), k)
    ensures exists j :: 0 <= j < c && SeparadorEm(s, j)
  {
    var p := s[..c];
    var x := Strip(p);
    var a := StripTrecho(p);
    assert x + p[a + |x|..] == p[a..];
    SeparadorNoInicioMais(x[k..], p[a + |x|..]);
    assert x[k..] + p[a + |x|..] == p[a..][k..];
    SeparadorDoSufixo(p, a, k);
    SeparadorDoPrefixo(s, c, a + k);
  }

  /** Text without a separator is only stripped. */
  lemma TruncarSemSeparador(s: string)
    requires forall k :: !SeparadorEm(s, k)
    ensures Truncar(s) == Strip(s)
  {
    assert s[..|s|] == s;
  }

  /** Truncating twice truncates once. */
  lemma TruncarIdempotente(s: string)
    ensures Truncar(Truncar(s)) == Truncar(s)
  {
    var r := Truncar(s);
    TruncarSemSeparador(r);
    StripEnds(r);
  }

  // ---------------------------------------------------------------------------
  // Preparing the rows for the model (`preparar_dados_para_ia`)
  // ---------------------------------------------------------------------------

  /** The products that are not for human use, removed before the call. */
  const Veterinarios: seq<string> := ["IVERMIN", "EQUINOS", "IVOMEC", "XILAZIN", "VERMIDOG", "CHEMITRI", "TERRACAM",
                                      "REPEL", "EXPOSIS", "COPO DESCARTAVEIS", "REFRESCO EM PO", "APROMAZIN", "VERMIFUGO"]

  /** `rows.map(f)`, in order. */
  function Mapear<T>(s: seq<T>, f: T -> T): (r: seq<T>)
    ensures |r| == |s| && forall i :: 0 <= i < |s| ==> r[i] == f(s[i])
  {
    if |s| == 0 then [] else [f(s[0])] + Mapear(s[1..], f)
  }

  /** The text methods give a missing value for a cell that is not text. */
  function DescTruncada(v: Value): Value {
    if v.Str? then Str(Truncar(v.s)) else Null
  }

  /** `str.contains('|'.join(keywords), case=False, na=False)`: a missing
      description never matches. */
  predicate NaoMedicinal(v: Value) {
    v.Str? && exists j :: 0 <= j < |Veterinarios| && ContainsCI(v.s, Veterinarios[j])
  }

  /** `str.replace(r'\s+', ' ').str.strip()`. */
  function DescLimpa(v: Value): Value {
    if v.Str? then Str(NormalizeSpaces(v.s)) else Null
  }

  predicate Deletar(m: Row) { Get(m, Limpo) == Str("DELETAR") }

  function TruncarLinha(m: Row): Row { m[Desc := DescTruncada(Get(m, Desc))] }
  function LimparLinha(m: Row): Row { m[Desc := DescLimpa(Get(m, Desc))] }
  function Medicinal(m: Row): bool { !NaoMedicinal(Get(m, Desc)) }
  function NaoDeletar(m: Row): bool { !Deletar(m) }

  /** Rewriting the description of every row of a well-formed frame that
      has descriptions keeps it well-formed. */
  function Reescrever(t: Table, f: Row -> Row): (r: Table)
    requires WellFormed(t) && Desc in t.cols && forall m: Row :: f(m).Keys == m.Keys + {Desc}
    ensures WellFormed(r) && r.cols == t.cols && r.rows == Mapear(t.rows, f)
    ensures |r.rows| == |t.rows| && forall i :: 0 <= i < |t.rows| ==> r.rows[i] == f(t.rows[i])
  {
    ReescritaBemFormada(t, f, Mapear(t.rows, f));
    Table(t.cols, Mapear(t.rows, f))
  }

  /** Rows rewritten by a map that keeps the keys, the description among
      them, still fit the frame's columns. */
  lemma ReescritaBemFormada(t: Table, f: Row -> Row, rows: seq<Row>)
    requires WellFormed(t) && Desc in t.cols && forall m: Row :: f(m).Keys == m.Keys + {Desc}
    requires |rows| == |t.rows| && forall i :: 0 <= i < |t.rows| ==> rows[i] == f(t.rows[i])
    ensures WellFormed(Table(t.cols, rows))
  {
    assert Desc in ColSet(t.cols);
    forall i | 0 <= i < |rows| ensures rows[i].Keys == ColSet(t.cols) {
      assert rows[i] == f(t.rows[i]);
    }
  }

  /** The rows left by the last pass: `df[df['NOME_PRODUTO_LIMPO'] !=
      'DELETAR']`, run only when the column exists. */
  function SemDeletar(t: Table): (r: Table)
    requires WellFormed(t)
    ensures WellFormed(r) && r.cols == t.cols
    ensures forall i :: 0 <= i < |r.rows| ==> !Deletar(r.rows[i]) && r.rows[i] in t.rows
    ensures r.rows == Filter(t.rows, NaoDeletar)
  {
    if Limpo in t.cols then FilterRows(t, NaoDeletar)
    else
      SemDeletarSemColuna(t);
      FilterAll(t.rows, NaoDeletar);
      t
  }

  /** Pass 1: every description cut at its first separator. */
  function Truncadas(t: Table): (r: Table)
    requires WellFormed(t) && Desc in t.cols
    ensures WellFormed(r) && r.cols == t.cols && r.rows == Mapear(t.rows, TruncarLinha)
  {
    Reescrever(t, TruncarLinha)
  }

  /** Pass 2: the rows whose description names no product outside human
      use. */
  function Medicinais(t: Table): (r: Table)
    requires WellFormed(t)
    ensures WellFormed(r) && r.cols == t.cols && r.rows == Filter(t.rows, Medicinal)
  {
    FilterRows(t, Medicinal)
  }

  /** Pass 3: whitespace collapsed in every description. */
  function Limpas(t: Table): (r: Table)
    requires WellFormed(t) && Desc in t.cols
    ensures WellFormed(r) && r.cols == t.cols && r.rows == Mapear(t.rows, LimparLinha)
    ensures forall i :: 0 <= i < |r.rows| ==> (Get(r.rows[i], Desc).Str? ==> Normalized(Get(r.rows[i], Desc).s))
  {
    var r := Reescrever(t, LimparLinha);
    forall i | 0 <= i < |r.rows| ensures Get(r.rows[i], Desc).Str? ==> Normalized(Get(r.rows[i], Desc).s) {
      LimparLinhaNormaliza(t.rows[i]);
    }
    r
  }

  lemma LimparLinhaNormaliza(m: Row)
    ensures Get(LimparLinha(m), Desc) == DescLimpa(Get(m, Desc))
    ensures DescLimpa(Get(m, Desc)).Str? ==> Normalized(DescLimpa(Get(m, Desc)).s)
  {
  }

  /** `preparar_dados_para_ia`, pass by pass as the source runs them:
      truncate every description, drop the products not for human use,
      collapse whitespace, and drop the rows marked `DELETAR` when the frame
      has the cleaned-name column. A frame without descriptions is pandas'
      `KeyError`. */
  function PrepararDadosParaIa(t: Table): (r: Result<Table>)
    requires WellFormed(t)
    ensures r.Err? <==> Desc !in t.cols
    ensures r.Ok? ==> WellFormed(r.value) && r.value.cols == t.cols
    ensures r.Ok? ==> forall i :: 0 <= i < |r.value.rows| ==>
              !Deletar(r.value.rows[i]) && (Get(r.value.rows[i], Desc).Str? ==> Normalized(Get(r.value.rows[i], Desc).s))
  {
    if Desc !in t.cols then Err(KeyError(Desc))
    else
      var t3 := Limpas(Medicinais(Truncadas(t)));
      Ok(SemDeletar(t3))
  }

  /** Without the cleaned-name column no row reads as `DELETAR`. */
  lemma SemDeletarSemColuna(t: Table)
    requires WellFormed(t)
    ensures Limpo !in t.cols ==> forall i :: 0 <= i < |t.rows| ==> !Deletar(t.rows[i])
  {
  }

  /** What happens to a kept row, in one step. */
  function Preparada(m: Row): Row { LimparLinha(TruncarLinha(m)) }

  /** Which rows are kept, judged on the input row: its truncated
      description names no product outside human use and it is not marked
      `DELETAR`. */
  function Mantida(m: Row): bool { !NaoMedicinal(DescTruncada(Get(m, Desc))) && !Deletar(m) }

  lemma {:induction false} FiltrarMapear<T>(s: seq<T>, f: T -> T, p: T -> bool, pf: T -> bool)
    requires forall m :: pf(m) == p(f(m))
    ensures Filter(Mapear(s, f), p) == Mapear(Filter(s, pf), f)
  {
    if |s| > 0 {
      var x := s[0];
      FiltrarMapear(s[1..], f, p, pf);
      MapearCons(x, s[1..], f);
      assert [x] + s[1..] == s;
      FilterCons(f(x), Mapear(s[1..], f), p);
      FilterCons(x, s[1..], pf);
      MapearCons(x, Filter(s[1..], pf), f);
    }
  }

  lemma {:induction false} MapearMapear<T>(s: seq<T>, f: T -> T, g: T -> T, gf: T -> T)
    requires forall m :: gf(m) == g(f(m))
    ensures Mapear(Mapear(s, f), g) == Mapear(s, gf)
  {
    if |s| > 0 {
      MapearMapear(s[1..], f, g, gf);
      MapearCons(s[0], s[1..], f);
      assert [s[0]] + s[1..] == s;
      MapearCons(f(s[0]), Mapear(s[1..], f), g);
    }
  }

  /** Mapping a list is mapping its head, then its tail. */
  lemma MapearCons<T>(x: T, c: seq<T>, f: T -> T)
    ensures Mapear([x] + c, f) == [f(x)] + Mapear(c, f)
  {
    var s := [x] + c;
    assert s[0] == x && s[1..] == c;
  }

  function MedicinalTruncada(m: Row): bool { Medicinal(TruncarLinha(m)) }
  function NaoDeletarPreparada(m: Row): bool { NaoDeletar(Preparada(m)) }

  /** Keeping a row is judging its truncated description and its mark,
      which the rewriting leaves alone. */
  lemma MantidaPartes(m: Row)
    ensures Mantida(m) == (MedicinalTruncada(m) && NaoDeletarPreparada(m))
  {
    assert Get(TruncarLinha(m), Desc) == DescTruncada(Get(m, Desc));
    assert Get(Preparada(m), Limpo) == Get(m, Limpo);
  }

  /** The four passes amount to one: keep the rows `Mantida` accepts, in
      order, and rewrite each as `Preparada`. */
  lemma PrepararUmPasso(t: Table)
    requires WellFormed(t) && Desc in t.cols
    ensures PrepararDadosParaIa(t).Ok?
    ensures PrepararDadosParaIa(t).value.rows == Mapear(Filter(t.rows, Mantida), Preparada)
  {
    FiltrarMapear(t.rows, TruncarLinha, Medicinal, MedicinalTruncada);
    var s1 := Filter(t.rows, MedicinalTruncada);
    assert forall m :: Preparada(m) == LimparLinha(TruncarLinha(m));
    MapearMapear(s1, TruncarLinha, LimparLinha, Preparada);
    FiltrarMapear(s1, Preparada, NaoDeletar, NaoDeletarPreparada);
    forall m ensures Mantida(m) == (MedicinalTruncada(m) && NaoDeletarPreparada(m)) {
      MantidaPartes(m);
    }
    FilterFilter(t.rows, MedicinalTruncada, NaoDeletarPreparada, Mantida);
  }

  // ---------------------------------------------------------------------------
  // Placeholder results (`criar_resultados_ia_vazios`)
  // ---------------------------------------------------------------------------

  lemma ColunasCsvDistintas()
    ensures NoDup(ColunasCsv) && NoDup(ColunasIa) && Desc !in ColunasIa
  {
  }

  /** The placeholder row of a description: the description and every
      attribute missing. */
  function LinhaVazia(m: Row): Row {
    map c | c in ColunasCsv :: if c == Desc then Get(m, Desc) else Null
  }

  /** `criar_resultados_ia_vazios`: one row per distinct description, first
      occurrence first, with every attribute column missing. Reading the
      description column of a frame that lacks it is pandas' `KeyError`. */
  function CriarResultadosIaVazios(t: Table): (r: Result<Table>)
    requires WellFormed(t)
    ensures r.Err? <==> Desc !in t.cols
    ensures r.Ok? ==> WellFormed(r.value) && r.value.cols == ColunasCsv
    ensures r.Ok? ==> KeysOf(r.value.rows, ColKey(Desc)) == KeysOf(t.rows, ColKey(Desc))
    ensures r.Ok? ==> DistinctKeys(r.value.rows, ColKey(Desc))
    ensures r.Ok? ==> forall i, c :: 0 <= i < |r.value.rows| && c in ColunasIa ==> Get(r.value.rows[i], c) == Null
  {
    if Desc !in t.cols then Err(KeyError(Desc))
    else
      var d := DedupBy(t.rows, ColKey(Desc));
      var rows := Mapear(d, LinhaVazia);
      ColunasCsvDistintas();
      DedupKeys(t.rows, ColKey(Desc));
      assert forall i :: 0 <= i < |rows| ==> ColKey(Desc)(rows[i]) == ColKey(Desc)(d[i]);
      KeysOfPointwise(rows, ColKey(Desc), d, ColKey(Desc));
      DistinctKeysPointwise(rows, ColKey(Desc), d, ColKey(Desc));
      Ok(Table(ColunasCsv, rows))
  }

  // ---------------------------------------------------------------------------
  // Laboratory corrections (`aplicar_correcoes_laboratorio`)
  // ---------------------------------------------------------------------------

  /** The dictionary rows `dropna(subset=[...])` keeps: both names present. */
  function Completa(m: Row): bool { Get(m, Lab) != Null && Get(m, LabCorrigido) != Null }

  /** The (name, corrected name) pairs of the kept dictionary rows, in
      order. */
  function Pares(rows: seq<Row>): (ps: seq<(Value, Value)>)
    ensures |ps| == |rows|
    ensures forall j :: 0 <= j < |rows| ==> ps[j] == (Get(rows[j], Lab), Get(rows[j], LabCorrigido))
  {
    if |rows| == 0 then [] else [(Get(rows[0], Lab), Get(rows[0], LabCorrigido))] + Pares(rows[1..])
  }

  /** The last pair of `ps` with key `k` is at `j`. */
  predicate UltimoDaChave(ps: seq<(Value, Value)>, j: int) {
    0 <= j < |ps| && forall j2 :: j < j2 < |ps| ==> ps[j2].0 != ps[j].0
  }

  /** `dict(zip(keys, values))`: every key of the pairs maps to the value of
      its last pair. */
  function MapaDe(ps: seq<(Value, Value)>): (m: map<Value, Value>)
    ensures forall k :: k in m <==> exists j :: 0 <= j < |ps| && ps[j].0 == k
    ensures forall j :: UltimoDaChave(ps, j) ==> ps[j].0 in m && m[ps[j].0] == ps[j].1
  {
    if |ps| == 0 then map[]
    else
      var init := ps[..|ps| - 1];
      var m0 := MapaDe(init);
      var m := m0[ps[|ps| - 1].0 := ps[|ps| - 1].1];
      MapaDeChaves(ps, init, m0, m);
      MapaDeUltimo(ps, init, m0, m);
      m
  }

  lemma MapaDeChaves(ps: seq<(Value, Value)>, init: seq<(Value, Value)>, m0: map<Value, Value>, m: map<Value, Value>)
    requires |ps| > 0 && init == ps[..|ps| - 1] && m == m0[ps[|ps| - 1].0 := ps[|ps| - 1].1]
    requires forall k :: k in m0 <==> exists j :: 0 <= j < |init| && init[j].0 == k
    ensures forall k :: k in m <==> exists j :: 0 <= j < |ps| && ps[j].0 == k
  {
    forall k | k in m ensures exists j :: 0 <= j < |ps| && ps[j].0 == k {
      if k != ps[|ps| - 1].0 {
        var j :| 0 <= j < |init| && init[j].0 == k;
        assert ps[j] == init[j];
      }
    }
    forall k | exists j :: 0 <= j < |ps| && ps[j].0 == k ensures k in m {
      var j :| 0 <= j < |ps| && ps[j].0 == k;
      if j < |ps| - 1 {
        assert init[j] == ps[j];
      }
    }
  }

  lemma MapaDeUltimo(ps: seq<(Value, Value)>, init: seq<(Value, Value)>, m0: map<Value, Value>, m: map<Value, Value>)
    requires |ps| > 0 && init == ps[..|ps| - 1] && m == m0[ps[|ps| - 1].0 := ps[|ps| - 1].1]
    requires forall j :: UltimoDaChave(init, j) ==> init[j].0 in m0 && m0[init[j].0] == init[j].1
    ensures forall j :: UltimoDaChave(ps, j) ==> ps[j].0 in m && m[ps[j].0] == ps[j].1
  {
    forall j | UltimoDaChave(ps, j) ensures ps[j].0 in m && m[ps[j].0] == ps[j].1 {
      if j < |ps| - 1 {
        assert init[j] == ps[j];
        assert UltimoDaChave(init, j);
      }
    }
  }

  /** `lab.map(mapa).fillna(lab)`: a mapped name becomes its correction, any
      other cell (missing ones included) stays. */
  function Corrigir(v: Value, mapa: map<Value, Value>): Value {
    if v in mapa && mapa[v] != Null then mapa[v] else v
  }

  function CorrigirLinha(m: Row, mapa: map<Value, Value>): Row {
    if Lab in m then m[Lab := Corrigir(m[Lab], mapa)] else m
  }

  /** The correction map a dictionary frame yields. */
  function MapaLabs(dic: Table): map<Value, Value> {
    MapaDe(Pares(Filter(dic.rows, Completa)))
  }

  /** Every key and every correction of the map is present. */
  lemma MapaLabsPresente(dic: Table)
    ensures forall k :: k in MapaLabs(dic) ==> k != Null && MapaLabs(dic)[k] != Null
  {
    var rows := Filter(dic.rows, Completa);
    var ps := Pares(rows);
    forall k | k in MapaLabs(dic) ensures k != Null && MapaLabs(dic)[k] != Null {
      var j :| 0 <= j < |ps| && ps[j].0 == k;
      var u := UltimaPosicao(ps, j);
      assert Completa(rows[u]);
    }
  }

  /** The last pair sharing the key of pair `j`. */
  lemma {:induction false} UltimaPosicao(ps: seq<(Value, Value)>, j: nat) returns (u: nat)
    requires j < |ps|
    ensures UltimoDaChave(ps, u) && ps[u].0 == ps[j].0
    decreases |ps| - j
  {
    if UltimoDaChave(ps, j) {
      u := j;
    } else {
      var j2 :| j < j2 < |ps| && ps[j2].0 == ps[j].0;
      u := UltimaPosicao(ps, j2);
    }
  }

  /** `aplicar_correcoes_laboratorio`. `dic` is the dictionary file as read,
      `None` when it is absent or no encoding decodes it, and then nothing
      changes. A dictionary lacking either name column is pandas'
      `KeyError`. Results without the laboratory column are returned as
      they are; otherwise every laboratory name the dictionary maps is
      replaced by its correction and every other cell stays. */
  function AplicarCorrecoesLaboratorio(ia: Table, dic: Option<Table>): (r: Result<Table>)
    requires WellFormed(ia)
    ensures r.Err? <==> dic.Some? && (Lab !in dic.value.cols || LabCorrigido !in dic.value.cols)
    ensures r.Ok? && (dic.None? || Lab !in ia.cols) ==> r.value == ia
    ensures r.Ok? ==> WellFormed(r.value) && r.value.cols == ia.cols && |r.value.rows| == |ia.rows|
    ensures r.Ok? && dic.Some? ==> forall i :: 0 <= i < |ia.rows| ==>
              Get(r.value.rows[i], Lab) == Corrigir(Get(ia.rows[i], Lab), MapaLabs(dic.value))
              && forall c :: c != Lab ==> Get(r.value.rows[i], c) == Get(ia.rows[i], c)
  {
    if dic.None? then Ok(ia)
    else if Lab !in dic.value.cols || LabCorrigido !in dic.value.cols then Err(KeyError(Lab))
    else if Lab !in ia.cols then
      assert forall i :: 0 <= i < |ia.rows| ==> Lab !in ia.rows[i];
      Ok(ia)
    else
      var mapa := MapaLabs(dic.value);
      var rows := seq(|ia.rows|, i requires 0 <= i < |ia.rows| => CorrigirLinha(ia.rows[i], mapa));
      Ok(Table(ia.cols, rows))
  }

  /** The number of present laboratory names, which the stage reports
      before and after the corrections. */
  function Preenchidos(rows: seq<Row>): nat {
    Count(rows, NotNull(Lab))
  }

  /** The corrections never fill or empty a cell: as many laboratory names
      are present after them as before. */
  lemma CorrecoesPreservamPreenchidos(ia: Table, dic: Option<Table>)
    requires WellFormed(ia) && AplicarCorrecoesLaboratorio(ia, dic).Ok?
    ensures Preenchidos(AplicarCorrecoesLaboratorio(ia, dic).value.rows) == Preenchidos(ia.rows)
  {
    var r := AplicarCorrecoesLaboratorio(ia, dic).value;
    if dic.Some? {
      MapaLabsPresente(dic.value);
      ContagemPontual(r.rows, ia.rows, Lab);
    }
  }

  /** Rows that agree on whether `c` is present count the same. */
  lemma {:induction false} ContagemPontual(a: seq<Row>, b: seq<Row>, c: string)
    requires |a| == |b| && forall i :: 0 <= i < |a| ==> (Get(a[i], c) == Null <==> Get(b[i], c) == Null)
    ensures Count(a, NotNull(c)) == Count(b, NotNull(c))
  {
    if |a| > 0 {
      ContagemPontual(a[1..], b[1..], c);
    }
  }

  /** A map whose corrections it leaves alone. */
  predicate Fechado(mapa: map<Value, Value>) {
    forall k :: k in mapa ==> mapa[k] !in mapa || mapa[mapa[k]] == mapa[k]
  }

  lemma CorrigirDuasVezes(m: Row, mapa: map<Value, Value>)
    requires Fechado(mapa)
    ensures CorrigirLinha(CorrigirLinha(m, mapa), mapa) == CorrigirLinha(m, mapa)
  {
    if Lab in m {
      var v := m[Lab];
      if v in mapa && mapa[v] != Null {
        assert Corrigir(mapa[v], mapa) == mapa[v];
      }
    }
  }

  /** A dictionary whose corrections are never themselves renamed corrects
      once and for all: running the corrections again changes nothing. */
  lemma CorrecoesIdempotentes(ia: Table, dic: Table)
    requires WellFormed(ia) && Lab in dic.cols && LabCorrigido in dic.cols && Fechado(MapaLabs(dic))
    ensures AplicarCorrecoesLaboratorio(ia, Some(dic)).Ok?
    ensures AplicarCorrecoesLaboratorio(AplicarCorrecoesLaboratorio(ia, Some(dic)).value, Some(dic)) ==
            AplicarCorrecoesLaboratorio(ia, Some(dic))
  {
    var mapa := MapaLabs(dic);
    var r1 := AplicarCorrecoesLaboratorio(ia, Some(dic)).value;
    var r2 := AplicarCorrecoesLaboratorio(r1, Some(dic)).value;
    if Lab in ia.cols {
      assert r2.cols == r1.cols;
      forall i | 0 <= i < |r2.rows| ensures r2.rows[i] == r1.rows[i] {
        assert r1.rows[i] == CorrigirLinha(ia.rows[i], mapa);
        assert r2.rows[i] == CorrigirLinha(r1.rows[i], mapa);
        CorrigirDuasVezes(ia.rows[i], mapa);
      }
      assert r2.rows == r1.rows;
    }
  }

  // ---------------------------------------------------------------------------
  // Bringing the results back (`juntar_resultados_ia`)
  // ---------------------------------------------------------------------------

  /** `df_ia[['descricao_produto'] + COLUNAS_IA]`, row by row. */
  function Projetar(m: Row): Row {
    map c | c in ColunasCsv :: Get(m, c)
  }

  predicate EhColunaIa(c: string) { c in ColunasIa }

  /** The results frame has the description and every attribute column. */
  predicate TemColunasCsv(ia: Table) {
    forall c :: c in ColunasCsv ==> c in ia.cols
  }

  /** The first result row given for description `k`, if any. */
  function PrimeiroResultado(ia: Table, k: Value): Option<Row> {
    var w := WithKey(ia.rows, ColKey(Desc), k);
    if |w| == 0 then None else Some(w[0])
  }

  /** The attribute `c` a row with description `k` receives: the first
      result's cell, missing when there is no result. */
  function Atributo(ia: Table, k: Value, c: string): Value {
    match PrimeiroResultado(ia, k)
    case None => Null
    case Some(m) => Get(m, c)
  }

  /** The results with one row per description, the first one kept: every
      description of the projected results stays, once, and each row kept
      is the first projected row with its description. */
  function ResultadosUnicos(ia: Table): (r: seq<Row>)
    ensures DistinctKeys(r, ColKey(Desc))
    ensures KeysOf(r, ColKey(Desc)) == KeysOf(Mapear(ia.rows, Projetar), ColKey(Desc))
    ensures forall i :: 0 <= i < |r| ==>
              exists j :: 0 <= j < |ia.rows| && Mapear(ia.rows, Projetar)[j] == r[i]
                && FirstOfKey(Mapear(ia.rows, Projetar), ColKey(Desc), j)
  {
    DedupKeys(Mapear(ia.rows, Projetar), ColKey(Desc));
    DedupBy(Mapear(ia.rows, Projetar), ColKey(Desc))
  }

  /** `juntar_resultados_ia`: the results, reduced to their columns and to
      one row per description, are left-merged on the description into the
      working frame, from which any attribute columns it had are dropped
      first. Results missing one of their columns, or a working frame
      without descriptions, are pandas' `KeyError`. Every working row comes
      out once, in order, with its own cells, and its attributes are those
      of the first result for its description (missing when there is
      none). */
  function JuntarResultadosIa(trab: Table, ia: Table): (r: Result<Table>)
    requires WellFormed(trab)
    ensures r.Err? <==> !TemColunasCsv(ia) || Desc !in trab.cols
    ensures r.Ok? ==> WellFormed(r.value) && |r.value.rows| == |trab.rows|
    ensures r.Ok? ==> forall c :: c in r.value.cols <==> c in trab.cols || c in ColunasIa
    ensures r.Ok? ==> forall i, c :: 0 <= i < |trab.rows| && c !in ColunasIa ==>
              Get(r.value.rows[i], c) == Get(trab.rows[i], c)
    ensures r.Ok? ==> forall i, c :: 0 <= i < |trab.rows| && c in ColunasIa ==>
              Get(r.value.rows[i], c) == Atributo(ia, Get(trab.rows[i], Desc), c)
  {
    if !TemColunasCsv(ia) then Err(KeyError("IA"))
    else if Desc !in trab.cols then Err(KeyError(Desc))
    else
      var left := DropCols(trab, EhColunaIa);
      var right := ResultadosUnicos(ia);
      ColunasCsvDistintas();
      var rows := UtilsLimpeza.MergeRows(left.rows, right, Desc, Desc, ColunasIa, UtilsLimpeza.LeftJoin);
      var r := Table(UnionCols(left.cols, ColunasIa), rows);
      UtilsLimpeza.MergeRowsFit(left, right, Desc, Desc, ColunasIa, UtilsLimpeza.LeftJoin);
      JuntarCelulas(trab, ia, left, right, rows);
      Ok(r)
  }

  /** The cells of the merged rows, column by column. */
  lemma JuntarCelulas(trab: Table, ia: Table, left: Table, right: seq<Row>, rows: seq<Row>)
    requires WellFormed(trab) && Desc in trab.cols
    requires left == DropCols(trab, EhColunaIa) && right == ResultadosUnicos(ia)
    requires rows == UtilsLimpeza.MergeRows(left.rows, right, Desc, Desc, ColunasIa, UtilsLimpeza.LeftJoin)
    ensures |rows| == |trab.rows|
    ensures forall i, c :: 0 <= i < |trab.rows| && c !in ColunasIa ==> Get(rows[i], c) == Get(trab.rows[i], c)
    ensures forall i, c :: 0 <= i < |trab.rows| && c in ColunasIa ==> Get(rows[i], c) == Atributo(ia, Get(trab.rows[i], Desc), c)
  {
    UtilsLimpeza.LeftMergeRowCount(left.rows, right, Desc, Desc, ColunasIa);
    forall i, c | 0 <= i < |trab.rows| && c !in ColunasIa ensures Get(rows[i], c) == Get(trab.rows[i], c) {
      CelulaDeTrabalho(trab, left, right, rows, i, c);
    }
    forall i, c | 0 <= i < |trab.rows| && c in ColunasIa ensures Get(rows[i], c) == Atributo(ia, Get(trab.rows[i], Desc), c) {
      CelulaDeResultado(trab, ia, left, right, rows, i, c);
    }
  }

  lemma CelulaDeTrabalho(trab: Table, left: Table, right: seq<Row>, rows: seq<Row>, i: nat, c: string)
    requires WellFormed(trab) && left == DropCols(trab, EhColunaIa) && DistinctKeys(right, ColKey(Desc))
    requires rows == UtilsLimpeza.MergeRows(left.rows, right, Desc, Desc, ColunasIa, UtilsLimpeza.LeftJoin)
    requires i < |trab.rows| && c !in ColunasIa
    ensures i < |rows| && Get(rows[i], c) == Get(trab.rows[i], c)
  {
    MergeLinha(left.rows, right, ColunasIa, i);
    assert left.rows[i].Keys == ColSet(left.cols) && trab.rows[i].Keys == ColSet(trab.cols);
    if c in trab.cols {
      assert c in left.rows[i];
    }
  }

  lemma CelulaDeResultado(trab: Table, ia: Table, left: Table, right: seq<Row>, rows: seq<Row>, i: nat, c: string)
    requires WellFormed(trab) && Desc in trab.cols && left == DropCols(trab, EhColunaIa) && right == ResultadosUnicos(ia)
    requires rows == UtilsLimpeza.MergeRows(left.rows, right, Desc, Desc, ColunasIa, UtilsLimpeza.LeftJoin)
    requires i < |trab.rows| && c in ColunasIa
    ensures i < |rows| && Get(rows[i], c) == Atributo(ia, Get(trab.rows[i], Desc), c)
  {
    MergeLinha(left.rows, right, ColunasIa, i);
    ColunasCsvDistintas();
    DropGet(trab, EhColunaIa);
    assert Get(left.rows[i], Desc) == Get(trab.rows[i], Desc);
    CasamentosPrimeiro(left.rows[i], ia);
  }

  /** The first left row of a merge against distinct keys yields exactly
      one row. */
  lemma MergeCabeca(left: seq<Row>, right: seq<Row>, extra: seq<string>)
    requires DistinctKeys(right, ColKey(Desc)) && |left| > 0
    ensures UtilsLimpeza.MergeRows(left, right, Desc, Desc, extra, UtilsLimpeza.LeftJoin) ==
            [UtilsLimpeza.Extend(left[0], Unico(UtilsLimpeza.Matches(left[0], right, Desc, Desc)), extra)]
            + UtilsLimpeza.MergeRows(left[1..], right, Desc, Desc, extra, UtilsLimpeza.LeftJoin)
  {
    UtilsLimpeza.AtMostOneMatch(left[0], right, Desc, Desc);
    var ms := UtilsLimpeza.Matches(left[0], right, Desc, Desc);
    if |ms| > 0 {
      assert UtilsLimpeza.ExtendAll(left[0], ms, extra) == [UtilsLimpeza.Extend(left[0], Some(ms[0]), extra)];
    }
  }

  /** The `i`-th row of a left merge against distinct keys: the left row,
      extended with the cells of its match if there is one. */
  lemma {:induction false} MergeLinha(left: seq<Row>, right: seq<Row>, extra: seq<string>, i: nat)
    requires DistinctKeys(right, ColKey(Desc)) && i < |left|
    ensures |UtilsLimpeza.MergeRows(left, right, Desc, Desc, extra, UtilsLimpeza.LeftJoin)| == |left|
    ensures UtilsLimpeza.MergeRows(left, right, Desc, Desc, extra, UtilsLimpeza.LeftJoin)[i] ==
            UtilsLimpeza.Extend(left[i], Unico(UtilsLimpeza.Matches(left[i], right, Desc, Desc)), extra)
  {
    UtilsLimpeza.LeftMergeRowCount(left, right, Desc, Desc, extra);
    MergeCabeca(left, right, extra);
    if i > 0 {
      MergeLinha(left[1..], right, extra, i - 1);
      assert left[1..][i - 1] == left[i];
    }
  }

  function Unico(ms: seq<Row>): Option<Row> {
    if |ms| > 0 then Some(ms[0]) else None
  }

  lemma MapearAppend(a: seq<Row>, b: seq<Row>, f: Row -> Row)
    ensures Mapear(a + b, f) == Mapear(a, f) + Mapear(b, f)
  {
    var l := Mapear(a + b, f);
    var r := Mapear(a, f) + Mapear(b, f);
    forall i | 0 <= i < |l| ensures l[i] == r[i] {
      if i >= |a| {
        assert (a + b)[i] == b[i - |a|];
      }
    }
  }

  /** Projecting keeps the description, so the results of one description
      are the projections of its rows. */
  lemma {:induction false} WithKeyProjetar(s: seq<Row>, k: Value)
    ensures WithKey(Mapear(s, Projetar), ColKey(Desc), k) == Mapear(WithKey(s, ColKey(Desc), k), Projetar)
  {
    if |s| > 0 {
      WithKeyProjetar(s[1..], k);
      assert s == [s[0]] + s[1..];
      assert Mapear(s, Projetar) == [Projetar(s[0])] + Mapear(s[1..], Projetar);
      WithKeyAppend([Projetar(s[0])], Mapear(s[1..], Projetar), ColKey(Desc), k);
      WithKeyAppend([s[0]], s[1..], ColKey(Desc), k);
      WithKeySingle(Projetar(s[0]), ColKey(Desc), k);
      WithKeySingle(s[0], ColKey(Desc), k);
      assert ColKey(Desc)(Projetar(s[0])) == ColKey(Desc)(s[0]);
      MapearAppend(WithKey([s[0]], ColKey(Desc), k), WithKey(s[1..], ColKey(Desc), k), Projetar);
    }
  }

  /** The match of a working row among the unique results is the projection
      of the first result for its description. */
  lemma CasamentosPrimeiro(l: Row, ia: Table)
    ensures Unico(UtilsLimpeza.Matches(l, ResultadosUnicos(ia), Desc, Desc)) ==
            (match PrimeiroResultado(ia, Get(l, Desc)) case None => None case Some(m) => Some(Projetar(m)))
  {
    var k := Get(l, Desc);
    DedupWithKey(Mapear(ia.rows, Projetar), ColKey(Desc), k);
    WithKeyProjetar(ia.rows, k);
  }

  // ---------------------------------------------------------------------------
  // The stage (`processar_extracao_ia`)
  // ---------------------------------------------------------------------------

  /** Where the results come from, by the `usar_gemini_api` switch: the
      model's answers over all batches (`None` when the library or the key
      is missing or no batch came back), or the results file (`None` when
      it does not exist). */
  datatype Fonte = Api(resposta: Option<Table>) | Arquivo(conteudo: Option<Table>)

  predicate FonteBemFormada(f: Fonte) {
    match f
    case Api(x) => x.Some? ==> WellFormed(x.value)
    case Arquivo(x) => x.Some? ==> WellFormed(x.value)
  }

  /** The results the stage works with: the model's, those of the file, or
      the placeholder when there is no file. A failed model run is the
      stage's `RuntimeError`. */
  function ObterResultados(prep: Table, fonte: Fonte): (r: Result<Table>)
    requires WellFormed(prep) && Desc in prep.cols && FonteBemFormada(fonte)
    ensures r.Err? <==> fonte == Api(None)
    ensures r.Err? ==> r.error.RuntimeError?
    ensures r.Ok? ==> WellFormed(r.value)
    ensures fonte == Arquivo(None) ==> r == CriarResultadosIaVazios(prep)
  {
    match fonte
    case Api(None) => Err(RuntimeError("Processamento com Gemini falhou"))
    case Api(Some(x)) => Ok(x)
    case Arquivo(Some(x)) => Ok(x)
    case Arquivo(None) => CriarResultadosIaVazios(prep)
  }

  /** `processar_extracao_ia` from the loaded stage-13 frame on: prepare,
      obtain the results, correct the laboratories, merge. The merge is made
      into the frame as loaded, not the prepared one. The output has every
      input row once, in order, with its cells outside the attribute
      columns. */
  function ProcessarExtracaoIa(t: Table, fonte: Fonte, dic: Option<Table>): (r: Result<Table>)
    requires WellFormed(t) && FonteBemFormada(fonte)
    ensures Desc !in t.cols ==> r == Err(KeyError(Desc))
    ensures Desc in t.cols && fonte == Api(None) ==> r.Err? && r.error.RuntimeError?
    ensures r.Ok? ==> |r.value.rows| == |t.rows|
    ensures r.Ok? ==> forall i, c :: 0 <= i < |t.rows| && c !in ColunasIa ==> Get(r.value.rows[i], c) == Get(t.rows[i], c)
  {
    match PrepararDadosParaIa(t)
    case Err(e) => Err(e)
    case Ok(prep) =>
      match ObterResultados(prep, fonte)
      case Err(e) => Err(e)
      case Ok(ia) =>
        match AplicarCorrecoesLaboratorio(ia, dic)
        case Err(e) => Err(e)
        case Ok(corr) => JuntarResultadosIa(t, corr)
  }

  /** An attribute no result row carries reads as missing. */
  lemma AtributoNulo(ia: Table, k: Value, c: string)
    requires forall j :: 0 <= j < |ia.rows| ==> Get(ia.rows[j], c) == Null
    ensures Atributo(ia, k, c) == Null
  {
    var w := WithKey(ia.rows, ColKey(Desc), k);
    if |w| > 0 {
      assert w[0] in ia.rows;
    }
  }

  /** Attribute columns that are all missing stay so under the
      corrections. */
  lemma CorrecoesMantemNulos(ia: Table, dic: Option<Table>)
    requires WellFormed(ia) && AplicarCorrecoesLaboratorio(ia, dic).Ok?
    requires forall j, c :: 0 <= j < |ia.rows| && c in ColunasIa ==> Get(ia.rows[j], c) == Null
    ensures forall j, c :: 0 <= j < |ia.rows| && c in ColunasIa ==> Get(AplicarCorrecoesLaboratorio(ia, dic).value.rows[j], c) == Null
  {
    if dic.Some? {
      MapaLabsPresente(dic.value);
    }
  }

  /** Without the model and without a results file the stage still runs to
      the end, and every attribute of every row is missing: the
      placeholder carries none and the corrections never fill a cell. */
  lemma SemResultadosAtributosNulos(t: Table, dic: Option<Table>)
    requires WellFormed(t) && Desc in t.cols && ProcessarExtracaoIa(t, Arquivo(None), dic).Ok?
    ensures forall i, c :: 0 <= i < |t.rows| && c in ColunasIa ==> Get(ProcessarExtracaoIa(t, Arquivo(None), dic).value.rows[i], c) == Null
  {
    var prep := PrepararDadosParaIa(t).value;
    var ia := CriarResultadosIaVazios(prep).value;
    var corr := AplicarCorrecoesLaboratorio(ia, dic).value;
    CorrecoesMantemNulos(ia, dic);
    forall i, c | 0 <= i < |t.rows| && c in ColunasIa
      ensures Get(ProcessarExtracaoIa(t, Arquivo(None), dic).value.rows[i], c) == Null
    {
      AtributoNulo(corr, Get(t.rows[i], Desc), c);
    }
  }

  // ---------------------------------------------------------------------------
  // The merge key
  // ---------------------------------------------------------------------------

  /** The description a row is sent to the model with: the results are
      keyed by it. */
  function ChavePreparada(m: Row): Value { Get(Preparada(m), Desc) }

  function ComChavePreparada(m: Row): Row { m[Desc := ChavePreparada(m)] }

  /** A working row whose description carries a batch number. */
  function LinhaComLote(): Row { map[Desc := Str("DIPIRONA LOTE 1")] }

  /** The model's answer for the description that row is sent with: the
      product is `DIPIRONA`, every other attribute missing. */
  function RespostaDipirona(): Row {
    map c | c in ColunasCsv :: if c in [Desc, "IA_PRODUTO"] then Str("DIPIRONA") else Null
  }

  function TrabalhoComLote(): Table { Table([Desc], [LinhaComLote()]) }

  function ResultadosDipirona(): Table { Table(ColunasCsv, [RespostaDipirona()]) }

  /** The merge looks the results up by the description as loaded, while
      the results are keyed by the prepared description. A row whose
      description carries a batch number is sent as `DIPIRONA`, the model
      answers for `DIPIRONA`, and the row still receives no attribute. */
  lemma ChaveOriginalPerdeResultado()
    ensures ChavePreparada(LinhaComLote()) == Str("DIPIRONA")
    ensures Atributo(ResultadosDipirona(), ChavePreparada(LinhaComLote()), "IA_PRODUTO") == Str("DIPIRONA")
    ensures WellFormed(TrabalhoComLote())
    ensures var r := JuntarResultadosIa(TrabalhoComLote(), ResultadosDipirona());
            r.Ok? && Get(r.value.rows[0], "IA_PRODUTO") == Null
    ensures var r := JuntarResultadosIaCorrigida(TrabalhoComLote(), ResultadosDipirona());
            r.Ok? && Get(r.value.rows[0], "IA_PRODUTO") == Str("DIPIRONA")
  {
    ChaveComLote();
    RespostaPorChave();
    ComoEscritoSemAtributo();
    CorrigidaComAtributo();
  }

  lemma ComoEscritoSemAtributo()
    ensures WellFormed(TrabalhoComLote())
    ensures var r := JuntarResultadosIa(TrabalhoComLote(), ResultadosDipirona());
            r.Ok? && Get(r.value.rows[0], "IA_PRODUTO") == Null
  {
    TrabalhoComLoteBemFormado();
    ResultadosDipironaCompletos();
    RespostaPorChave();
    assert "IA_PRODUTO" == ColunasIa[0];
  }

  lemma CorrigidaComAtributo()
    ensures WellFormed(TrabalhoComLote())
    ensures var r := JuntarResultadosIaCorrigida(TrabalhoComLote(), ResultadosDipirona());
            r.Ok? && Get(r.value.rows[0], "IA_PRODUTO") == Str("DIPIRONA")
  {
    TrabalhoComLoteBemFormado();
    ResultadosDipironaCompletos();
    RespostaPorChave();
    ChaveComLote();
    ProdutoDaPrimeiraLinha(TrabalhoComLote(), ResultadosDipirona());
    assert TrabalhoComLote().rows[0] == LinhaComLote();
  }

  /** The product the corrected merge gives the first working row. */
  lemma ProdutoDaPrimeiraLinha(trab: Table, ia: Table)
    requires WellFormed(trab) && Desc in trab.cols && TemColunasCsv(ia) && |trab.rows| > 0
    ensures var r := JuntarResultadosIaCorrigida(trab, ia);
            r.Ok? && Get(r.value.rows[0], "IA_PRODUTO") == Atributo(ia, ChavePreparada(trab.rows[0]), "IA_PRODUTO")
  {
    assert "IA_PRODUTO" == ColunasIa[0];
  }

  lemma ChaveComLote()
    ensures ChavePreparada(LinhaComLote()) == Str("DIPIRONA")
  {
    var m := LinhaComLote();
    assert Get(m, Desc) == Str("DIPIRONA LOTE 1");
    TruncarDipirona();
    var t := TruncarLinha(m);
    assert Get(t, Desc) == Str("DIPIRONA");
    DipironaNormalizada();
  }

  lemma DipironaNormalizada()
    ensures NormalizeSpaces("DIPIRONA") == "DIPIRONA"
  {
    NormalizeSpacesWord("DIPIRONA");
  }

  lemma TrabalhoComLoteBemFormado()
    ensures WellFormed(TrabalhoComLote()) && Desc in TrabalhoComLote().cols && |TrabalhoComLote().rows| == 1
    ensures Get(TrabalhoComLote().rows[0], Desc) == Str("DIPIRONA LOTE 1")
  {
  }

  lemma ResultadosDipironaCompletos()
    ensures TemColunasCsv(ResultadosDipirona())
  {
  }

  /** The answer is found under the prepared description and not under
      the one as loaded. */
  lemma RespostaPorChave()
    ensures Atributo(ResultadosDipirona(), Str("DIPIRONA"), "IA_PRODUTO") == Str("DIPIRONA")
    ensures Atributo(ResultadosDipirona(), Str("DIPIRONA LOTE 1"), "IA_PRODUTO") == Null
  {
    var res := RespostaDipirona();
    assert res[Desc] == Str("DIPIRONA") && res["IA_PRODUTO"] == Str("DIPIRONA");
    AtributoDeUm(ColunasCsv, res, Str("DIPIRONA"), "IA_PRODUTO");
    AtributoDeUm(ColunasCsv, res, Str("DIPIRONA LOTE 1"), "IA_PRODUTO");
  }

  /** A results frame of one row answers only for that row's description. */
  lemma AtributoDeUm(cols: seq<string>, res: Row, k: Value, c: string)
    ensures Atributo(Table(cols, [res]), k, c) == if Get(res, Desc) == k then Get(res, c) else Null
  {
    WithKeySingle(res, ColKey(Desc), k);
  }

  lemma TruncarDipirona()
    ensures Truncar("DIPIRONA LOTE 1") == "DIPIRONA"
  {
    var s := "DIPIRONA LOTE 1";
    DipironaSeparador();
    DipironaSemSeparadorAntes();
    CorteUnico(s, 8);
    DipironaSemLote();
  }

  lemma DipironaSemLote()
    ensures Strip("DIPIRONA LOTE 1"[..8]) == "DIPIRONA"
  {
    assert "DIPIRONA LOTE 1"[..8] == "DIPIRONA";
    StripNoSpace("DIPIRONA");
  }

  lemma DipironaSeparador()
    ensures SeparadorEm("DIPIRONA LOTE 1", 8)
  {
    var s := "DIPIRONA LOTE 1";
    assert s[8..] == " LOTE 1";
    assert SpaceRun(s[8..], 0) == 1;
    assert s[8..][1..] == "LOTE 1";
  }

  lemma DipironaSemSeparadorAntes()
    ensures forall k :: 0 <= k < 8 ==> !SeparadorEm("DIPIRONA LOTE 1", k)
  {
    var s := "DIPIRONA LOTE 1";
    forall k | 0 <= k < 8 ensures !SeparadorEm(s, k) {
      assert s[k..][0] == s[k];
    }
  }

  /** A cut at a match, or at the end, with no match before it, is the cut
      `Truncar` makes. */
  lemma CorteUnico(s: string, c: nat)
    requires c <= |s| && (c == |s| || SeparadorEm(s, c))
    requires forall k :: 0 <= k < c ==> !SeparadorEm(s, k)
    ensures Truncar(s) == Strip(s[..c])
  {
    var d :| 0 <= d <= |s| && Truncar(s) == Strip(s[..d]) && (d == |s| || SeparadorEm(s, d))
             && forall k :: 0 <= k < d ==> !SeparadorEm(s, k);
    assert d == c;
  }

  /** Every row gets back its own description. */
  function Restaurar(j: Table, trab: Table): (r: Table)
    requires WellFormed(j) && Desc in j.cols && |j.rows| == |trab.rows|
    ensures WellFormed(r) && r.cols == j.cols && |r.rows| == |j.rows|
    ensures forall i :: 0 <= i < |r.rows| ==> r.rows[i] == j.rows[i][Desc := Get(trab.rows[i], Desc)]
  {
    Table(j.cols, seq(|j.rows|, i requires 0 <= i < |j.rows| => j.rows[i][Desc := Get(trab.rows[i], Desc)]))
  }

  lemma ComChaveMesmasColunas()
    ensures forall m: Row :: ComChavePreparada(m).Keys == m.Keys + {Desc}
  {
    forall m: Row ensures ComChavePreparada(m).Keys == m.Keys + {Desc} {
    }
  }

  /** The working frame with every description replaced by its prepared
      form. */
  function ComChaves(trab: Table): (r: Table)
    requires WellFormed(trab) && Desc in trab.cols
    ensures WellFormed(r) && r.cols == trab.cols && |r.rows| == |trab.rows|
    ensures forall i :: 0 <= i < |trab.rows| ==> r.rows[i] == ComChavePreparada(trab.rows[i])
  {
    ComChaveMesmasColunas();
    Reescrever(trab, ComChavePreparada)
  }

  /** The merge as evidently intended: each working row is looked up by the
      description it was sent with, and keeps its own description. */
  function JuntarResultadosIaCorrigida(trab: Table, ia: Table): (r: Result<Table>)
    requires WellFormed(trab)
    ensures r.Err? <==> !TemColunasCsv(ia) || Desc !in trab.cols
    ensures r.Ok? ==> WellFormed(r.value) && |r.value.rows| == |trab.rows|
    ensures r.Ok? ==> forall c :: c in r.value.cols <==> c in trab.cols || c in ColunasIa
    ensures r.Ok? ==> forall i, c :: 0 <= i < |trab.rows| && c !in ColunasIa ==>
              Get(r.value.rows[i], c) == Get(trab.rows[i], c)
    ensures r.Ok? ==> forall i, c :: 0 <= i < |trab.rows| && c in ColunasIa ==>
              Get(r.value.rows[i], c) == Atributo(ia, ChavePreparada(trab.rows[i]), c)
  {
    if Desc !in trab.cols then
      if TemColunasCsv(ia) then Err(KeyError(Desc)) else Err(KeyError("IA"))
    else
      var tk := ComChaves(trab);
      match JuntarResultadosIa(tk, ia)
      case Err(e) => Err(e)
      case Ok(j) =>
        assert Juntado(j, tk, ia);
        var r := Restaurar(j, trab);
        CelulasCorrigidas(trab, ia, tk, j, r);
        Ok(r)
  }

  lemma CelulasCorrigidas(trab: Table, ia: Table, tk: Table, j: Table, r: Table)
    requires |tk.rows| == |trab.rows| && forall i :: 0 <= i < |trab.rows| ==> tk.rows[i] == ComChavePreparada(trab.rows[i])
    requires Juntado(j, tk, ia) && WellFormed(j) && Desc in j.cols && r == Restaurar(j, trab)
    ensures forall i, c :: 0 <= i < |trab.rows| && c !in ColunasIa ==> Get(r.rows[i], c) == Get(trab.rows[i], c)
    ensures forall i, c :: 0 <= i < |trab.rows| && c in ColunasIa ==> Get(r.rows[i], c) == Atributo(ia, ChavePreparada(trab.rows[i]), c)
  {
    forall i, c | 0 <= i < |trab.rows| ensures
      && (c !in ColunasIa ==> Get(r.rows[i], c) == Get(trab.rows[i], c))
      && (c in ColunasIa ==> Get(r.rows[i], c) == Atributo(ia, ChavePreparada(trab.rows[i]), c))
    {
      CelulaCorrigida(trab, ia, tk, j, r, i, c);
    }
  }

  /** What the merge promises about the rows of `j`, merged into `tk`. */
  ghost predicate Juntado(j: Table, tk: Table, ia: Table) {
    |j.rows| == |tk.rows|
    && (forall i, c :: 0 <= i < |tk.rows| && c !in ColunasIa ==> Get(j.rows[i], c) == Get(tk.rows[i], c))
    && (forall i, c :: 0 <= i < |tk.rows| && c in ColunasIa ==> Get(j.rows[i], c) == Atributo(ia, Get(tk.rows[i], Desc), c))
  }

  lemma CelulaCorrigida(trab: Table, ia: Table, tk: Table, j: Table, r: Table, i: nat, c: string)
    requires |tk.rows| == |trab.rows| && forall i :: 0 <= i < |trab.rows| ==> tk.rows[i] == ComChavePreparada(trab.rows[i])
    requires Juntado(j, tk, ia) && WellFormed(j) && Desc in j.cols
    requires r == Restaurar(j, trab) && i < |trab.rows|
    ensures c !in ColunasIa ==> Get(r.rows[i], c) == Get(trab.rows[i], c)
    ensures c in ColunasIa ==> Get(r.rows[i], c) == Atributo(ia, ChavePreparada(trab.rows[i]), c)
  {
    assert r.rows[i] == j.rows[i][Desc := Get(trab.rows[i], Desc)];
    var m := trab.rows[i];
    assert tk.rows[i] == m[Desc := ChavePreparada(m)];
    if c != Desc {
      assert Get(r.rows[i], c) == Get(j.rows[i], c);
      assert Get(tk.rows[i], c) == Get(m, c);
    }
    if c in ColunasIa {
      assert Get(tk.rows[i], Desc) == ChavePreparada(m);
    }
  }

  /** When every description is already in its prepared form the two
      merges agree. */
  lemma CorrigidaConcorda(trab: Table, ia: Table)
    requires WellFormed(trab) && forall i :: 0 <= i < |trab.rows| ==> ChavePreparada(trab.rows[i]) == Get(trab.rows[i], Desc)
    ensures JuntarResultadosIaCorrigida(trab, ia) == JuntarResultadosIa(trab, ia)
  {
    if Desc in trab.cols {
      ChavesJaPreparadas(trab);
      CorrigidaRestaura(trab, ia);
      var r := JuntarResultadosIa(trab, ia);
      if r.Ok? {
        ColunasCsvDistintas();
        RestaurarNada(r.value, trab);
      }
    }
  }

  /** The corrected merge is the as-written merge of the prepared frame,
      with the descriptions restored. */
  lemma CorrigidaRestaura(trab: Table, ia: Table)
    requires WellFormed(trab) && Desc in trab.cols
    ensures var r := JuntarResultadosIa(ComChaves(trab), ia);
            && JuntarResultadosIaCorrigida(trab, ia).Err? == r.Err?
            && (r.Err? ==> JuntarResultadosIaCorrigida(trab, ia) == r)
            && (r.Ok? ==> JuntarResultadosIaCorrigida(trab, ia) == Ok(Restaurar(r.value, trab)))
  {
  }

  lemma ChavesJaPreparadas(trab: Table)
    requires WellFormed(trab) && Desc in trab.cols
    requires forall i :: 0 <= i < |trab.rows| ==> ChavePreparada(trab.rows[i]) == Get(trab.rows[i], Desc)
    ensures ComChaves(trab) == trab
  {
    var tk := ComChaves(trab);
    forall i | 0 <= i < |trab.rows| ensures tk.rows[i] == trab.rows[i] {
      assert Desc in trab.rows[i];
    }
  }

  /** Restoring descriptions a frame already has changes nothing. */
  lemma RestaurarNada(j: Table, trab: Table)
    requires WellFormed(j) && Desc in j.cols && |j.rows| == |trab.rows|
    requires forall i :: 0 <= i < |trab.rows| ==> Get(j.rows[i], Desc) == Get(trab.rows[i], Desc)
    ensures Restaurar(j, trab) == j
  {
    var r := Restaurar(j, trab);
    forall i | 0 <= i < |j.rows| ensures r.rows[i] == j.rows[i] {
      assert Desc in j.rows[i];
    }
  }
}
