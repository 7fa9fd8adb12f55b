/** Expiry of the invoice items (`src/nfe_vencimento.py`): three date
    columns are cleaned, the shelf-life metrics are computed in days, every
    item gets an expiry category, and the frame is split into a base table
    and an expiry table joined by `chave_codigo`.

    Dates are kept as civil dates (`Dates.Date`) and compared through their
    day numbers; the pandas date parser is the parameter `parse`. */
module Vencimento {
  import opened Wrappers
  import opened Text
  import opened Seqs
  import opened Frame
  import opened Dates

  // ---------------------------------------------------------------------------
  // limpar_datas
  // ---------------------------------------------------------------------------

  /** Texts that stand for "no date". */
  const Invalidos: seq<string> := ["-1", "", "nan", "None", "NaT", "NULL", "null"]

  /** Placeholder dates that are discarded after parsing. */
  const Marcadores: seq<Date> := [Date(2000, 1, 1), Date(2010, 1, 1), Date(2020, 1, 1)]

  /** `astype(str)` of a cell; a number is rendered by `render`. */
  function ComoTexto(v: Value, render: real -> string): string {
    match v
    case Null => "nan"
    case Str(s) => s
    case Num(x) => render(x)
    case Flag(b) => if b then "True" else "False"
  }

  /** `YYYYMMDD` becomes `YYYY-MM-DD`: the digits stay in place around
      the two hyphens. */
  function Hifenizar(s: string): (r: string)
    requires |s| == 8
    ensures |r| == 10 && r[4] == '-' && r[7] == '-'
    ensures r[..4] == s[..4] && r[5..7] == s[4..6] && r[8..] == s[6..]
  {
    s[..4] + "-" + s[4..6] + "-" + s[6..]
  }

  predicate OitoDigitos(s: string) { |s| == 8 && AllDigits(s) }

  /** The text handed to the date parser for one cell, or nothing for a
      text that means "no date"; eight digits are read as `YYYYMMDD`. */
  function TextoParaData(texto: string): (r: Option<string>)
    ensures r.None? <==> Strip(texto) in Invalidos
    ensures r.Some? && OitoDigitos(Strip(texto)) ==> r.value == Hifenizar(Strip(texto))
  {
    var s := Strip(texto);
    if s in Invalidos then None
    else if OitoDigitos(s) then Some(Hifenizar(s))
    else Some(s)
  }

  /** `limpar_datas` on one cell: a text meaning "no date", a text the
      parser rejects and a placeholder date all give no date. The parser
      only ever yields calendar dates; anything else counts as rejected. */
  function LimparData(texto: string, parse: string -> Option<Date>): (r: Option<Date>)
    ensures Strip(texto) in Invalidos ==> r.None?
    ensures r.Some? ==> Valid(r.value) && r.value !in Marcadores
    ensures r.Some? ==> parse(TextoParaData(texto).value) == r
    ensures (TextoParaData(texto).Some? && parse(TextoParaData(texto).value).Some? &&
             Valid(parse(TextoParaData(texto).value).value) &&
             parse(TextoParaData(texto).value).value !in Marcadores) ==> r.Some?
  {
    var s := TextoParaData(texto);
    if s.None? then None
    else
      var d := parse(s.value);
      if d.Some? && (!Valid(d.value) || d.value in Marcadores) then None else d
  }

  /** `YYYY-MM-DD`. */
  function Iso(d: Date): string
    requires Valid(d) && FourDigitYear(d)
  {
    Digits(d.year, 4) + "-" + Digits(d.month, 2) + "-" + Digits(d.day, 2)
  }

  /** A date written as `YYYYMMDD` comes back as itself (unless it is a
      placeholder), given a parser that reads ISO dates. */
  lemma LimparDataYyyymmdd(d: Date, parse: string -> Option<Date>)
    requires Valid(d) && FourDigitYear(d) && parse(Iso(d)) == Some(d)
    ensures LimparData(Yyyymmdd(d), parse) == if d in Marcadores then None else Some(d)
  {
    var s := Yyyymmdd(d);
    StripNoSpace(s);
    assert s !in Invalidos by {
      assert forall k :: 0 <= k < |Invalidos| ==> |Invalidos[k]| != 8;
    }
    assert s[..4] == Digits(d.year, 4);
    assert s[4..6] == Digits(d.month, 2);
    assert s[6..] == Digits(d.day, 2);
    assert TextoParaData(s) == Some(Iso(d));
  }

  /** Texts meaning "no date" never reach the parser, whatever it does. */
  lemma InvalidosSemData(parse: string -> Option<Date>)
    ensures forall k :: 0 <= k < |Invalidos| ==> LimparData(Invalidos[k], parse).None?
  {
    forall k | 0 <= k < |Invalidos| ensures LimparData(Invalidos[k], parse).None? {
      var s := Invalidos[k];
      assert forall i :: 0 <= i < |s| ==> !IsSpace(s[i]);
      StripNoSpace(s);
    }
  }

  // ---------------------------------------------------------------------------
  // calcular_metricas_vencimento
  // ---------------------------------------------------------------------------

  /** A date as a day count, for differences in days. */
  function Dia(d: Option<Date>): Option<int>
    requires d.Some? ==> Valid(d.value)
  {
    if d.None? then None else Some(DayNumber(d.value))
  }

  /** `(a - b).dt.days`; a missing date gives a missing difference. */
  function Menos(a: Option<int>, b: Option<int>): Option<int> {
    if a.Some? && b.Some? then Some(a.value - b.value) else None
  }

  datatype Metricas = Metricas(vidaTotal: Option<int>, vidaUsada: Option<int>, diasRestantes: Option<int>, porcento: Option<real>)

  /** `calcular_metricas_vencimento` on one item (days): total life from
      manufacture to expiry, life used up to the invoice (never negative),
      days left from the invoice to expiry, and the share of life used,
      defined only when the total life is positive. */
  function CalcularMetricas(fab: Option<int>, val: Option<int>, emis: Option<int>): (m: Metricas)
    ensures m.vidaTotal == Menos(val, fab) && m.diasRestantes == Menos(val, emis)
    ensures m.vidaUsada.Some? <==> fab.Some? && emis.Some?
    ensures m.vidaUsada.Some? ==> m.vidaUsada.value >= 0 && m.vidaUsada.value >= emis.value - fab.value
    ensures m.vidaUsada.Some? && emis.value >= fab.value ==> m.vidaUsada.value == emis.value - fab.value
    ensures m.vidaUsada.Some? && emis.value < fab.value ==> m.vidaUsada.value == 0
    ensures m.porcento.Some? <==> fab.Some? && val.Some? && emis.Some? && val.value > fab.value
    ensures m.porcento.Some? ==> (0.0 <= m.porcento.value &&
                                  m.porcento.value * (m.vidaTotal.value as real) == m.vidaUsada.value as real)
  {
    var total := Menos(val, fab);
    var usada := if fab.Some? && emis.Some? then Some(if emis.value - fab.value < 0 then 0 else emis.value - fab.value) else None;
    var restantes := Menos(val, emis);
    var p := if total.Some? && total.value > 0 && usada.Some? then Some(usada.value as real / total.value as real) else None;
    Metricas(total, usada, restantes, p)
  }

  /** With the invoice after manufacture, life used and days left add up to
      the total life, and the share used is at most 1 exactly when the item
      had not expired at the invoice. */
  lemma MetricasSomam(fab: int, val: int, emis: int)
    requires fab <= emis && fab < val
    ensures CalcularMetricas(Some(fab), Some(val), Some(emis)).vidaUsada.value +
            CalcularMetricas(Some(fab), Some(val), Some(emis)).diasRestantes.value ==
            CalcularMetricas(Some(fab), Some(val), Some(emis)).vidaTotal.value
    ensures CalcularMetricas(Some(fab), Some(val), Some(emis)).porcento.value <= 1.0 <==> emis <= val
  {
    var m := CalcularMetricas(Some(fab), Some(val), Some(emis));
    var t := (val - fab) as real;
    assert m.porcento.value * t == (emis - fab) as real;
    if emis <= val {
      assert (emis - fab) as real <= t;
      assert m.porcento.value * t <= 1.0 * t;
    } else {
      assert (emis - fab) as real > t;
      assert m.porcento.value * t > 1.0 * t;
    }
  }

  // ---------------------------------------------------------------------------
  // categorizar_vencimento
  // ---------------------------------------------------------------------------

  datatype Categoria = Vencido | MuitoProximo | Proximo | Aceitavel | Indeterminado

  function Rotulo(c: Categoria): string {
    match c
    case Vencido => "VENCIDO"
    case MuitoProximo => "MUITO PROXIMO AO VENCIMENTO"
    case Proximo => "PROXIMO AO VENCIMENTO"
    case Aceitavel => "PRAZO ACEITAVEL"
    case Indeterminado => "INDETERMINADO"
  }

  /** Comparisons with a missing value are false, as in pandas. */
  predicate Menor(a: Option<int>, k: int) { a.Some? && a.value < k }
  predicate Maior(a: Option<int>, k: int) { a.Some? && a.value > k }
  predicate PorcentoAtLeast(p: Option<real>, x: real) { p.Some? && p.value >= x }
  predicate PorcentoBelow(p: Option<real>, x: real) { p.Some? && p.value < x }

  predicate CondVencido(emis: Option<int>, val: Option<int>) {
    emis.Some? && val.Some? && emis.value > val.value
  }
  predicate CondMuitoProximo(m: Metricas) {
    PorcentoAtLeast(m.porcento, 0.75) && Menor(m.diasRestantes, 365)
  }
  predicate CondProximo(m: Metricas) {
    PorcentoAtLeast(m.porcento, 0.25) && PorcentoBelow(m.porcento, 0.75) && Menor(m.diasRestantes, 365)
  }
  /** Forced to INDETERMINADO whatever the other conditions say. */
  predicate CondExtra(m: Metricas) {
    Menor(m.diasRestantes, -3650) || (m.vidaTotal.Some? && m.vidaTotal.value == 0)
  }

  /** `np.select` over the four conditions in order (the first that holds
      wins, INDETERMINADO by default), then the forced INDETERMINADO;
      `aceitavel` is the acceptable-term condition in use. */
  function Selecionar(vencido: bool, muito: bool, prox: bool, aceitavel: bool, extra: bool): (c: Categoria)
    ensures extra ==> c == Indeterminado
    ensures !extra && vencido ==> c == Vencido
    ensures c == MuitoProximo <==> !extra && !vencido && muito
    ensures c == Proximo <==> !extra && !vencido && !muito && prox
    ensures c == Aceitavel <==> !extra && !vencido && !muito && !prox && aceitavel
    ensures c == Indeterminado <==> extra || (!vencido && !muito && !prox && !aceitavel)
  {
    if extra then Indeterminado
    else if vencido then Vencido
    else if muito then MuitoProximo
    else if prox then Proximo
    else if aceitavel then Aceitavel
    else Indeterminado
  }

  /** `categorizar_vencimento` as written: acceptable means less than 75%
      of life used or MORE than 365 days left. */
  function CategorizarComoEscrito(emis: Option<int>, val: Option<int>, m: Metricas): Categoria {
    Selecionar(CondVencido(emis, val), CondMuitoProximo(m), CondProximo(m),
               PorcentoBelow(m.porcento, 0.75) || Maior(m.diasRestantes, 365), CondExtra(m))
  }

  /** The category with the acceptable term closed at 365 days, the
      complement of the `< 365` of the two "close to expiry" categories. */
  function Categorizar(emis: Option<int>, val: Option<int>, m: Metricas): Categoria {
    Selecionar(CondVencido(emis, val), CondMuitoProximo(m), CondProximo(m),
               PorcentoBelow(m.porcento, 0.75) || Maior(m.diasRestantes, 364), CondExtra(m))
  }

  /** As written, an item with all three dates, a positive life, 75% of it
      used and exactly 365 days left falls through every condition: made
      on day 0, expiring on day 1460, invoiced on day 1095. */
  lemma ComoEscritoLacuna365()
    ensures CalcularMetricas(Some(0), Some(1460), Some(1095)).diasRestantes == Some(365)
    ensures CalcularMetricas(Some(0), Some(1460), Some(1095)).porcento == Some(0.75)
    ensures CategorizarComoEscrito(Some(1095), Some(1460), CalcularMetricas(Some(0), Some(1460), Some(1095))) == Indeterminado
  {
    var m := CalcularMetricas(Some(0), Some(1460), Some(1095));
    assert m.porcento.value * 1460.0 == 1095.0;
  }

  /** With the term closed, every item with the three dates and a positive
      total life gets a real category, unless it was invoiced more than ten
      years after expiring. */
  lemma CategorizarSempreDecide(fab: int, val: int, emis: int)
    requires val > fab && emis <= val + 3650
    ensures Categorizar(Some(emis), Some(val), CalcularMetricas(Some(fab), Some(val), Some(emis))) != Indeterminado
  {
    var m := CalcularMetricas(Some(fab), Some(val), Some(emis));
    assert !CondExtra(m) by {
      if !CondVencido(Some(emis), Some(val)) {
        assert m.diasRestantes.value >= 0;
      }
    }
  }

  /** The two versions differ only on that gap: exactly 365 days left and
      no share below 75% (at least 75%, or no share at all), where the
      closed term says PRAZO ACEITAVEL. */
  lemma CategorizarDifereSoEm365(emis: Option<int>, val: Option<int>, m: Metricas)
    ensures Categorizar(emis, val, m) != CategorizarComoEscrito(emis, val, m) <==>
              !CondExtra(m) && !CondVencido(emis, val) && !PorcentoBelow(m.porcento, 0.75) && m.diasRestantes == Some(365)
    ensures Categorizar(emis, val, m) != CategorizarComoEscrito(emis, val, m) ==>
              Categorizar(emis, val, m) == Aceitavel && CategorizarComoEscrito(emis, val, m) == Indeterminado
  {
  }

  /** An item invoiced after its expiry date is VENCIDO unless the extra
      conditions force INDETERMINADO; "close to expiry" needs fewer than
      365 days left. */
  lemma CategoriasSignificado(emis: Option<int>, val: Option<int>, m: Metricas)
    ensures CondVencido(emis, val) && !CondExtra(m) ==> Categorizar(emis, val, m) == Vencido
    ensures Categorizar(emis, val, m) in {MuitoProximo, Proximo} ==> Menor(m.diasRestantes, 365) && !CondVencido(emis, val)
    ensures Categorizar(emis, val, m) == Aceitavel ==> PorcentoBelow(m.porcento, 0.75) || Maior(m.diasRestantes, 364)
  {
  }

  /** The same reading of the categories as written, whose acceptable term
      starts above 365 days. */
  lemma CategoriasSignificadoComoEscrito(emis: Option<int>, val: Option<int>, m: Metricas)
    ensures CondVencido(emis, val) && !CondExtra(m) ==> CategorizarComoEscrito(emis, val, m) == Vencido
    ensures CategorizarComoEscrito(emis, val, m) in {MuitoProximo, Proximo} ==> Menor(m.diasRestantes, 365) && !CondVencido(emis, val)
    ensures CategorizarComoEscrito(emis, val, m) == Aceitavel ==> PorcentoBelow(m.porcento, 0.75) || Maior(m.diasRestantes, 365)
  {
  }

  // ---------------------------------------------------------------------------
  // processar_vencimento_nfe
  // ---------------------------------------------------------------------------

  const Chave := "chave_codigo"
  const Necessarias: seq<string> := ["id_data_fabricacao", "id_data_validade", "data_emissao", Chave]

  /** The columns the stage adds, none of which stays in the base table. */
  const Derivadas: seq<string> := [
    "dt_fabricacao", "dt_validade", "dt_emissao", "vida_total", "vida_usada",
    "dias_restantes", "vida_usada_porcento", "categoria_vencimento", "id_venc"
  ]

  /** A row of the expiry table: exactly the nine columns of `colunas_venc`. */
  datatype Venc = Venc(idVenc: string, dtFabricacao: Option<Date>, dtValidade: Option<Date>, dtEmissao: Option<Date>,
                       vidaTotal: Option<int>, vidaUsada: Option<int>, diasRestantes: Option<int>,
                       porcento: Option<real>, categoria: Categoria)

  /** The expiry row of one item. */
  function VencDe(row: Row, parse: string -> Option<Date>, render: real -> string): (v: Venc)
    ensures v.idVenc == ComoTexto(Get(row, Chave), render)
    ensures v.dtFabricacao == LimparData(ComoTexto(Get(row, "id_data_fabricacao"), render), parse)
    ensures v.dtValidade == LimparData(ComoTexto(Get(row, "id_data_validade"), render), parse)
    ensures v.dtEmissao == LimparData(ComoTexto(Get(row, "data_emissao"), render), parse)
    ensures v.categoria == CategorizarComoEscrito(Dia(v.dtEmissao), Dia(v.dtValidade),
                                                  Metricas(v.vidaTotal, v.vidaUsada, v.diasRestantes, v.porcento))
    ensures v.diasRestantes == Menos(Dia(v.dtValidade), Dia(v.dtEmissao))
  {
    var fab := LimparData(ComoTexto(Get(row, "id_data_fabricacao"), render), parse);
    var val := LimparData(ComoTexto(Get(row, "id_data_validade"), render), parse);
    var emis := LimparData(ComoTexto(Get(row, "data_emissao"), render), parse);
    var m := CalcularMetricas(Dia(fab), Dia(val), Dia(emis));
    Venc(ComoTexto(Get(row, Chave), render), fab, val, emis, m.vidaTotal, m.vidaUsada, m.diasRestantes, m.porcento,
         CategorizarComoEscrito(Dia(emis), Dia(val), m))
  }

  /** What the category of an expiry row means: VENCIDO for an item
      invoiced after its expiry (unless forced to INDETERMINADO), "close to
      expiry" only with fewer than 365 days left, and PRAZO ACEITAVEL only
      with less than 75% of life used or more than 365 days left. */
  lemma VencDeCategoria(row: Row, parse: string -> Option<Date>, render: real -> string)
    ensures var v := VencDe(row, parse, render);
            var m := Metricas(v.vidaTotal, v.vidaUsada, v.diasRestantes, v.porcento);
            (CondVencido(Dia(v.dtEmissao), Dia(v.dtValidade)) && !CondExtra(m) ==> v.categoria == Vencido)
            && (v.categoria in {MuitoProximo, Proximo} ==> Menor(v.diasRestantes, 365))
            && (v.categoria == Aceitavel ==> PorcentoBelow(v.porcento, 0.75) || Maior(v.diasRestantes, 365))
  {
    var v := VencDe(row, parse, render);
    CategoriasSignificadoComoEscrito(Dia(v.dtEmissao), Dia(v.dtValidade), Metricas(v.vidaTotal, v.vidaUsada, v.diasRestantes, v.porcento));
  }

  /** `drop_duplicates(subset=['chave_codigo'])`, run only when there are
      duplicates: rows of the input, one per key, every key kept. */
  function Deduplicadas(t: Table): (r: seq<Row>)
    ensures DistinctKeys(r, ColKey(Chave))
    ensures KeysOf(r, ColKey(Chave)) == KeysOf(t.rows, ColKey(Chave))
    ensures forall i :: 0 <= i < |r| ==> r[i] in t.rows
    ensures DistinctKeys(t.rows, ColKey(Chave)) ==> r == t.rows
  {
    DedupKeys(t.rows, ColKey(Chave));
    DedupSub(t.rows, ColKey(Chave));
    if DistinctKeys(t.rows, ColKey(Chave)) then
      DedupDistinct(t.rows, ColKey(Chave));
      t.rows
    else DedupBy(t.rows, ColKey(Chave))
  }

  /** The row kept for a key is the first row carrying it. */
  lemma DeduplicadasPrimeira(t: Table, i: nat)
    requires i < |Deduplicadas(t)|
    ensures exists j :: 0 <= j < |t.rows| && t.rows[j] == Deduplicadas(t)[i] && FirstOfKey(t.rows, ColKey(Chave), j)
  {
    DedupKeys(t.rows, ColKey(Chave));
    if DistinctKeys(t.rows, ColKey(Chave)) {
      assert FirstOfKey(t.rows, ColKey(Chave), i);
    }
  }

  function EhDerivada(c: string): bool { c in Derivadas }

  function NaoTem(cols: seq<string>): string -> bool { (c: string) => c !in cols }

  /** The two tables over the deduplicated rows `d`. */
  function Particionar(t: Table, d: seq<Row>, parse: string -> Option<Date>, render: real -> string): (r: (Table, seq<Venc>))
    requires WellFormed(t) && forall i :: 0 <= i < |d| ==> d[i] in t.rows
    ensures WellFormed(r.0) && |r.0.rows| == |r.1| == |d|
    ensures forall c :: c in r.0.cols <==> c in t.cols && c !in Derivadas
    ensures forall i, c :: 0 <= i < |d| && c in r.0.cols ==> Get(r.0.rows[i], c) == Get(d[i], c)
    ensures forall i :: 0 <= i < |d| ==> r.1[i] == VencDe(d[i], parse, render)
  {
    assert forall i :: 0 <= i < |d| ==> d[i].Keys == ColSet(t.cols);
    var base := DropCols(Table(t.cols, d), EhDerivada);
    (base, seq(|d|, i requires 0 <= i < |d| => VencDe(d[i], parse, render)))
  }

  /** `processar_vencimento_nfe`: a missing required column is a
      `ValueError`; otherwise the base table (every column but the derived
      ones) and the expiry table, row for row over the deduplicated items. */
  function ProcessarVencimentoNfe(t: Table, parse: string -> Option<Date>, render: real -> string): (r: Result<(Table, seq<Venc>)>)
    requires WellFormed(t)
    ensures r.Err? <==> exists k :: 0 <= k < |Necessarias| && Necessarias[k] !in t.cols
    ensures r.Err? ==> r.error.ValueError?
    ensures r.Ok? ==> r.value == Particionar(t, Deduplicadas(t), parse, render)
  {
    var faltantes := Filter(Necessarias, NaoTem(t.cols));
    if |faltantes| > 0 then
      assert NaoTem(t.cols)(faltantes[0]) && faltantes[0] in Necessarias;
      Err(ValueError("Colunas faltantes"))
    else
      assert forall k :: 0 <= k < |Necessarias| ==> Necessarias[k] in t.cols by {
        forall k | 0 <= k < |Necessarias| ensures Necessarias[k] in t.cols {
        }
      }
      Ok(Particionar(t, Deduplicadas(t), parse, render))
  }

  /** The expiry table is keyed by the base table: `id_venc` is the text of
      the base row's `chave_codigo`, and no two base rows share a key. */
  lemma VencChaveDaBase(t: Table, parse: string -> Option<Date>, render: real -> string)
    requires WellFormed(t) && Chave in t.cols
    ensures Chave in Particionar(t, Deduplicadas(t), parse, render).0.cols
    ensures forall i :: 0 <= i < |Particionar(t, Deduplicadas(t), parse, render).1| ==>
              Particionar(t, Deduplicadas(t), parse, render).1[i].idVenc ==
              ComoTexto(Get(Particionar(t, Deduplicadas(t), parse, render).0.rows[i], Chave), render)
    ensures DistinctKeys(Particionar(t, Deduplicadas(t), parse, render).0.rows, ColKey(Chave))
  {
    var d := Deduplicadas(t);
    var r := Particionar(t, d, parse, render);
    assert Chave in r.0.cols;
    DistinctGet(r.0.rows, d, Chave);
  }
}
