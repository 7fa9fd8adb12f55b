/** Unit standardisation of the invoice items
    (`pipelines/nfe/src/nfe_etapa21_padronizacao_unidades.py`): the unit
    text is trimmed and upper-cased, the special unit "180" becomes a box of
    60 with its unit price recomputed, box rows get their unit price
    recomputed, units are mapped through `MAPA_UNIDADES` (rows mapped to
    BD38 or DELETAR are dropped), and a fixed sequence of threshold rules
    decides between CAIXA and UNIDADES. Only the four cells the stage reads
    are modelled; every other column passes through untouched. */
module PadronizacaoUnidades {
  import opened Wrappers
  import opened Seqs
  import opened Text
  import opened Frame

  /** The cells of one invoice item the stage works on; a missing number
      (NaN) is `None`. */
  datatype Linha = Linha(unidade: string, quantidade: Option<real>, valorUnitario: Option<real>, valorProdutos: Option<real>)

  const Caixa := "CAIXA"
  const Unidades := "UNIDADES"
  const Misto := "MISTO"

  // ---------------------------------------------------------------------------
  // preparar_dataframe
  // ---------------------------------------------------------------------------

  /** A unit as `preparar_dataframe` leaves it: no surrounding whitespace,
      no lower-case letter. */
  predicate UnidadeLimpa(u: string) { Strip(u) == u && IsUpperText(u) }

  /** The unit of a row: `astype(str).str.strip().str.upper()` of the cell,
      or "" when the frame has no unit column. */
  function UnidadeTexto(t: Table, r: Row, repr: Value -> string): (u: string)
    ensures UnidadeLimpa(u)
    ensures "unidade" !in t.cols ==> u == ""
  {
    if "unidade" in t.cols then
      var s := Strip(Texto(Get(r, "unidade"), repr));
      UpperIsUpper(s);
      StripEnds(Upper(s));
      Upper(s)
    else ""
  }

  /** A unit that is already clean is its own clean form. */
  lemma UnidadeFixa(u: string, repr: Value -> string)
    requires UnidadeLimpa(u)
    ensures UnidadeTexto(Table(["unidade"], []), map["unidade" := Str(u)], repr) == u
  {
    assert Texto(Str(u), repr) == u;
    assert Upper(u) == u;
  }

  /** `pd.to_numeric(df.get(c), errors="coerce")`, the conversion being the
      parameter `numerico`; a column the frame lacks is missing throughout. */
  function Numero(t: Table, r: Row, c: string, numerico: Value -> Option<real>): Option<real> {
    if c in t.cols then numerico(Get(r, c)) else None
  }

  /** `preparar_dataframe`, row by row. */
  function Preparar(t: Table, repr: Value -> string, numerico: Value -> Option<real>): (ls: seq<Linha>)
    ensures |ls| == |t.rows|
    ensures forall i :: 0 <= i < |ls| ==> UnidadeLimpa(ls[i].unidade)
    ensures "unidade" !in t.cols ==> forall i :: 0 <= i < |ls| ==> ls[i].unidade == ""
  {
    seq(|t.rows|, i requires 0 <= i < |t.rows| =>
      Linha(UnidadeTexto(t, t.rows[i], repr), Numero(t, t.rows[i], "quantidade", numerico),
            Numero(t, t.rows[i], "valor_unitario", numerico), Numero(t, t.rows[i], "valor_produtos", numerico)))
  }

  // ---------------------------------------------------------------------------
  // The unit price corrections
  // ---------------------------------------------------------------------------

  /** `valor_produtos / quantidade.replace(0, NaN)`: missing when either is
      missing or the quantity is zero; otherwise the price that, times the
      quantity, gives the total. */
  function Dividir(total: Option<real>, q: Option<real>): (r: Option<real>)
    ensures r.Some? <==> total.Some? && q.Some? && q.value != 0.0
    ensures r.Some? ==> r.value * q.value == total.value
  {
    if total.Some? && q.Some? && q.value != 0.0 then Some(total.value / q.value) else None
  }

  const Fator: real := 60.0

  /** `aplicar_correcao_unidade_180` on one row: a "180" row becomes a box,
      its quantity divided by 60 and its unit price recomputed from the new
      quantity; any other row is untouched. */
  function Corrigir180(l: Linha): (r: Linha)
    ensures l.unidade != "180" ==> r == l
    ensures l.unidade == "180" ==>
              r.unidade == Caixa && r.valorProdutos == l.valorProdutos
              && (r.quantidade.Some? <==> l.quantidade.Some?)
              && (r.quantidade.Some? ==> r.quantidade.value * Fator == l.quantidade.value)
              && (r.valorUnitario.Some? <==> l.valorProdutos.Some? && r.quantidade.Some? && r.quantidade.value != 0.0)
              && (r.valorUnitario.Some? ==> r.valorUnitario.value * r.quantidade.value == l.valorProdutos.value)
  {
    if l.unidade == "180" then
      var q := if l.quantidade.Some? then Some(l.quantidade.value / Fator) else None;
      Linha(Caixa, q, Dividir(l.valorProdutos, q), l.valorProdutos)
    else l
  }

  /** `recalcular_valor_unitario_caixa` on one row: a box row's unit price
      becomes its total over its quantity (missing for a zero or missing
      quantity); nothing else changes. */
  function RecalcularCaixa(l: Linha): (r: Linha)
    ensures r.unidade == l.unidade && r.quantidade == l.quantidade && r.valorProdutos == l.valorProdutos
    ensures l.unidade != Caixa ==> r == l
    ensures l.unidade == Caixa ==>
              (r.valorUnitario.Some? <==> l.valorProdutos.Some? && l.quantidade.Some? && l.quantidade.value != 0.0)
              && (r.valorUnitario.Some? ==> r.valorUnitario.value * l.quantidade.value == l.valorProdutos.value)
  {
    if l.unidade == Caixa then l.(valorUnitario := Dividir(l.valorProdutos, l.quantidade)) else l
  }

  /** The price recomputation finds nothing to change on a row the "180"
      correction just made a box: both compute the same price. */
  lemma Caixa180Estavel(l: Linha)
    requires l.unidade == "180"
    ensures RecalcularCaixa(Corrigir180(l)) == Corrigir180(l)
  {
  }

  /** Recomputing the box prices twice recomputes them once. */
  lemma RecalcularIdempotente(l: Linha)
    ensures RecalcularCaixa(RecalcularCaixa(l)) == RecalcularCaixa(l)
  {
  }

  // ---------------------------------------------------------------------------
  // padronizar_unidades
  // ---------------------------------------------------------------------------

  /** `MAPA_UNIDADES`, its entries in their order (no key repeats). */
  const MapaUnidades: seq<(string, string)> := [
      ("CZ", "CAIXA"), ("CX", "CAIXA"), ("CX1", "CAIXA"), ("CX U", "CAIXA"), ("3/", "CAIXA"),
      ("GO", "CAIXA"), ("AERO", "CAIXA"), ("FRF", "CAIXA"), ("---", "CAIXA"), ("X", "CAIXA"),
      ("9", "CAIXA"), ("5", "CAIXA"), ("200", "CAIXA"), ("FARSCO", "CAIXA"), ("CRT", "CAIXA"),
      ("7", "CAIXA"), ("ND", "CAIXA"), ("EMB", "CAIXA"), ("PAP", "CAIXA"), ("25", "CAIXA"),
      ("FSC", "CAIXA"), ("BUND", "CAIXA"), ("UN/001", "CAIXA"), ("CPT", "CAIXA"),
      ("CX500", "CAIXA"), ("CX240", "CAIXA"), ("CX3", "CAIXA"), ("CX/", "CAIXA"), ("UNN", "CAIXA"),
      ("00", "CAIXA"), ("TB010", "CAIXA"), ("OF", "CAIXA"), ("VID", "CAIXA"), ("CXM", "CAIXA"),
      ("FMA", "CAIXA"), ("CX6", "CAIXA"), ("AER", "CAIXA"), ("MLK", "CAIXA"), ("FE", "CAIXA"),
      ("CDX", "CAIXA"), ("0X", "CAIXA"), ("CRE", "CAIXA"), ("SC", "CAIXA"), ("POM", "CAIXA"),
      ("LTO", "CAIXA"), ("GAR", "CAIXA"), ("DR", "CAIXA"), ("SACO", "CAIXA"), ("C", "CAIXA"),
      ("CX.", "CAIXA"), ("FL", "CAIXA"), ("F/AM", "CAIXA"), ("CAI", "CAIXA"), ("BB", "CAIXA"),
      ("FRT", "CAIXA"), ("CSS", "CAIXA"), ("COL", "CAIXA"), ("S.O", "CAIXA"), ("01", "CAIXA"),
      ("XP", "CAIXA"), ("3", "CAIXA"), ("CXD", "CAIXA"), ("FRAMP", "CAIXA"), ("UNITS", "CAIXA"),
      ("CX/16", "CAIXA"), ("10", "CAIXA"), ("CXVD", "CAIXA"), ("GR", "CAIXA"), ("SACH", "CAIXA"),
      ("CTL", "CAIXA"), ("BT", "CAIXA"), ("EB", "CAIXA"), ("CX 1", "CAIXA"), ("/", "CAIXA"),
      ("1X", "CAIXA"), ("PMA", "CAIXA"), ("PACK", "CAIXA"), ("CAT", "CAIXA"), ("CXP", "CAIXA"),
      ("UNID1", "CAIXA"), ("UNDFR", "CAIXA"), ("BSN", "CAIXA"), ("SP", "CAIXA"), ("CX40", "CAIXA"),
      ("PO", "CAIXA"), ("03", "CAIXA"), ("PTE", "CAIXA"), ("TAB", "CAIXA"), ("M", "CAIXA"),
      ("FCO", "CAIXA"), ("CX56", "CAIXA"), ("CX,", "CAIXA"), ("CT01F", "CAIXA"), ("VC", "CAIXA"),
      ("CT1", "CAIXA"), ("GOT", "CAIXA"), ("FR1", "CAIXA"), ("GL", "CAIXA"), ("FLA", "CAIXA"),
      ("INJ", "CAIXA"), ("CX60", "CAIXA"), ("CXC", "CAIXA"), ("CX120", "CAIXA"), ("CX14", "CAIXA"),
      ("EV", "CAIXA"), ("REF", "CAIXA"), ("UM", "CAIXA"), ("DO", "CAIXA"), ("BSG", "CAIXA"),
      ("ENV1", "CAIXA"), ("FD", "CAIXA"), (",", "CAIXA"), ("LTS", "CAIXA"), ("FRASC", "CAIXA"),
      ("X1", "CAIXA"), ("CAN", "CAIXA"), ("PCT", "CAIXA"), ("CX28", "CAIXA"), ("SUSP", "CAIXA"),
      ("SOL", "CAIXA"), ("1ND", "CAIXA"), ("CXS", "CAIXA"), ("FR-AMP", "CAIXA"), ("F/", "CAIXA"),
      ("CX01", "CAIXA"), ("G", "CAIXA"), ("GT", "CAIXA"), ("XAR", "CAIXA"), ("SE", "CAIXA"),
      ("LITRO", "CAIXA"), ("BSA", "CAIXA"), ("CX4", "CAIXA"), ("UND.", "CAIXA"), ("PEC", "CAIXA"),
      ("SDF", "CAIXA"), ("POTE", "CAIXA"), ("EN", "CAIXA"), ("FRD", "CAIXA"), ("SPR", "CAIXA"),
      ("SUS", "CAIXA"), ("CAIX", "CAIXA"), ("CV", "CAIXA"), ("LTR", "CAIXA"), ("BO", "CAIXA"),
      ("CX5", "CAIXA"), ("FR/A", "CAIXA"), ("GAL", "CAIXA"), ("GTS", "CAIXA"), ("PAC", "CAIXA"),
      ("PCE", "CAIXA"), ("POT", "CAIXA"), ("40", "CAIXA"), ("CX2 UN", "CAIXA"), ("VDR", "CAIXA"),
      ("CX12", "CAIXA"), ("RL", "CAIXA"), ("KG", "CAIXA"), ("FC", "CAIXA"), ("VR", "CAIXA"),
      ("CDA", "CAIXA"), ("EA", "CAIXA"), ("CAX", "CAIXA"), ("U", "CAIXA"), ("MG", "CAIXA"),
      ("LT.", "CAIXA"), ("SER", "CAIXA"), ("LIT", "CAIXA"), ("0", "CAIXA"), ("BL", "CAIXA"),
      ("CX25", "CAIXA"), ("UD", "CAIXA"), ("CX10", "CAIXA"), ("BLS", "CAIXA"), ("BLT", "CAIXA"),
      ("L", "CAIXA"), ("FRC", "CAIXA"), ("CX200", "CAIXA"), ("CXA", "CAIXA"), ("CX30", "CAIXA"),
      ("CX20", "CAIXA"), ("CX50", "CAIXA"), ("TUB", "CAIXA"), ("CT", "CAIXA"), ("PT", "CAIXA"),
      ("CX100", "CAIXA"), ("PC", "CAIXA"), ("TB", "CAIXA"), ("UNID", "CAIXA"), ("UN1", "CAIXA"),
      ("LT", "CAIXA"), ("CX/AMP", "AMPOLA"), ("AMMP", "AMPOLA"), ("MP", "AMPOLA"),
      ("150", "AMPOLA"), ("ANP", "AMPOLA"), ("AMPOL", "AMPOLA"), ("CXX", "AMPOLA"),
      ("AMP.", "AMPOLA"), ("AP", "AMPOLA"), ("AMP", "AMPOLA"), ("AM", "AMPOLA"), ("39", "FRASCO"),
      ("XPE", "FRASCO"), ("UIN", "FRASCO"), ("FAR", "FRASCO"), ("FRANCO", "FRASCO"),
      ("FRAS", "FRASCO"), ("FR/AMP", "FRASCO"), ("FR.", "FRASCO"), ("F/A", "FRASCO"),
      ("FRS.", "FRASCO"), ("FAM", "FRASCO"), ("DS", "FRASCO"), ("F.A", "FRASCO"),
      ("F/A.", "FRASCO"), ("FAMP", "FRASCO"), ("F", "FRASCO"), ("VD.", "FRASCO"),
      ("FR/AM", "FRASCO"), ("VD", "FRASCO"), ("FR", "FRASCO"), ("FA", "FRASCO"), ("FRS", "FRASCO"),
      ("FRA", "FRASCO"), ("TU", "CARPULE"), ("TBO", "TUBOS"), ("TUBETE", "TUBOS"),
      ("SH", "ENVELOPES"), ("SACHE", "ENVELOPES"), ("SCH", "ENVELOPES"), ("SAC", "ENVELOPES"),
      ("FLC", "ENVELOPES"), ("BISNAG", "BISNAGA"), ("UN.", "BISNAGA"), ("GEL", "BISNAGA"),
      ("BIS.", "BISNAGA"), ("BISN.", "BISNAGA"), ("BS", "BISNAGA"), ("BI", "BISNAGA"),
      ("BISN", "BISNAGA"), ("BN", "BISNAGA"), ("BIS", "BISNAGA"), ("SERING", "SERINGAS"),
      ("SRG", "SERINGAS"), ("SR", "SERINGAS"), ("SER.", "SERINGAS"), ("]", "MISTO"),
      ("F/B", "MISTO"), ("CPD", "MISTO"), ("GE", "MISTO"), ("UNIDAD", "MISTO"), ("F A", "MISTO"),
      ("BNG", "MISTO"), ("1", "MISTO"), ("ML", "MISTO"), ("ENV", "MISTO"), ("UNI", "MISTO"),
      ("UN", "MISTO"), ("UND", "MISTO"), ("SUP", "UNIDADES"), ("UNDADE", "UNIDADES"),
      ("CR", "UNIDADES"), ("UF", "UNIDADES"), ("BOL", "UNIDADES"), ("BG", "UNIDADES"),
      ("EMS", "COMPRIMIDOS"), ("BLI", "COMPRIMIDOS"), ("CP REV", "COMPRIMIDOS"),
      ("CRP", "COMPRIMIDOS"), ("CCM", "COMPRIMIDOS"), ("VP", "COMPRIMIDOS"),
      ("CAP.", "COMPRIMIDOS"), ("CAPS.", "COMPRIMIDOS"), ("CAR", "COMPRIMIDOS"),
      ("UCOMP", "COMPRIMIDOS"), ("DRA", "COMPRIMIDOS"), ("HR", "COMPRIMIDOS"),
      ("CX-1", "COMPRIMIDOS"), ("MI", "COMPRIMIDOS"), ("CAPSUL", "COMPRIMIDOS"),
      ("CS", "COMPRIMIDOS"), ("CPM", "COMPRIMIDOS"), ("CA", "COMPRIMIDOS"), ("DRG", "COMPRIMIDOS"),
      ("CAPS", "COMPRIMIDOS"), ("COMP.", "COMPRIMIDOS"), ("CPR.", "COMPRIMIDOS"),
      ("CM", "COMPRIMIDOS"), ("CPS", "COMPRIMIDOS"), ("CO", "COMPRIMIDOS"), ("CAP", "COMPRIMIDOS"),
      ("UNB", "COMPRIMIDOS"), ("CPREV", "COMPRIMIDOS"), ("CMP", "COMPRIMIDOS"),
      ("CPR", "COMPRIMIDOS"), ("CP", "COMPRIMIDOS"), ("COMP", "COMPRIMIDOS"),
      ("COM", "COMPRIMIDOS"), ("TUBO", "MISTO"), ("KIT", "MISTO"), ("SERINGAS", "MISTO"),
      ("TUBOS", "MISTO"), ("POMADA", "BISNAGA"), ("ABL", "COMPRIMIDOS"), ("CARPULE", "UNIDADES"),
      ("BOLSA", "UNIDADES"), ("ENVELOPES", "UNIDADES"), ("LATA", "CAIXA"), ("GA", "CAIXA"),
      ("VL", "CAIXA"), ("GOTAS", "CAIXA"), ("CH", "CAIXA"), ("1 KG", "CAIXA"), ("LA", "CAIXA"),
      ("BID", "CAIXA"), ("SU", "FRASCO"), ("UN0001", "CAIXA"), ("LAT", "CAIXA"),
      ("PA", "COMPRIMIDOS"), ("UNT", "CAIXA"), ("CD", "CAIXA"), ("CX300", "CAIXA"),
      ("DP", "CAIXA"), ("CX1000", "CAIXA"), ("UNS", "UNIDADE"), ("CX/70", "CAIXA"),
      ("ENV.", "ENVELOPES"), ("11", "UNIDADE"), ("UN0", "UNIDADE"), ("IN", "CAIXA"),
      ("CAIXAS", "CAIXA"), ("100", "CAIXA"), ("FRACO", "FRASCO"), ("METRO", "UNIDADE"),
      ("UNIDADE", "UNIDADES"), ("RACK", "DELETAR"), ("KI", "DELETAR"), ("PL", "DELETAR"),
      ("1000UN", "DELETAR"), ("CJ", "DELETAR"), ("PACOT", "DELETAR"), ("DGR", "COMPRIMIDOS"),
      ("PAS", "COMPRIMIDOS")
    ]

  /** `UNIDADES_PARA_REMOVER`. */
  const Remover: seq<string> := ["BD38", "DELETAR"]

  /** The value of key `u` in a table of entries: that of its first
      entry, if any. */
  function Buscar(mapa: seq<(string, string)>, u: string): (r: Option<string>)
    ensures r.None? <==> forall k :: 0 <= k < |mapa| ==> mapa[k].0 != u
    ensures r.Some? ==> exists k :: 0 <= k < |mapa| && mapa[k] == (u, r.value)
  {
    if |mapa| == 0 then None
    else if mapa[0].0 == u then Some(mapa[0].1)
    else
      var r := Buscar(mapa[1..], u);
      assert forall k :: 1 <= k < |mapa| ==> mapa[1..][k - 1] == mapa[k];
      r
  }

  /** `.map(mapa).fillna(unidade)`: a listed unit is replaced by its
      standard name, any other unit is kept. */
  function Mapear(mapa: seq<(string, string)>, u: string): string {
    match Buscar(mapa, u)
    case Some(v) => v
    case None => u
  }

  /** The unit standardisation with `MAPA_UNIDADES`. */
  function Padrao(u: string): string { Mapear(MapaUnidades, u) }

  /** The row survives a standardisation `f`. */
  function Mantida(f: string -> string): Linha -> bool {
    (l: Linha) => f(l.unidade) !in Remover
  }

  function Descartada(f: string -> string): Linha -> bool {
    (l: Linha) => f(l.unidade) in Remover
  }

  function Renomear(f: string -> string, l: Linha): Linha { l.(unidade := f(l.unidade)) }

  function Renomeadas(f: string -> string, ls: seq<Linha>): (r: seq<Linha>)
    ensures |r| == |ls|
    ensures forall i :: 0 <= i < |ls| ==> r[i] == Renomear(f, ls[i])
  {
    seq(|ls|, i requires 0 <= i < |ls| => Renomear(f, ls[i]))
  }

  /** `padronizar_unidades` with the standardisation `f`: the rows whose
      standard unit is to be removed are dropped and counted; every other
      row is kept with its standard unit and its numbers unchanged. */
  function Padronizar(f: string -> string, ls: seq<Linha>): (r: (seq<Linha>, nat))
    ensures |r.0| + r.1 == |ls|
    ensures r.1 == Count(ls, Descartada(f))
    ensures forall i :: 0 <= i < |r.0| ==> r.0[i].unidade !in Remover
    ensures forall i :: 0 <= i < |r.0| ==>
              exists j :: 0 <= j < |ls| && Mantida(f)(ls[j]) && r.0[i] == Renomear(f, ls[j])
    ensures forall j :: 0 <= j < |ls| && Mantida(f)(ls[j]) ==> Renomear(f, ls[j]) in r.0
  {
    var kept := Filter(ls, Mantida(f));
    FilterCountNeg(ls, Mantida(f), Descartada(f));
    var r := Renomeadas(f, kept);
    PadronizarOrigem(f, ls, kept, r);
    PadronizarCompleto(f, ls, kept, r);
    (r, |ls| - |kept|)
  }

  lemma PadronizarOrigem(f: string -> string, ls: seq<Linha>, kept: seq<Linha>, r: seq<Linha>)
    requires kept == Filter(ls, Mantida(f)) && r == Renomeadas(f, kept)
    ensures forall i :: 0 <= i < |r| ==>
              exists j :: 0 <= j < |ls| && Mantida(f)(ls[j]) && r[i] == Renomear(f, ls[j])
  {
    forall i | 0 <= i < |r| ensures exists j :: 0 <= j < |ls| && Mantida(f)(ls[j]) && r[i] == Renomear(f, ls[j]) {
      assert kept[i] in ls && Mantida(f)(kept[i]);
      var j :| 0 <= j < |ls| && ls[j] == kept[i];
      assert Mantida(f)(ls[j]) && r[i] == Renomear(f, ls[j]);
    }
  }

  lemma PadronizarCompleto(f: string -> string, ls: seq<Linha>, kept: seq<Linha>, r: seq<Linha>)
    requires kept == Filter(ls, Mantida(f)) && r == Renomeadas(f, kept)
    ensures forall j :: 0 <= j < |ls| && Mantida(f)(ls[j]) ==> Renomear(f, ls[j]) in r
  {
    forall j | 0 <= j < |ls| && Mantida(f)(ls[j]) ensures Renomear(f, ls[j]) in r {
      var i :| 0 <= i < |kept| && kept[i] == ls[j];
      assert r[i] == Renomear(f, ls[j]);
    }
  }

  // ---------------------------------------------------------------------------
  // aplicar_heuristicas
  // ---------------------------------------------------------------------------

  /** `MAPA_CONSOLIDACAO_UNIDADES`. */
  const MapaConsolidacao: map<string, string> := map[
    "COMPRIMIDOS" := "UNIDADES", "BISNAGA" := "UNIDADES", "AMPOLA" := "UNIDADES",
    "FRASCO" := "UNIDADES", "ENVELOPES" := "UNIDADES", "SERINGAS" := "UNIDADES",
    "TUBOS" := "UNIDADES", "CARPULE" := "UNIDADES", "UNIDADE" := "UNIDADES"
  ]

  /** The consolidation: every listed package kind becomes UNIDADES, any
      other unit is kept. */
  function Consolidar(u: string): (r: string)
    ensures r == u || r == Unidades
  {
    if u in MapaConsolidacao then MapaConsolidacao[u] else u
  }

  /** The comparisons of pandas on a number that may be missing: every one
      is false on NaN. */
  predicate Menor(v: Option<real>, x: real) { v.Some? && v.value < x }
  predicate Maior(v: Option<real>, x: real) { v.Some? && v.value > x }
  predicate AoMenos(v: Option<real>, x: real) { v.Some? && v.value >= x }
  predicate AoMais(v: Option<real>, x: real) { v.Some? && v.value <= x }

  /** The conditions of the seven lines that turn an ambiguous box into
      UNIDADES, in their order (`s` is the score). */
  function RegrasUnidades(q: Option<real>, vu: Option<real>, s: real): seq<bool> {
    [Menor(vu, 0.7), s > 2.0, Maior(q, 13333.0),
     Menor(vu, 5.0) && AoMenos(q, 3500.0), Menor(vu, 4.0) && AoMenos(q, 2600.0),
     Menor(vu, 3.0) && AoMenos(q, 1900.0), Menor(vu, 2.0) && AoMenos(q, 200.0)]
  }

  /** The conditions of the nine lines that turn an ambiguous unit count
      into CAIXA, in their order. */
  function RegrasCaixa(q: Option<real>, vu: Option<real>, s: real): seq<bool> {
    [s < 0.33, AoMais(q, 3.0), Maior(vu, 1500.0),
     AoMais(q, 4.0) && Maior(vu, 3.0), AoMais(q, 5.0) && Maior(vu, 5.0),
     AoMais(q, 6.0) && Maior(vu, 10.0), AoMais(q, 7.0) && Maior(vu, 30.0),
     AoMais(q, 8.0) && Maior(vu, 50.0), AoMais(q, 9.0) && Maior(vu, 75.0)]
  }

  /** A block of `df.loc[mascara & cond, "unidade"] = novo` lines, one per
      condition, in order, under a mask computed once before the block:
      the unit becomes `novo` exactly when the mask holds and some line's
      condition does. */
  function Aplicar(u: string, mascara: bool, conds: seq<bool>, novo: string): (r: string)
    ensures r == (if mascara && true in conds then novo else u)
    decreases |conds|
  {
    if |conds| == 0 then u
    else
      assert conds == [conds[0]] + conds[1..];
      Aplicar(if mascara && conds[0] then novo else u, mascara, conds[1..], novo)
  }

  /** `MAPA_FINAL`. */
  function MapaFinal(u: string): string { if u == "MIL" then Caixa else u }

  /** The unit `aplicar_heuristicas` gives a standardised row, statement by
      statement: consolidation, the UNIDADES block on the units that were
      MISTO or CAIXA, the CAIXA block on the units that are now MISTO or
      UNIDADES, the four overall lines and `MAPA_FINAL`. The score is the
      parameter `pontuacao` (`2 * (log10(q) - log10(vu))` after clipping and
      filling, infinities made 0). */
  function UnidadeHeuristica(l: Linha, pontuacao: (Option<real>, Option<real>) -> real): string {
    var q := l.quantidade;
    var vu := l.valorUnitario;
    var s := pontuacao(q, vu);
    var u0 := Consolidar(l.unidade);
    var u1 := Aplicar(u0, u0 == Misto || u0 == Caixa, RegrasUnidades(q, vu, s), Unidades);
    var u2 := Aplicar(u1, u1 == Misto || u1 == Unidades, RegrasCaixa(q, vu, s), Caixa);
    var u3 := if s <= 1.0 then Caixa else u2;
    var u4 := if s > 2.0 then Unidades else u3;
    var u5 := if AoMais(q, 3.0) then Caixa else u4;
    var u6 := if u5 == Misto && s <= 2.0 then Caixa else u5;
    MapaFinal(u6)
  }

  /** Large volume at a low price: the UNIDADES conditions that can still
      matter once the score is between 1 and 2. */
  predicate Volume(q: Option<real>, vu: Option<real>) {
    Menor(vu, 0.7) || Maior(q, 13333.0)
    || (Menor(vu, 5.0) && AoMenos(q, 3500.0)) || (Menor(vu, 4.0) && AoMenos(q, 2600.0))
    || (Menor(vu, 3.0) && AoMenos(q, 1900.0)) || (Menor(vu, 2.0) && AoMenos(q, 200.0))
  }

  /** Few items at a high price: the CAIXA conditions that can still matter
      once the score is between 1 and 2 and the quantity above 3. */
  predicate Cara(q: Option<real>, vu: Option<real>) {
    Maior(vu, 1500.0)
    || (AoMais(q, 4.0) && Maior(vu, 3.0)) || (AoMais(q, 5.0) && Maior(vu, 5.0))
    || (AoMais(q, 6.0) && Maior(vu, 10.0)) || (AoMais(q, 7.0) && Maior(vu, 30.0))
    || (AoMais(q, 8.0) && Maior(vu, 50.0)) || (AoMais(q, 9.0) && Maior(vu, 75.0))
  }

  /** The decision table the heuristics amount to, from the consolidated
      unit `u`: a quantity of at most 3 or a score of at most 1 means a box,
      a score above 2 means units; in between, an ambiguous box (MISTO or
      CAIXA) is units only for a large volume that is not expensive, a unit
      count stays units unless expensive, MIL is a box, and every other
      unit is kept. */
  function Decisao(u: string, q: Option<real>, vu: Option<real>, s: real): (r: string)
    ensures r != Misto && r != "MIL"
  {
    if AoMais(q, 3.0) || s <= 1.0 then Caixa
    else if s > 2.0 then Unidades
    else if u == Misto || u == Caixa then (if Volume(q, vu) && !Cara(q, vu) then Unidades else Caixa)
    else if u == Unidades then (if Cara(q, vu) then Caixa else Unidades)
    else if u == "MIL" then Caixa
    else u
  }

  /** The statement sequence of `aplicar_heuristicas` computes the decision
      table, whatever the score function. */
  lemma HeuristicaDecisao(l: Linha, pontuacao: (Option<real>, Option<real>) -> real)
    ensures UnidadeHeuristica(l, pontuacao)
         == Decisao(Consolidar(l.unidade), l.quantidade, l.valorUnitario, pontuacao(l.quantidade, l.valorUnitario))
  {
    var q := l.quantidade;
    var vu := l.valorUnitario;
    var s := pontuacao(q, vu);
    var ru := RegrasUnidades(q, vu, s);
    var rc := RegrasCaixa(q, vu, s);
    assert (true in ru) == (Volume(q, vu) || s > 2.0) by { RegrasUnidadesSao(q, vu, s); }
    assert (true in rc) == (Cara(q, vu) || s < 0.33 || AoMais(q, 3.0)) by { RegrasCaixaSao(q, vu, s); }
  }

  lemma RegrasUnidadesSao(q: Option<real>, vu: Option<real>, s: real)
    ensures (true in RegrasUnidades(q, vu, s)) == (Volume(q, vu) || s > 2.0)
  {
    var ru := RegrasUnidades(q, vu, s);
    if Volume(q, vu) || s > 2.0 {
      assert ru[0] || ru[1] || ru[2] || ru[3] || ru[4] || ru[5] || ru[6];
    }
  }

  lemma RegrasCaixaSao(q: Option<real>, vu: Option<real>, s: real)
    ensures (true in RegrasCaixa(q, vu, s)) == (Cara(q, vu) || s < 0.33 || AoMais(q, 3.0))
  {
    var rc := RegrasCaixa(q, vu, s);
    if Cara(q, vu) || s < 0.33 || AoMais(q, 3.0) {
      assert rc[0] || rc[1] || rc[2] || rc[3] || rc[4] || rc[5] || rc[6] || rc[7] || rc[8];
    }
  }

  /** One row through the heuristics: only the unit changes; a quantity of
      at most 3 ends as a box; MISTO and MIL never survive; and a unit that
      was not to be removed does not become one. */
  function Heuristica(l: Linha, pontuacao: (Option<real>, Option<real>) -> real): (r: Linha)
    ensures r.quantidade == l.quantidade && r.valorUnitario == l.valorUnitario && r.valorProdutos == l.valorProdutos
    ensures AoMais(l.quantidade, 3.0) ==> r.unidade == Caixa
    ensures r.unidade != Misto && r.unidade != "MIL"
    ensures l.unidade !in Remover ==> r.unidade !in Remover
  {
    HeuristicaDecisao(l, pontuacao);
    l.(unidade := UnidadeHeuristica(l, pontuacao))
  }

  /** A row as the stage leaves it: not a unit to remove, never MISTO or
      MIL, and a box whenever its quantity is at most 3. */
  predicate Final(l: Linha) {
    l.unidade !in Remover && l.unidade != Misto && l.unidade != "MIL"
    && (AoMais(l.quantidade, 3.0) ==> l.unidade == Caixa)
  }

  function Alterada(pontuacao: (Option<real>, Option<real>) -> real): Linha -> bool {
    (l: Linha) => Consolidar(l.unidade) != Heuristica(l, pontuacao).unidade
  }

  function Heuristicas(ls: seq<Linha>, pontuacao: (Option<real>, Option<real>) -> real): (r: seq<Linha>)
    ensures |r| == |ls|
    ensures forall i :: 0 <= i < |ls| ==> r[i] == Heuristica(ls[i], pontuacao)
  {
    seq(|ls|, i requires 0 <= i < |ls| => Heuristica(ls[i], pontuacao))
  }

  /** The number of changed rows is zero exactly when no row changed. */
  lemma MudancasZero(ls: seq<Linha>, h: seq<Linha>, pontuacao: (Option<real>, Option<real>) -> real)
    requires |h| == |ls| && forall i :: 0 <= i < |ls| ==> h[i] == Heuristica(ls[i], pontuacao)
    ensures Count(ls, Alterada(pontuacao)) <= |ls|
    ensures Count(ls, Alterada(pontuacao)) == 0 <==> forall i :: 0 <= i < |ls| ==> h[i].unidade == Consolidar(ls[i].unidade)
  {
    CountBounds(ls, Alterada(pontuacao));
  }

  /** `aplicar_heuristicas`: every row through the heuristics, and
      `mudancas`, the number of rows whose unit differs from its
      consolidated unit: at most the number of rows, and zero exactly when
      the heuristics kept every consolidated unit. */
  function AplicarHeuristicas(ls: seq<Linha>, pontuacao: (Option<real>, Option<real>) -> real): (r: (seq<Linha>, nat))
    ensures |r.0| == |ls|
    ensures forall i :: 0 <= i < |ls| ==> r.0[i] == Heuristica(ls[i], pontuacao)
    ensures forall i :: 0 <= i < |ls| && ls[i].unidade !in Remover ==> Final(r.0[i])
    ensures r.1 <= |ls|
    ensures r.1 == 0 <==> forall i :: 0 <= i < |ls| ==> r.0[i].unidade == Consolidar(ls[i].unidade)
  {
    var h := Heuristicas(ls, pontuacao);
    MudancasZero(ls, h, pontuacao);
    (h, Count(ls, Alterada(pontuacao)))
  }

  // ---------------------------------------------------------------------------
  // The stage
  // ---------------------------------------------------------------------------

  function Corrigidas(ls: seq<Linha>): (r: seq<Linha>)
    ensures |r| == |ls|
    ensures forall i :: 0 <= i < |ls| ==> r[i] == RecalcularCaixa(Corrigir180(ls[i]))
  {
    seq(|ls|, i requires 0 <= i < |ls| => RecalcularCaixa(Corrigir180(ls[i])))
  }

  /** What the stage hands on: the rows, and the two counts of its metrics
      file. */
  datatype Resultado = Resultado(linhas: seq<Linha>, removidas: nat, mudancas: nat)

  /** What the stage promises of its result for `n` input rows: every row
      is either removed and counted or kept, every kept row is `Final`, and
      at most every kept row counts as changed. */
  predicate Valido(r: Resultado, n: nat) {
    |r.linhas| + r.removidas == n && r.mudancas <= |r.linhas|
    && forall i :: 0 <= i < |r.linhas| ==> Final(r.linhas[i])
  }

  /** The standardisation with `f` and the heuristics, on the corrected
      rows; the removed rows are those `f` maps to a unit to remove. */
  function Etapas(f: string -> string, ls: seq<Linha>, pontuacao: (Option<real>, Option<real>) -> real): (r: Resultado)
    ensures Valido(r, |ls|)
    ensures r.removidas == Count(ls, Descartada(f))
  {
    var p := Padronizar(f, ls);
    var h := AplicarHeuristicas(p.0, pontuacao);
    Resultado(h.0, p.1, h.1)
  }

  /** `main` without the files: preparation, the "180" correction, the box
      price recomputation, the standardisation with `MAPA_UNIDADES` and the
      heuristics. Every input row is either removed and counted or kept; no
      kept row ends with a unit to remove, MISTO or MIL; every row with a
      quantity of at most 3 is a box; and at most every kept row counts as
      changed. */
  function Padronizacao(t: Table, repr: Value -> string, numerico: Value -> Option<real>,
                        pontuacao: (Option<real>, Option<real>) -> real): (r: Resultado)
    ensures Valido(r, |t.rows|)
  {
    Etapas(Padrao, Corrigidas(Preparar(t, repr, numerico)), pontuacao)
  }
}
