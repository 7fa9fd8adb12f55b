/** Pharmaceutical form of a presentation (`tipo_produto.py`): the first
    keyword rule, in declared order, that has a keyword occurring in the
    upper-cased presentation decides the category. */
module TipoProduto {
  import opened Wrappers
  import opened Text

  datatype Categoria =
    | Frasco
    | AmpolaFrascoAmpola
    | Dispositivos
    | ComprimidoCapsula
    | Bisnaga
    | Bolsa
    | SachePo
    | Outros

  /** The category's label as written in the output column. */
  function Label(c: Categoria): string {
    match c
    case Frasco => "FRASCO"
    case AmpolaFrascoAmpola => "AMPOLA/FRASCO-AMPOLA"
    case Dispositivos => "DISPOSITIVOS"
    case ComprimidoCapsula => "COMPRIMIDO/CAPSULA"
    case Bisnaga => "BISNAGA"
    case Bolsa => "BOLSA"
    case SachePo => "SACHE/PO"
    case Outros => "OUTROS"
  }

  datatype Regra = Regra(categoria: Categoria, termos: seq<string>)

  /** The rules, in priority order. */
  function Regras(): seq<Regra> {
    [ Regra(Frasco, ["GOT", "XAMP"]),
      Regra(AmpolaFrascoAmpola, ["AMP", "AMPOLA", "FA"]),
      Regra(Dispositivos, ["PREENCHIDA", "ADS", "EMPL", "STT"]),
      Regra(ComprimidoCapsula, ["COMPRIMIDO", "TABLE", "CAPSULA", "CAPSULAS", "CP", "MGPAS",
                                "PASTILHA", "OVULO", "DRAGEA", "COMPR", "CAPGEL"]),
      Regra(Bisnaga, ["CREME", "BG", "POM", "POMADA", "GEL", "BISNAGA", "UNGUENTO"]),
      Regra(Bolsa, ["BOLSA"]),
      Regra(Frasco, ["SOLUCAO", "TUBO", "FR ", "FRASCO", "SUS", "XPE", "GOT", "EMUL", "LOCAO"]),
      Regra(Dispositivos, ["SERINGA", "SER", "CANETA", "INALADOR", "SPRAY",
                           "ADES", "IMPL", "APLIC", "PEN", "CARP"]),
      Regra(SachePo, ["PO ", "PO", "SACHES", "GRAN"]),
      Regra(Frasco, ["UNGENTO", "UNG", "POTE", "TALQUEIRA", "PT"]),
      Regra(Frasco, ["ML"]),
      Regra(ComprimidoCapsula, ["BL"]) ]
  }

  /** Some keyword of the rule occurs in `s`. */
  predicate Aplica(r: Regra, s: string) {
    exists k :: 0 <= k < |r.termos| && Contains(s, r.termos[k])
  }

  /** The category of the first rule that applies, `Outros` when none does. */
  function PrimeiraRegra(rs: seq<Regra>, s: string): (c: Categoria)
    ensures (forall j :: 0 <= j < |rs| ==> rs[j].categoria != Outros) ==>
              (c == Outros <==> forall j :: 0 <= j < |rs| ==> !Aplica(rs[j], s))
    ensures forall j :: 0 <= j < |rs| && Aplica(rs[j], s) && (forall i :: 0 <= i < j ==> !Aplica(rs[i], s))
              ==> c == rs[j].categoria
  {
    if |rs| == 0 then Outros
    else if Aplica(rs[0], s) then rs[0].categoria
    else
      var c := PrimeiraRegra(rs[1..], s);
      assert forall j :: 1 <= j < |rs| ==> rs[j] == rs[1..][j - 1];
      c
  }

  /** `categorizar_produto`; `None` is a value that is not a string. */
  function CategorizarProduto(apresentacao: Option<string>): (c: Categoria)
    ensures apresentacao.None? ==> c == Outros
    ensures apresentacao.Some? ==>
              (c == Outros <==> forall j :: 0 <= j < |Regras()| ==> !Aplica(Regras()[j], Upper(apresentacao.value)))
    ensures apresentacao.Some? ==>
              forall j :: 0 <= j < |Regras()| && Aplica(Regras()[j], Upper(apresentacao.value))
                && (forall i :: 0 <= i < j ==> !Aplica(Regras()[i], Upper(apresentacao.value)))
                ==> c == Regras()[j].categoria
  {
    if apresentacao.None? then Outros
    else
      var rs := Regras();
      assert forall j :: 0 <= j < |rs| ==> rs[j].categoria != Outros;
      PrimeiraRegra(rs, Upper(apresentacao.value))
  }

  /** A presentation mentioning both "GOT" and "AMP" is a FRASCO: the
      dropper rule comes before the ampoule rule. */
  lemma GotaAntesDeAmpola(s: string)
    requires Contains(Upper(s), "GOT") && Contains(Upper(s), "AMP")
    ensures CategorizarProduto(Some(s)) == Frasco
  {
    var rs := Regras();
    assert rs[0].termos[0] == "GOT";
    assert Aplica(rs[0], Upper(s));
  }
}
