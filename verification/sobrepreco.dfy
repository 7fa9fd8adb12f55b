/** Over-price classification (`nfe_etapa18_sobrepreco.py`): the ratio of
    the unit value paid to the price ceiling, sorted into seven ordered
    classes. */
module Sobrepreco {
  import opened Wrappers

  /** The classes in the order of the ordered categorical. */
  datatype Classe =
    | NaoClassificado
    | ExtremamenteAbaixo
    | MuitoAbaixo
    | DentroDoTeto
    | AcimaDoTeto
    | MuitoAcima
    | ExtremamenteAcima

  /** The class's position among the categories. */
  function Ordem(c: Classe): nat {
    match c
    case NaoClassificado => 0
    case ExtremamenteAbaixo => 1
    case MuitoAbaixo => 2
    case DentroDoTeto => 3
    case AcimaDoTeto => 4
    case MuitoAcima => 5
    case ExtremamenteAcima => 6
  }

  /** `valor_unitario / TETO_DE_PRECO` with infinities turned into NaN: a
      missing operand or a zero ceiling leaves the ratio missing. */
  function Razao(valorUnitario: Option<real>, teto: Option<real>): (r: Option<real>)
    ensures r.Some? <==> valorUnitario.Some? && teto.Some? && teto.value != 0.0
    ensures r.Some? ==> r.value * teto.value == valorUnitario.value
  {
    if valorUnitario.Some? && teto.Some? && teto.value != 0.0 then Some(valorUnitario.value / teto.value)
    else None
  }

  /** `np.select` over the seven conditions, first true condition wins. */
  function Classificar(razao: Option<real>): (c: Classe)
    ensures c == NaoClassificado <==> razao.None?
    ensures c == ExtremamenteAbaixo <==> razao.Some? && razao.value < 0.02
    ensures c == MuitoAbaixo <==> razao.Some? && 0.02 <= razao.value < 0.1
    ensures c == DentroDoTeto <==> razao.Some? && 0.1 <= razao.value <= 1.0
    ensures c == AcimaDoTeto <==> razao.Some? && 1.0 < razao.value <= 2.0
    ensures c == MuitoAcima <==> razao.Some? && 2.0 < razao.value <= 5.0
    ensures c == ExtremamenteAcima <==> razao.Some? && 5.0 < razao.value
  {
    if razao.None? then NaoClassificado
    else
      var x := razao.value;
      if x < 0.02 then ExtremamenteAbaixo
      else if x < 0.1 then MuitoAbaixo
      else if x <= 1.0 then DentroDoTeto
      else if x <= 2.0 then AcimaDoTeto
      else if x <= 5.0 then MuitoAcima
      else ExtremamenteAcima
  }

  /** A larger ratio never lands in a lower class: the category order
      follows the ratio. */
  lemma ClassificarMonotone(a: real, b: real)
    requires a <= b
    ensures Ordem(Classificar(Some(a))) <= Ordem(Classificar(Some(b)))
  {
  }

  /** A row paying exactly the ceiling is within it. */
  lemma NoTetoDentro(v: real)
    requires v != 0.0
    ensures Classificar(Razao(Some(v), Some(v))) == DentroDoTeto
  {
  }

  datatype Linha = Linha(valorUnitario: Option<real>, precoMaximoRefinado: Option<real>)

  datatype Resultado = Resultado(teto: Option<real>, razao: Option<real>, classe: Classe)

  /** `calcular_razao` for one row: `TETO_DE_PRECO` copies the refined
      maximum price (missing when the column is absent). */
  function CalcularRazao(l: Linha): (r: Resultado)
    ensures r.teto == l.precoMaximoRefinado
    ensures r.classe == NaoClassificado <==>
              l.valorUnitario.None? || l.precoMaximoRefinado.None? || l.precoMaximoRefinado.value == 0.0
  {
    var razao := Razao(l.valorUnitario, l.precoMaximoRefinado);
    Resultado(l.precoMaximoRefinado, razao, Classificar(razao))
  }
}
