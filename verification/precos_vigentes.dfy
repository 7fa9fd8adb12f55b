/** The CMED price side of `src/nfe_matching_anvisa.py`:
    `preparar_base_precos` (the ceiling price each row stands for, and the
    end of each price period) and `juntar_precos_vigentes` (for each item,
    the price in force on its emission date). */
module PrecosVigentes {
  import opened Wrappers
  import opened Text
  import opened Seqs
  import opened Dates

  // ---------------------------------------------------------------------------
  // preparar_base_precos
  // ---------------------------------------------------------------------------

  /** A row of the price base once its dates and prices are parsed. */
  datatype PrecoBruto = PrecoBruto(
    id: Option<string>,
    inicio: Option<Stamp>,
    fim: Option<Stamp>,
    cap: Option<string>,
    icms: Option<string>,
    pf0: Option<real>,
    pf20: Option<real>,
    pmvg0: Option<real>,
    pmvg20: Option<real>)

  /** `CAP_FLAG` / `ICMS0_FLAG`: the cell reads "SIM" in any case; a missing
      cell (or a missing `ICMS 0%` column) is 0. */
  predicate Flag(v: Option<string>) { v.Some? && Upper(v.value) == "SIM" }

  /** Which ceiling applies: the government purchase price (PMVG) under
      CAP, the factory price (PF) otherwise. */
  datatype Teto = PF | PMVG

  /** Which tax column applies: ICMS 0% or the 20% reference. */
  datatype Aliquota = Zero | Vinte

  function Coluna(p: PrecoBruto, t: Teto, a: Aliquota): Option<real> {
    match (t, a)
    case (PF, Zero) => p.pf0
    case (PF, Vinte) => p.pf20
    case (PMVG, Zero) => p.pmvg0
    case (PMVG, Vinte) => p.pmvg20
  }

  /** `PRECO_MAXIMO_REFINADO`: the four-way `np.select`. CAP chooses the
      PMVG columns, the ICMS exemption the 0% columns; the flags are always
      0 or 1, so the `NaN` default never applies. */
  function PrecoMaximo(p: PrecoBruto): (r: Option<real>)
    ensures Flag(p.cap) ==> r == p.pmvg0 || r == p.pmvg20
    ensures !Flag(p.cap) ==> r == p.pf0 || r == p.pf20
    ensures Flag(p.icms) ==> r == p.pmvg0 || r == p.pf0
    ensures !Flag(p.icms) ==> r == p.pmvg20 || r == p.pf20
  {
    Coluna(p, if Flag(p.cap) then PMVG else PF, if Flag(p.icms) then Zero else Vinte)
  }

  /** The columns a row's price comes from depend only on its two flags. */
  lemma PrecoMaximoMesmasFlags(p: PrecoBruto, q: PrecoBruto)
    requires Flag(p.cap) == Flag(q.cap) && Flag(p.icms) == Flag(q.icms)
    requires p.pf0 == q.pf0 && p.pf20 == q.pf20 && p.pmvg0 == q.pmvg0 && p.pmvg20 == q.pmvg20
    ensures PrecoMaximo(p) == PrecoMaximo(q)
  {
  }

  /** Rows kept by `dropna(subset=['ID_CMED_PRODUTO', 'VIG_INICIO'])`. */
  predicate Completo(p: PrecoBruto) { p.id.Some? && p.inicio.Some? }

  function Dn(d: Dia): int { DayNumber(d) }

  /** Row `j` comes after row `i` in the `(ID_CMED_PRODUTO, VIG_INICIO)`
      sort within the same id (equal starts keep their order). */
  predicate Depois(bs: seq<PrecoBruto>, i: int, j: int)
    requires 0 <= i < |bs| && 0 <= j < |bs| && Completo(bs[i]) && Completo(bs[j])
  {
    j != i && bs[j].id == bs[i].id
    && (Dn(bs[i].inicio.value) < Dn(bs[j].inicio.value)
        || (Dn(bs[i].inicio.value) == Dn(bs[j].inicio.value) && i < j))
  }

  predicate TodosCompletos(bs: seq<PrecoBruto>) {
    forall k :: 0 <= k < |bs| ==> Completo(bs[k])
  }

  /** `groupby('ID_CMED_PRODUTO')['VIG_INICIO'].shift(-1)` for row `i`,
      looking at the first `n` rows: the row right after `i` in its id's
      sorted order. */
  function Proximo(bs: seq<PrecoBruto>, i: nat, n: nat): (r: Option<nat>)
    requires TodosCompletos(bs) && i < |bs| && n <= |bs|
    ensures r.Some? ==> r.value < n && Depois(bs, i, r.value)
    ensures r.Some? ==> forall k :: 0 <= k < n && Depois(bs, i, k) ==>
              Dn(bs[r.value].inicio.value) < Dn(bs[k].inicio.value)
              || (Dn(bs[r.value].inicio.value) == Dn(bs[k].inicio.value) && r.value <= k)
    ensures r.None? <==> forall k :: 0 <= k < n ==> !Depois(bs, i, k)
  {
    if n == 0 then None
    else
      var prev := Proximo(bs, i, n - 1);
      var k := n - 1;
      if !Depois(bs, i, k) then prev
      else if prev.None? || Dn(bs[k].inicio.value) < Dn(bs[prev.value].inicio.value) then Some(k)
      else prev
  }

  /** A row of the prepared base. */
  datatype Vigencia = Vigencia(id: string, inicio: Stamp, fim: Option<Dia>, preco: Option<real>, cap: bool, icms: bool)

  /** `VIG_FIM`, filled when missing with the day before the next start of
      the same id (and left missing for the last period of an id). */
  function FimPreenchido(bs: seq<PrecoBruto>, i: nat): (r: Option<Dia>)
    requires TodosCompletos(bs) && i < |bs|
  {
    if bs[i].fim.Some? then Some(bs[i].fim.value)
    else
      match Proximo(bs, i, |bs|)
      case None => None
      case Some(k) => Some(PrevDay(bs[k].inicio.value))
  }

  /** A filled period ends strictly before every later period of the same
      id starts, and only the last period of an id stays open. */
  lemma FimAntesDoProximo(bs: seq<PrecoBruto>, i: nat, j: nat)
    requires TodosCompletos(bs) && i < |bs| && j < |bs| && bs[i].fim.None?
    requires Depois(bs, i, j)
    ensures FimPreenchido(bs, i).Some?
    ensures Before(FimPreenchido(bs, i).value, bs[j].inicio.value)
  {
    var k := Proximo(bs, i, |bs|).value;
    var f := PrevDay(bs[k].inicio.value);
    PrevDayNumber(bs[k].inicio.value);
    BeforeIsDayNumberOrder(f, bs[j].inicio.value);
  }

  lemma FimAbertoSoNoUltimo(bs: seq<PrecoBruto>, i: nat)
    requires TodosCompletos(bs) && i < |bs| && bs[i].fim.None?
    ensures FimPreenchido(bs, i).None? <==> forall k :: 0 <= k < |bs| ==> !Depois(bs, i, k)
  {
  }

  /** `preparar_base_precos`: rows without id or start are dropped; each
      remaining row carries its refined price, its flags and its (filled)
      end. */
  function PrepararBasePrecos(ps: seq<PrecoBruto>): (r: seq<Vigencia>)
    ensures |r| == |Filter(ps, Completo)|
    ensures forall k :: 0 <= k < |r| ==>
              (exists j :: 0 <= j < |ps| && Completo(ps[j])
                 && r[k].id == ps[j].id.value && r[k].inicio == ps[j].inicio.value
                 && r[k].preco == PrecoMaximo(ps[j]))
  {
    var bs := Filter(ps, Completo);
    assert forall k :: 0 <= k < |bs| ==> bs[k] in ps && Completo(bs[k]);
    seq(|bs|, i requires 0 <= i < |bs| =>
      Vigencia(bs[i].id.value, bs[i].inicio.value, FimPreenchido(bs, i), PrecoMaximo(bs[i]),
               Flag(bs[i].cap), Flag(bs[i].icms)))
  }

  // ---------------------------------------------------------------------------
  // juntar_precos_vigentes
  // ---------------------------------------------------------------------------

  /** The backward as-of match of `merge_asof(by='ID_CMED_PRODUTO')` for an
      id on a date, among the first `n` rows: the latest start not after
      the date (on equal starts, the later row). */
  function AsOf(vs: seq<Vigencia>, id: string, data: Stamp, n: nat): (r: Option<nat>)
    requires n <= |vs|
    ensures r.Some? ==> r.value < n && vs[r.value].id == id && Dn(vs[r.value].inicio) <= Dn(data)
    ensures r.Some? ==> forall k :: 0 <= k < n && vs[k].id == id && Dn(vs[k].inicio) <= Dn(data) ==>
              Dn(vs[k].inicio) < Dn(vs[r.value].inicio)
              || (Dn(vs[k].inicio) == Dn(vs[r.value].inicio) && k <= r.value)
    ensures r.None? <==> forall k :: 0 <= k < n ==> !(vs[k].id == id && Dn(vs[k].inicio) <= Dn(data))
  {
    if n == 0 then None
    else
      var prev := AsOf(vs, id, data, n - 1);
      var k := n - 1;
      if !(vs[k].id == id && Dn(vs[k].inicio) <= Dn(data)) then prev
      else if prev.None? || Dn(vs[prev.value].inicio) <= Dn(vs[k].inicio) then Some(k)
      else prev
  }

  /** The as-of match of `id` on `data` over the whole base. */
  function Casamento(vs: seq<Vigencia>, id: string, data: Stamp): Option<nat>
    ensures Casamento(vs, id, data).Some? ==> Casamento(vs, id, data).value < |vs|
  {
    AsOf(vs, id, data, |vs|)
  }

  /** `is_valid_match` as written: `VIG_FIM` missing or the date not after
      it. A candidate without any as-of match has a missing `VIG_FIM` and
      so counts as valid. */
  predicate ValidoComoEscrito(vs: seq<Vigencia>, id: string, data: Stamp) {
    var m := Casamento(vs, id, data);
    m.None? || vs[m.value].fim.None? || Dn(data) <= Dn(vs[m.value].fim.value)
  }

  /** The intended validity: a matched period that is still in force on
      the date. */
  predicate Valido(vs: seq<Vigencia>, id: string, data: Stamp) {
    var m := Casamento(vs, id, data);
    m.Some? && (vs[m.value].fim.None? || Dn(data) <= Dn(vs[m.value].fim.value))
  }

  /** The first candidate id, in list order, that `valido` accepts. */
  function PrimeiroValido(ids: seq<string>, valido: string -> bool): (r: Option<nat>)
    ensures r.Some? ==> r.value < |ids| && valido(ids[r.value])
                        && forall c :: 0 <= c < r.value ==> !valido(ids[c])
    ensures r.None? <==> forall c :: 0 <= c < |ids| ==> !valido(ids[c])
  {
    if |ids| == 0 then None
    else if valido(ids[0]) then Some(0)
    else
      var r := PrimeiroValido(ids[1..], valido);
      assert forall c :: 1 <= c < |ids| ==> ids[c] == ids[1..][c - 1];
      if r.None? then None else Some(r.value + 1)
  }

  /** What the item receives: `PRECO_MAXIMO_REFINADO`,
      `CAP_FLAG_CORRIGIDO`, `ICMS0_FLAG_CORRIGIDO`. */
  datatype PrecoItem = PrecoItem(preco: Option<real>, cap: Option<bool>, icms: Option<bool>)

  function SemPreco(): PrecoItem { PrecoItem(None, None, None) }

  /** The cells the first accepted candidate brings (all missing when that
      candidate has no as-of match). */
  function Trazido(vs: seq<Vigencia>, id: string, data: Stamp): PrecoItem {
    var m := Casamento(vs, id, data);
    if m.None? then SemPreco()
    else PrecoItem(vs[m.value].preco, Some(vs[m.value].cap), Some(vs[m.value].icms))
  }

  /** One item's price, as written: its candidates are its id list when it
      has a list and an emission date; the first candidate (in list order)
      that passes `is_valid_match` gives the cells. */
  function PrecoDoItemComoEscrito(ids: Option<seq<string>>, data: Option<Stamp>, vs: seq<Vigencia>): PrecoItem {
    if ids.None? || data.None? then SemPreco()
    else
      match PrimeiroValido(ids.value, (id: string) => ValidoComoEscrito(vs, id, data.value))
      case None => SemPreco()
      case Some(c) => Trazido(vs, ids.value[c], data.value)
  }

  /** One item's price with the intended validity: the first candidate
      whose matched period is in force. */
  function PrecoDoItem(ids: Option<seq<string>>, data: Option<Stamp>, vs: seq<Vigencia>): (r: PrecoItem)
    ensures r.preco.Some? ==> ids.Some? && data.Some?
    ensures r != SemPreco() ==>
              ids.Some? && data.Some? && exists c :: 0 <= c < |ids.value| && Valido(vs, ids.value[c], data.value)
    ensures (ids.Some? && data.Some? && exists c :: 0 <= c < |ids.value| && Valido(vs, ids.value[c], data.value))
              ==> r.cap.Some?
  {
    if ids.None? || data.None? then SemPreco()
    else
      match PrimeiroValido(ids.value, (id: string) => Valido(vs, id, data.value))
      case None => SemPreco()
      case Some(c) => Trazido(vs, ids.value[c], data.value)
  }

  /** The price an item gets comes from a period of one of its ids that
      started on or before the emission date and had not ended. */
  lemma PrecoDoItemVigente(ids: seq<string>, data: Stamp, vs: seq<Vigencia>)
    requires PrecoDoItem(Some(ids), Some(data), vs).cap.Some?
    ensures exists c, k :: 0 <= c < |ids| && 0 <= k < |vs| && vs[k].id == ids[c]
              && Dn(vs[k].inicio) <= Dn(data) && (vs[k].fim.None? || Dn(data) <= Dn(vs[k].fim.value))
              && PrecoDoItem(Some(ids), Some(data), vs).preco == vs[k].preco
  {
    var c := PrimeiroValido(ids, (id: string) => Valido(vs, id, data)).value;
    var k := Casamento(vs, ids[c], data).value;
    assert vs[k].id == ids[c];
  }

  /** The source's validity test lets an id without any price period in
      force (no period started yet) shadow a later id of the list that has
      one: the item gets no price although one is in force. */
  lemma ComoEscritoPerdePreco()
    ensures var d := Date(2024, 1, 10);
            var vs := [Vigencia("B", d, None, Some(10.0), false, false)];
            PrecoDoItemComoEscrito(Some(["A", "B"]), Some(d), vs).preco == None
            && PrecoDoItem(Some(["A", "B"]), Some(d), vs).preco == Some(10.0)
  {
    var d: Stamp := Date(2024, 1, 10);
    var vs := [Vigencia("B", d, None, Some(10.0), false, false)];
    assert Casamento(vs, "A", d) == None;
    assert Casamento(vs, "B", d) == Some(0);
    assert ValidoComoEscrito(vs, "A", d);
    assert !Valido(vs, "A", d) && Valido(vs, "B", d);
  }

  /** The as-of candidates of an item: its list and its emission date. */
  datatype ItemPreco = ItemPreco(ids: Option<seq<string>>, data: Option<Stamp>)

  /** The price an item gets from the source's rule also comes from a
      period of one of its ids that started on or before the emission date
      and had not ended; what the rule loses is shown by
      `ComoEscritoPerdePreco`. */
  lemma PrecoComoEscritoVigente(ids: seq<string>, data: Stamp, vs: seq<Vigencia>)
    requires PrecoDoItemComoEscrito(Some(ids), Some(data), vs).cap.Some?
    ensures exists c, k :: 0 <= c < |ids| && 0 <= k < |vs| && vs[k].id == ids[c]
              && Dn(vs[k].inicio) <= Dn(data) && (vs[k].fim.None? || Dn(data) <= Dn(vs[k].fim.value))
              && PrecoDoItemComoEscrito(Some(ids), Some(data), vs).preco == vs[k].preco
  {
    var c := PrimeiroValido(ids, (id: string) => ValidoComoEscrito(vs, id, data)).value;
    var k := Casamento(vs, ids[c], data).value;
    assert vs[k].id == ids[c];
  }

  /** Two tests that agree on every candidate pick the same one. */
  lemma {:induction false} PrimeiroValidoConcorda(ids: seq<string>, v1: string -> bool, v2: string -> bool)
    requires forall c :: 0 <= c < |ids| ==> v1(ids[c]) == v2(ids[c])
    ensures PrimeiroValido(ids, v1) == PrimeiroValido(ids, v2)
  {
    if |ids| > 0 && !v1(ids[0]) {
      assert forall c :: 0 <= c < |ids[1..]| ==> ids[1..][c] == ids[c + 1];
      PrimeiroValidoConcorda(ids[1..], v1, v2);
    }
  }

  /** When every candidate id has a period started by the emission date,
      the source's rule and the intended one give the same cells. */
  lemma ComoEscritoComCasamento(ids: seq<string>, data: Stamp, vs: seq<Vigencia>)
    requires forall c :: 0 <= c < |ids| ==> Casamento(vs, ids[c], data).Some?
    ensures PrecoDoItemComoEscrito(Some(ids), Some(data), vs) == PrecoDoItem(Some(ids), Some(data), vs)
  {
    var v1 := (id: string) => ValidoComoEscrito(vs, id, data);
    var v2 := (id: string) => Valido(vs, id, data);
    PrimeiroValidoConcorda(ids, v1, v2);
  }

  /** `juntar_precos_vigentes`: every item, in order, with the price cells
      the source's validity test gives it; an item without a list or an
      emission date gets none. */
  function JuntarPrecosVigentes(itens: seq<ItemPreco>, vs: seq<Vigencia>): (r: seq<PrecoItem>)
    ensures |r| == |itens|
    ensures forall i :: 0 <= i < |r| && (itens[i].ids.None? || itens[i].data.None?) ==> r[i] == SemPreco()
    ensures forall i :: 0 <= i < |r| ==> r[i] == PrecoDoItemComoEscrito(itens[i].ids, itens[i].data, vs)
  {
    seq(|itens|, i requires 0 <= i < |itens| => PrecoDoItemComoEscrito(itens[i].ids, itens[i].data, vs))
  }

  /** `preco` comes from a period of one of `ids` that started on or before
      `data` and had not ended. */
  predicate DeVigenciaEmVigor(ids: seq<string>, data: Stamp, vs: seq<Vigencia>, preco: Option<real>) {
    exists c, k :: 0 <= c < |ids| && 0 <= k < |vs| && vs[k].id == ids[c]
      && Dn(vs[k].inicio) <= Dn(data) && (vs[k].fim.None? || Dn(data) <= Dn(vs[k].fim.value))
      && preco == vs[k].preco
  }

  /** The intended join: the same with the intended validity test, so an
      item has cells exactly when one of its ids has a period in force. */
  function JuntarPrecosVigentesCorrigida(itens: seq<ItemPreco>, vs: seq<Vigencia>): (r: seq<PrecoItem>)
    ensures |r| == |itens|
    ensures forall i :: 0 <= i < |r| && (itens[i].ids.None? || itens[i].data.None?) ==> r[i] == SemPreco()
    ensures forall i :: 0 <= i < |r| && itens[i].ids.Some? && itens[i].data.Some? && r[i].cap.Some? ==>
              DeVigenciaEmVigor(itens[i].ids.value, itens[i].data.value, vs, r[i].preco)
  {
    var r := seq(|itens|, i requires 0 <= i < |itens| => PrecoDoItem(itens[i].ids, itens[i].data, vs));
    forall i | 0 <= i < |r| && itens[i].ids.Some? && itens[i].data.Some? && r[i].cap.Some?
      ensures DeVigenciaEmVigor(itens[i].ids.value, itens[i].data.value, vs, r[i].preco)
    {
      PrecoDoItemVigente(itens[i].ids.value, itens[i].data.value, vs);
    }
    r
  }

  // ---------------------------------------------------------------------------
  // _ensure_list
  // ---------------------------------------------------------------------------

  /** A cell of `ID_CMED_PRODUTO_LIST` as read back from storage. */
  datatype Celula = Lista(xs: seq<string>) | Texto(s: string) | Ausente

  function Aspas(): set<char> { {'\'', '"'} }

  /** The fallback reading of a bracketed text: the comma-separated
      pieces, each stripped of blanks and then of quotes; blank pieces are
      skipped. */
  function Pedacos(ps: seq<string>): (r: seq<string>)
    ensures forall k :: 0 <= k < |r| ==> exists j :: 0 <= j < |ps| && r[k] == StripSet(Strip(ps[j]), Aspas())
    ensures |r| <= |ps|
  {
    if |ps| == 0 then []
    else
      var r := (if Strip(ps[0]) != "" then [StripSet(Strip(ps[0]), Aspas())] else []) + Pedacos(ps[1..]);
      assert forall j :: 1 <= j < |ps| ==> ps[j] == ps[1..][j - 1];
      r
  }

  /** `_ensure_list`: a list is kept, a missing cell stays missing, a
      bracketed text is read as a Python literal when `literal` can (it
      answers the list's items as text) and otherwise split on commas (no
      pieces: missing), and any other text becomes a one-element list. */
  function EnsureList(c: Celula, literal: string -> Option<seq<string>>): (r: Option<seq<string>>)
    ensures c.Lista? ==> r == Some(c.xs)
    ensures c.Ausente? ==> r.None?
    ensures (c.Texto? && !(|Strip(c.s)| >= 2 && Strip(c.s)[0] == '[' && Strip(c.s)[|Strip(c.s)| - 1] == ']'))
              ==> r == Some([Strip(c.s)])
    ensures r.Some? && r.value == [] ==> c.Lista? || (c.Texto? && literal(Strip(c.s)) == Some([]))
  {
    match c
    case Lista(xs) => Some(xs)
    case Ausente => None
    case Texto(s) =>
      var t := Strip(s);
      if |t| >= 2 && t[0] == '[' && t[|t| - 1] == ']' then
        var lit := literal(t);
        if lit.Some? then lit
        else
          var parts := Pedacos(SplitOn(t[1..|t| - 1], ','));
          if |parts| == 0 then None else Some(parts)
      else Some([t])
  }

  /** An id that the fallback reads back as itself: non-empty, no comma,
      no blank or quote at either end. */
  predicate IdLimpo(x: string) {
    |x| > 0 && ',' !in x && !IsSpace(x[0]) && !IsSpace(x[|x| - 1])
    && x[0] !in Aspas() && x[|x| - 1] !in Aspas()
  }

  /** A clean id survives the stripping of blanks and quotes. */
  lemma LimpoFixo(x: string)
    requires IdLimpo(x)
    ensures Strip(x) == x && StripSet(Strip(x), Aspas()) == x
  {
    assert TrimLeftSp(x) == x;
    assert TrimRightSp(x) == x;
    assert TrimLeftSet(x, Aspas()) == x;
    assert TrimRightSet(x, Aspas()) == x;
  }

  lemma PedacosPasso(xs: seq<string>)
    requires |xs| > 0 && Strip(xs[0]) != ""
    ensures Pedacos(xs) == [StripSet(Strip(xs[0]), Aspas())] + Pedacos(xs[1..])
  {
  }

  lemma {:induction false} PedacosLimpos(xs: seq<string>)
    requires forall k :: 0 <= k < |xs| ==> IdLimpo(xs[k])
    ensures Pedacos(xs) == xs
  {
    if |xs| > 0 {
      LimpoFixo(xs[0]);
      PedacosPasso(xs);
      PedacosLimpos(xs[1..]);
      assert xs == [xs[0]] + xs[1..];
    }
  }

  /** A bracketed text without blanks at its ends is already stripped. */
  lemma EntreColchetes(j: string)
    ensures Strip("[" + j + "]") == "[" + j + "]"
  {
    var t := "[" + j + "]";
    assert TrimLeftSp(t) == t;
    assert TrimRightSp(t) == t;
  }

  /** Round trip of the fallback: a list of clean ids written as
      `[a,b,c]` and not readable as a literal is read back as the list. */
  lemma EnsureListRoundTrip(xs: seq<string>, literal: string -> Option<seq<string>>)
    requires |xs| >= 1 && forall k :: 0 <= k < |xs| ==> IdLimpo(xs[k])
    requires literal("[" + Join(xs, [',']) + "]").None?
    ensures EnsureList(Texto("[" + Join(xs, [',']) + "]"), literal) == Some(xs)
  {
    var t := "[" + Join(xs, [',']) + "]";
    EntreColchetes(Join(xs, [',']));
    assert t[1..|t| - 1] == Join(xs, [',']);
    SplitOnJoin(xs, ',');
    PedacosLimpos(xs);
  }
}
