/** Quantities read from a product's normalised presentation text
    (`extrair_quantidades_medicamentos`): the number of primary items (a
    cascade of patterns, first match wins, one item by default), the total
    dosage in milligrams (grams and micrograms converted), the total volume
    in millilitres and the total of international units.

    Python floats are modelled as exact reals: the sums do not round. */
module Dosagem {
  import opened Wrappers
  import opened Text
  import opened Scan
  import opened Dates
  import opened Seqs
  import opened Frame
  import opened Busca

  // ---------------------------------------------------------------------------
  // Text preparation
  // ---------------------------------------------------------------------------

  /** `(?<=\d)\.(?=\d{3}\b)`: a dot after a digit and before exactly three
      digits that end a word (a thousands separator). */
  function Milhar(): Matcher {
    (s: string, i: nat) =>
      if 0 < i && i + 4 <= |s| && s[i] == '.' && IsDigit(s[i - 1]) && AllDigits(s[i + 1..i + 4]) && Boundary(s, i + 4)
      then 1 else 0
  }

  /** The text as the extraction reads it: upper case, thousands dots
      removed, decimal commas written as dots. No comma is left. */
  function PrepararTexto(s: string): (r: string)
    ensures ',' !in r
  {
    ReplaceChar(Delete(Upper(s), Milhar()), ',', '.')
  }

  /** One step of a deletion: a match is dropped, any other character is
      kept. */
  lemma ApagarPasso(s: string, i: nat, m: Matcher)
    requires i < |s|
    ensures MatchesAt(s, i, m) ==> SubFrom(s, i, m, Nothing) == SubFrom(s, i + m(s, i), m, Nothing)
    ensures !MatchesAt(s, i, m) ==> SubFrom(s, i, m, Nothing) == [s[i]] + SubFrom(s, i + 1, m, Nothing)
  {
  }

  lemma RemoverUm(x: char, c: char)
    ensures RemoveChar([x], c) == if x == c then "" else [x]
  {
    assert [x][1..] == "";
  }

  /** Removing a character from a text that starts with `x`. */
  lemma RemoverCabeca(x: char, t: string, u: string, c: char)
    requires RemoveChar(t, c) == RemoveChar(u, c)
    ensures RemoveChar([x] + t, c) == RemoveChar([x] + u, c)
  {
    RemoveCharAppend([x], t, c);
    RemoveCharAppend([x], u, c);
  }

  /** Deleting single-dot matches removes dots and nothing else. */
  lemma {:induction false} SoPontosDe(s: string, i: nat, m: Matcher)
    requires i <= |s|
    requires forall j :: i <= j < |s| && MatchesAt(s, j, m) ==> m(s, j) == 1 && s[j] == '.'
    ensures RemoveChar(SubFrom(s, i, m, Nothing), '.') == RemoveChar(s[i..], '.')
    decreases |s| - i
  {
    if i < |s| {
      var t := SubFrom(s, i + 1, m, Nothing);
      var u := s[i + 1..];
      assert s[i..] == [s[i]] + u;
      SoPontosDe(s, i + 1, m);
      ApagarPasso(s, i, m);
      RemoverCabeca(s[i], t, u, '.');
      if MatchesAt(s, i, m) {
        RemoveCharAppend([s[i]], u, '.');
        RemoverUm(s[i], '.');
      }
    }
  }

  /** Removing the thousands separators removes dots and nothing else. */
  lemma MilharSoPontos(s: string)
    ensures RemoveChar(Delete(s, Milhar()), '.') == RemoveChar(s, '.')
  {
    SoPontosDe(s, 0, Milhar());
    assert s[0..] == s;
  }

  // ---------------------------------------------------------------------------
  // Numbers and words
  // ---------------------------------------------------------------------------

  /** `int()` of a digit string. */
  function Inteiro(t: string): nat {
    if AllDigits(t) then DigitsValue(t) else 0
  }

  /** Where the optional fraction `[seps]\d+` that may follow position `e`
      ends. */
  function Fracao(s: string, e: nat, seps: set<char>): (f: nat)
    ensures f == e || (e < f <= |s| && s[e] in seps)
  {
    if e < |s| && s[e] in seps && CharRun(s, e + 1, IsDigit) > 0 then e + 1 + CharRun(s, e + 1, IsDigit) else e
  }

  /** 10 to the power `n`. */
  function Escala(n: nat): (r: real)
    ensures r >= 1.0
  {
    if n == 0 then 1.0 else 10.0 * Escala(n - 1)
  }

  /** `float()` of the number written from `k`: integer digits up to `e`,
      fraction digits from `e + 1` up to `f` when there is a fraction. */
  function Decimal(s: string, k: nat, e: nat, f: nat): real
    requires k <= e <= f <= |s|
  {
    var frac := if e < f then s[e + 1..f] else "";
    Inteiro(s[k..e]) as real + Inteiro(frac) as real / Escala(|frac|)
  }

  /** `\d+(?:[seps]\d+)?` at `k`: where the number ends and its value. */
  function NumeroEm(s: string, k: nat, seps: set<char>): (r: Option<Achado<real>>)
    ensures r.Some? ==> k < r.value.fim <= |s|
  {
    var d := CharRun(s, k, IsDigit);
    if d == 0 then None
    else
      var f := Fracao(s, k + d, seps);
      Some(Achado(f, Decimal(s, k, k + d, f)))
  }

  function Numero(): Achador<real> { (s: string, k: nat) => NumeroEm(s, k, {'.'}) }

  /** `re.findall(r'\d+(?:\.\d+)?', t)` read as floats. */
  function Numeros(t: string): seq<real> {
    Valores(Todos(t, 0, Numero()))
  }

  /** The length of the word starting at `u` when it is one of `ws` (up to
      case when `ci`), else 0: an alternation `(w1|w2|...)\b` matches at
      `u` exactly when the whole word there is one of the alternatives. */
  function Palavra(s: string, u: nat, ws: set<string>, ci: bool): (n: nat)
    ensures n > 0 ==> u + n <= |s| && IsWordChar(s[u]) && (u + n == |s| || !IsWordChar(s[u + n]))
  {
    var n := CharRun(s, u, IsWordChar);
    if n > 0 && (if ci then Upper(s[u..u + n]) else s[u..u + n]) in ws then n else 0
  }

  function Soma(xs: seq<real>): real {
    if xs == [] then 0.0 else xs[0] + Soma(xs[1..])
  }

  // ---------------------------------------------------------------------------
  // Dosage in milligrams
  // ---------------------------------------------------------------------------

  /** One term `\(?\s*\d+(?:[.,]\d+)?\s*(?:\+\s*)?` of a dosage sum. */
  function Termo(s: string, j: nat): (r: Option<nat>)
    ensures r.Some? ==> j < r.value <= |s|
  {
    var a := if j < |s| && s[j] == '(' then j + 1 else j;
    var b := a + SpaceRun(s, a);
    var d := CharRun(s, b, IsDigit);
    if d == 0 then None
    else
      var e := Fracao(s, b + d, {'.', ','});
      var f := e + SpaceRun(s, e);
      Some(if f < |s| && s[f] == '+' then f + 1 + SpaceRun(s, f + 1) else f)
  }

  /** The greedy repetition of terms from `j`. */
  function Termos(s: string, j: nat): (e: nat)
    requires j <= |s|
    ensures j <= e <= |s|
    decreases |s| - j
  {
    match Termo(s, j)
    case None => j
    case Some(e) => Termos(s, e)
  }

  datatype Dose = Dose(valores: string, unidade: string)

  /** `((?:\(?\s*\d+(?:[.,]\d+)?\s*(?:\+\s*)?)+\)?)\s*(MG|G|MCG)\b`, any
      case: the terms, an optional closing parenthesis, the unit. A term
      holds no letter and no ')', so giving terms back can never reach a
      unit the greedy reading misses. */
  function DoseEm(s: string, i: nat): (r: Option<Achado<Dose>>)
    ensures r.Some? ==> i < r.value.fim <= |s|
  {
    if i > |s| then None
    else
      var e := Termos(s, i);
      var p := if e < |s| && s[e] == ')' then e + 1 else e;
      match UnidadeDose(s, p)
      case None => None
      case Some((u, n)) => if e == i then None else Some(Achado(u + n, Dose(s[i..p], s[u..u + n])))
  }

  /** `\s*(MG|G|MCG)\b` at `p`, any case: where the unit starts and its
      length. */
  function UnidadeDose(s: string, p: nat): (r: Option<(nat, nat)>)
    ensures r.Some? ==> p <= r.value.0 && 0 < r.value.1 && r.value.0 + r.value.1 <= |s|
  {
    var u := p + SpaceRun(s, p);
    var n := Palavra(s, u, {"MG", "G", "MCG"}, true);
    if n == 0 then None else Some((u, n))
  }

  function Doses(): Achador<Dose> { (s: string, i: nat) => DoseEm(s, i) }

  /** A number of a dosage in milligrams. */
  function EmMg(x: real, unidade: string): real {
    if unidade == "G" then x * 1000.0 else if unidade == "MCG" then x / 1000.0 else x
  }

  /** Every number of every dosage match, converted to milligrams. */
  function Miligramas(ds: seq<Ocorrencia<Dose>>): (r: seq<real>)
  {
    if ds == [] then []
    else
      var d := ds[0].achado.valor;
      seq(|Numeros(d.valores)|, k requires 0 <= k < |Numeros(d.valores)| => EmMg(Numeros(d.valores)[k], d.unidade))
        + Miligramas(ds[1..])
  }

  /** QUANTIDADE MG before the BISNAGA rule: the total of the dosages, or
      missing when no number was found in a dosage. */
  function SomaMg(s: string): (r: Option<real>)
  {
    var xs := Miligramas(Todos(s, 0, Doses()));
    if xs == [] then None else Some(Soma(xs))
  }

  // ---------------------------------------------------------------------------
  // BISNAGA, volume and international units
  // ---------------------------------------------------------------------------

  /** `(\d+(?:[seps]\d+)?)\s*U\b` at `k`, with the unit `u` compared up to
      case when `ci`: the number's value. The number never needs to give
      digits back, since the unit cannot start with a digit or a separator. */
  function NumUnidade(s: string, k: nat, seps: set<char>, u: string, ci: bool): (r: Option<Achado<real>>)
    ensures r.Some? ==> k < r.value.fim <= |s|
  {
    match NumeroEm(s, k, seps)
    case None => None
    case Some(a) =>
      var p := a.fim + SpaceRun(s, a.fim);
      var n := Palavra(s, p, {u}, ci);
      if n == 0 then None else Some(Achado(p + n, a.valor))
  }

  /** A tube: the text holds "BISNAGA" or the whole word "BG". */
  predicate EhBisnaga(s: string) {
    Contains(s, "BISNAGA") || exists k :: 0 <= k <= |s| && WholeWordAt(s, k, "BG", false)
  }

  function Gramas(): Achador<real> { (s: string, k: nat) => NumUnidade(s, k, {'.'}, "G", false) }

  /** QUANTIDADE MG: for a tube with some "<n> G", the last such n in
      milligrams; otherwise the total of the dosages. */
  function QuantidadeMg(s: string): (r: Option<real>)
  {
    MgOuTubo(EhBisnaga(s), Valores(Todos(s, 0, Gramas())), SomaMg(s))
  }

  /** The BISNAGA rule: a tube with some grams takes the last of them, in
      milligrams; otherwise the total of the dosages stands. */
  function MgOuTubo(tubo: bool, g: seq<real>, soma: Option<real>): (r: Option<real>)
  {
    if tubo && g != [] then Some(g[|g| - 1] * 1000.0) else soma
  }

  function Mililitros(): Achador<real> { (s: string, k: nat) => NumUnidade(s, k, {'.', ','}, "ML", true) }

  /** QUANTIDADE ML: the total of every "<n> ML", missing when there is
      none. */
  function QuantidadeMl(s: string): (r: Option<real>)
    ensures r.None? <==> !Ocorre(s, Mililitros())
  {
    TodosVazio(s, Mililitros());
    var v := Valores(Todos(s, 0, Mililitros()));
    if v == [] then None else Some(Soma(v))
  }

  /** Where the greedy repetition `(?:[.,\s]\d{3})*` from `j` ends. Giving
      a group back leaves a separator and three digits, which the `UI` that
      must follow can never start with. */
  function Milhares(s: string, j: nat): (e: nat)
    requires j <= |s|
    ensures j <= e <= |s|
    decreases |s| - j
  {
    if j + 4 <= |s| && (s[j] in {'.', ','} || IsSpace(s[j])) && AllDigits(s[j + 1..j + 4]) then Milhares(s, j + 4) else j
  }

  /** `(\d+(?:[.,\s]\d{3})*)\s*(?:UI|U\s*I)\b`, any case, at `k`: the
      number as written. */
  function UiEm(s: string, k: nat): (r: Option<Achado<string>>)
    ensures r.Some? ==> k < r.value.fim <= |s| && |r.value.valor| > 0 && IsDigit(r.value.valor[0])
  {
    var d := CharRun(s, k, IsDigit);
    if d == 0 then None
    else
      var e := Milhares(s, k + d);
      var p := e + SpaceRun(s, e);
      if p < |s| && UpperChar(s[p]) == 'U' then
        var q := p + 1 + SpaceRun(s, p + 1);
        if q < |s| && UpperChar(s[q]) == 'I' && Boundary(s, q + 1) then Some(Achado(q + 1, s[k..e])) else None
      else None
  }

  function Uis(): Achador<string> { (s: string, k: nat) => UiEm(s, k) }

  /** `float(v.replace(' ', '').replace('.', ''))`, or nothing when that
      raises (another separator, such as a tab, stays in the number). */
  function ValorUi(v: string): (r: Option<nat>)
    ensures r.Some? <==> AllDigits(RemoveChar(RemoveChar(v, ' '), '.'))
  {
    var limpo := RemoveChar(RemoveChar(v, ' '), '.');
    if AllDigits(limpo) then Some(DigitsValue(limpo)) else None
  }

  /** The total of the international units that convert. */
  function SomaUi(vs: seq<string>): nat {
    if vs == [] then 0 else (match ValorUi(vs[0]) case Some(x) => x case None => 0) + SomaUi(vs[1..])
  }

  /** A positive amount of international units was written. */
  predicate UiPositiva(v: string) {
    ValorUi(v).Some? && ValorUi(v).value > 0
  }

  /** The total is positive exactly when some amount is. */
  lemma {:induction false} SomaUiPositiva(vs: seq<string>)
    ensures SomaUi(vs) > 0 <==> exists j :: 0 <= j < |vs| && UiPositiva(vs[j])
  {
    if vs != [] {
      SomaUiPositiva(vs[1..]);
      if exists j :: 0 <= j < |vs[1..]| && UiPositiva(vs[1..][j]) {
        var j :| 0 <= j < |vs[1..]| && UiPositiva(vs[1..][j]);
        assert vs[j + 1] == vs[1..][j];
      }
      if exists j :: 0 <= j < |vs| && UiPositiva(vs[j]) {
        var j :| 0 <= j < |vs| && UiPositiva(vs[j]);
        if j > 0 {
          assert vs[1..][j - 1] == vs[j];
        }
      }
    }
  }

  /** Some match holds a positive amount of international units. */
  predicate AlgumaUi(r: seq<Ocorrencia<string>>) {
    exists j :: 0 <= j < |r| && UiPositiva(r[j].achado.valor)
  }

  lemma AlgumaUiValores(r: seq<Ocorrencia<string>>)
    ensures AlgumaUi(r) <==> SomaUi(Valores(r)) > 0
  {
    var vs := Valores(r);
    SomaUiPositiva(vs);
    if AlgumaUi(r) {
      var j :| 0 <= j < |r| && UiPositiva(r[j].achado.valor);
      assert vs[j] == r[j].achado.valor;
    }
  }

  /** QUANTIDADE UI: the total of the international units, missing when
      no match converts to a positive amount. */
  function QuantidadeUi(s: string): (r: Option<real>)
    ensures r.Some? ==> r.value > 0.0
    ensures r.Some? <==> AlgumaUi(Todos(s, 0, Uis()))
  {
    var m := Todos(s, 0, Uis());
    AlgumaUiValores(m);
    var t := SomaUi(Valores(m));
    if t > 0 then Some(t as real) else None
  }

  // ---------------------------------------------------------------------------
  // Number of items
  // ---------------------------------------------------------------------------

  /** Units of measure, which are never counted as items. */
  const Medidas: set<string> := {"ML", "MG", "MCG", "G", "UI", "MM", "MEQ", "L"}

  /** Words naming a primary item (vial, ampoule, blister, sachet, ...). */
  const Itens: set<string> := {"FA", "SER", "ENV", "AMP", "CAR", "CARP", "CART", "BL", "FR", "BG", "CAP", "CAPS",
    "CX", "CT", "BOLSA", "BOLSAS", "SACHE", "SACHES", "TUBO", "TUBOS", "XPE"}

  /** The length of `X\s+\d+(?:\.\d+)?\s+\b(ML|MG|...)\b` at `i`, case
      sensitive, or 0: a count followed by a unit of measure. */
  function XMedidaEm(s: string, i: nat): (n: nat)
    ensures n > 0 ==> i + n <= |s| && s[i] == 'X'
  {
    if i < |s| && s[i] == 'X' then
      var a := SpaceRun(s, i + 1);
      var b := i + 1 + a;
      var d := CharRun(s, b, IsDigit);
      var f := Fracao(s, b + d, {'.'});
      var c := SpaceRun(s, f);
      var w := Palavra(s, f + c, Medidas, false);
      if a == 0 || d == 0 || c == 0 || w == 0 then 0 else f + c + w - i
    else 0
  }

  function XMedida(): Matcher { (s: string, i: nat) => XMedidaEm(s, i) }

  /** The text the item rules read: every "X <n> <unit of measure>"
      removed. */
  function Sanitizar(s: string): string {
    Delete(s, XMedida())
  }

  /** `\b(?:CX|CT)` at `k`, any case: a box. */
  predicate CaixaEm(s: string, k: nat) {
    Boundary(s, k) && (TextAt(s, k, "CX", true) || TextAt(s, k, "CT", true))
  }

  /** The length of the item word at `u`, any case, or 0. */
  function ItemEm(s: string, u: nat): nat {
    Palavra(s, u, Itens, true)
  }

  /** The count written from `b` followed by `\s+` and an item word. */
  function ContagemDeItens(s: string, b: nat): (r: Option<Achado<nat>>)
    ensures r.Some? ==> b < r.value.fim <= |s|
  {
    var d := CharRun(s, b, IsDigit);
    var c := SpaceRun(s, b + d);
    var n := ItemEm(s, b + d + c);
    if d == 0 || c == 0 || n == 0 then None else Some(Achado(b + d + c + n, Inteiro(s[b..b + d])))
  }

  /** Rule CX_NUM_ITEM, `\b(?:CX|CT)\s+(\d+)\s+<item>`: "CX 10 FA". */
  function CxNumItemEm(s: string, k: nat): (r: Option<Achado<nat>>)
    ensures r.Some? ==> k < r.value.fim <= |s|
  {
    var a := SpaceRun(s, k + 2);
    if !CaixaEm(s, k) || a == 0 then None else ContagemDeItens(s, k + 2 + a)
  }

  /** Rule NUM_ITEM, `(\d+)\s+<item>`: "50 FA". */
  function NumItemEm(s: string, k: nat): (r: Option<Achado<nat>>)
    ensures r.Some? ==> k < r.value.fim <= |s|
  {
    ContagemDeItens(s, k)
  }

  /** Rule CX_SIMPLES, `\b(?:CX|CT)\s+(\d+)\b`: "CX 50". */
  function CxSimplesEm(s: string, k: nat): (r: Option<Achado<nat>>)
    ensures r.Some? ==> k < r.value.fim <= |s|
  {
    var a := SpaceRun(s, k + 2);
    var b := k + 2 + a;
    var d := CharRun(s, b, IsDigit);
    if !CaixaEm(s, k) || a == 0 || d == 0 || !Boundary(s, b + d) then None else Some(Achado(b + d, Inteiro(s[b..b + d])))
  }

  /** `\s+\b(ML|MG|...)\b` at `e`, any case: a unit of measure follows. */
  predicate SegueMedida(s: string, e: nat) {
    SpaceRun(s, e) > 0 && Palavra(s, e + SpaceRun(s, e), Medidas, true) > 0
  }

  /** Rule X_GENERICO, `X\s+(\d+)(?!\s+<unit of measure>)`, any case. When
      the whole number is followed by a unit of measure the digits are given
      back one at a time; after one is given back a digit follows, so the
      lookahead no longer sees a unit and the number minus its last digit
      is taken (if any digit is left). The count is never followed by a unit
      of measure. */
  function XGenericoEm(s: string, k: nat): (r: Option<Achado<nat>>)
    ensures r.Some? ==> k < r.value.fim <= |s|
  {
    var a := SpaceRun(s, k + 1);
    if k >= |s| || UpperChar(s[k]) != 'X' || a == 0 then None else ContagemSemMedida(s, k + 1 + a)
  }

  /** `(\d+)(?!\s+<unit of measure>)` at `b`. */
  function ContagemSemMedida(s: string, b: nat): (r: Option<Achado<nat>>)
    ensures r.Some? ==> b < r.value.fim <= |s|
  {
    ContagemAntes(s, b, (e: nat) => SegueMedida(s, e))
  }

  /** `(\d+)(?!L)` at `b`, where `segue(e)` says that the lookahead `L`
      matches at `e`: the whole run of digits, or, when `L` follows it, the
      run minus its last digit (backtracking stops there, as a digit follows). */
  function ContagemAntes(s: string, b: nat, segue: nat -> bool): (r: Option<Achado<nat>>)
    ensures r.Some? ==> b < r.value.fim <= |s|
  {
    var d := CharRun(s, b, IsDigit);
    if d == 0 then None
    else if !segue(b + d) then Some(Achado(b + d, Inteiro(s[b..b + d])))
    else if d >= 2 then Some(Achado(b + d - 1, Inteiro(s[b..b + d - 1])))
    else None
  }

  /** The count rule X_GENERICO takes is never followed by a unit of
      measure. */
  lemma XGenericoSemMedida(s: string, k: nat)
    requires XGenericoEm(s, k).Some?
    ensures !SegueMedida(s, XGenericoEm(s, k).value.fim)
  {
    var b := XGenericoInicio(s, k);
    var segue := (e: nat) => SegueMedida(s, e);
    forall e: nat | e < |s| && IsDigit(s[e]) ensures !segue(e) {
      DigitoSemMedida(s, e);
    }
    ContagemLivre(s, b, segue);
  }

  /** Where the number X_GENERICO reads starts. */
  lemma XGenericoInicio(s: string, k: nat) returns (b: nat)
    requires XGenericoEm(s, k).Some?
    ensures XGenericoEm(s, k) == ContagemAntes(s, b, (e: nat) => SegueMedida(s, e))
  {
    b := k + 1 + SpaceRun(s, k + 1);
  }

  /** When the lookahead never matches right after a digit, the number
      `(\d+)(?!L)` takes is not followed by `L`. */
  lemma ContagemLivre(s: string, b: nat, segue: nat -> bool)
    requires ContagemAntes(s, b, segue).Some?
    requires forall e: nat :: e < |s| && IsDigit(s[e]) ==> !segue(e)
    ensures !segue(ContagemAntes(s, b, segue).value.fim)
  {
  }

  /** No unit of measure follows a position holding a digit. */
  lemma DigitoSemMedida(s: string, e: nat)
    requires e < |s| && IsDigit(s[e])
    ensures !SegueMedida(s, e)
  {
  }

  /** Rule FALLBACK_1_ITEM, `\b<item>\b`: any item word counts one. */
  function QualquerItemEm(s: string, k: nat): (r: Option<Achado<nat>>)
    ensures r.Some? ==> k < r.value.fim <= |s|
  {
    var n := ItemEm(s, k);
    if n == 0 || !Boundary(s, k) then None else Some(Achado(k + n, 1))
  }

  function CxNumItem(): Achador<nat> { (s: string, k: nat) => CxNumItemEm(s, k) }
  function NumItem(): Achador<nat> { (s: string, k: nat) => NumItemEm(s, k) }
  function CxSimples(): Achador<nat> { (s: string, k: nat) => CxSimplesEm(s, k) }
  function XGenerico(): Achador<nat> { (s: string, k: nat) => XGenericoEm(s, k) }
  function QualquerItem(): Achador<nat> { (s: string, k: nat) => QualquerItemEm(s, k) }

  /** The pattern matches somewhere with the group value `n`. */
  predicate Decide(s: string, at: Achador<nat>, n: nat) {
    exists k :: 0 <= k < |s| && Casa(s, k, at) && at(s, k).value.valor == n
  }

  /** The rule that decided the number of items (`UNIDADES_RULE`). */
  datatype RegraUnidade = CxNumItemRegra | NumItemRegra | CxSimplesRegra | XGenericoRegra | FallbackRegra

  function NomeRegra(g: RegraUnidade): string {
    match g
    case CxNumItemRegra => "CX_NUM_ITEM"
    case NumItemRegra => "NUM_ITEM"
    case CxSimplesRegra => "CX_SIMPLES"
    case XGenericoRegra => "X_GENERICO"
    case FallbackRegra => "FALLBACK_1_ITEM"
  }

  datatype Contagem = Contagem(unidades: nat, regra: Option<RegraUnidade>)

  /** The number of items read from a sanitised text: the rules are tried
      in order and the first that matches anywhere decides; with no rule,
      one item. */
  function ContarUnidades(u: string): (r: Contagem)
    ensures r.regra == Some(CxNumItemRegra) <==> Ocorre(u, CxNumItem())
    ensures r.regra == Some(NumItemRegra) <==> !Ocorre(u, CxNumItem()) && Ocorre(u, NumItem())
    ensures r.regra == Some(CxSimplesRegra) <==> !Ocorre(u, CxNumItem()) && !Ocorre(u, NumItem()) && Ocorre(u, CxSimples())
    ensures r.regra == Some(XGenericoRegra) <==>
      !Ocorre(u, CxNumItem()) && !Ocorre(u, NumItem()) && !Ocorre(u, CxSimples()) && Ocorre(u, XGenerico())
    ensures r.regra == Some(FallbackRegra) <==>
      !Ocorre(u, CxNumItem()) && !Ocorre(u, NumItem()) && !Ocorre(u, CxSimples()) && !Ocorre(u, XGenerico()) && Ocorre(u, QualquerItem())
    ensures r.regra.None? || r.regra == Some(FallbackRegra) ==> r.unidades == 1
    ensures r.regra == Some(CxNumItemRegra) ==> Decide(u, CxNumItem(), r.unidades)
    ensures r.regra == Some(NumItemRegra) ==> Decide(u, NumItem(), r.unidades)
    ensures r.regra == Some(CxSimplesRegra) ==> Decide(u, CxSimples(), r.unidades)
    ensures r.regra == Some(XGenericoRegra) ==> Decide(u, XGenerico(), r.unidades)
  {
    match Primeiro(u, CxNumItem())
    case Some(n) => Contagem(n, Some(CxNumItemRegra))
    case None =>
      match Primeiro(u, NumItem())
      case Some(n) => Contagem(n, Some(NumItemRegra))
      case None =>
        match Primeiro(u, CxSimples())
        case Some(n) => Contagem(n, Some(CxSimplesRegra))
        case None =>
          match Primeiro(u, XGenerico())
          case Some(n) => Contagem(n, Some(XGenericoRegra))
          case None =>
            if Primeiro(u, QualquerItem()).Some? then Contagem(1, Some(FallbackRegra)) else Contagem(1, None)
  }

  // ---------------------------------------------------------------------------
  // One presentation, and the frame
  // ---------------------------------------------------------------------------

  /** What one presentation yields. */
  datatype Quantidades = Quantidades(unidades: nat, regra: Option<RegraUnidade>, mg: Option<real>, ml: Option<real>, ui: Option<real>)

  /** The quantities of one presentation text. */
  function Extrair(apresentacao: string): (q: Quantidades)
    ensures q.ui.Some? ==> q.ui.value > 0.0
    ensures q.regra.None? ==> q.unidades == 1
  {
    var s := PrepararTexto(apresentacao);
    var c := ContarUnidades(Sanitizar(s));
    Quantidades(c.unidades, c.regra, QuantidadeMg(s), QuantidadeMl(s), QuantidadeUi(s))
  }

  /** The output columns, dropped first so that running again recomputes
      them. */
  const Quantias: seq<string> := ["QUANTIDADE UNIDADES", "QUANTIDADE MG", "QUANTIDADE ML", "QUANTIDADE UI"]

  const Saidas: seq<string> := Quantias + ["UNIDADES_RULE"]

  function EhSaida(c: string): bool { c in Saidas }

  /** The output columns kept: the rule only when debugging. */
  function SaidasMantidas(debug: bool): (r: seq<string>)
    ensures NoDup(r) && forall c :: c in r ==> EhSaida(c)
  {
    if debug then Saidas else Quantias
  }

  /** A float cell: the value, or missing. */
  function Celula(x: Option<real>): Value {
    match x
    case Some(v) => Num(v)
    case None => Null
  }

  /** The output cells of one row. */
  function Celulas(q: Quantidades, debug: bool): (r: Row)
    ensures r.Keys == ColSet(SaidasMantidas(debug))
    ensures LinhaLida(r, q)
  {
    var base := map["QUANTIDADE UNIDADES" := Num(q.unidades as real), "QUANTIDADE MG" := Celula(q.mg),
                    "QUANTIDADE ML" := Celula(q.ml), "QUANTIDADE UI" := Celula(q.ui)];
    if debug then base["UNIDADES_RULE" := match q.regra case Some(g) => Str(NomeRegra(g)) case None => Null]
    else
      assert ColSet(Quantias) == {"QUANTIDADE UNIDADES", "QUANTIDADE MG", "QUANTIDADE ML", "QUANTIDADE UI"};
      base
  }

  /** The text read from a cell: `fillna('')` then `str()`. */
  function Entrada(v: Value, repr: Value -> string): string {
    if v == Null then "" else Texto(v, repr)
  }

  /** A row with its output cells appended: the other cells are kept and
      the output cells hold what `ler` reads from the cell in `col`. */
  function Linha(r: Row, col: string, debug: bool, ler: Value -> Quantidades): (l: Row)
    ensures forall c :: c in r && !EhSaida(c) ==> c in l && l[c] == r[c]
    ensures LinhaLida(l, ler(Get(r, col)))
  {
    r + Celulas(ler(Get(r, col)), debug)
  }

  /** The row's output cells hold the quantities `q`. */
  predicate LinhaLida(l: Row, q: Quantidades) {
    "QUANTIDADE UNIDADES" in l && l["QUANTIDADE UNIDADES"] == Num(q.unidades as real) &&
    "QUANTIDADE MG" in l && l["QUANTIDADE MG"] == Celula(q.mg) &&
    "QUANTIDADE ML" in l && l["QUANTIDADE ML"] == Celula(q.ml) &&
    "QUANTIDADE UI" in l && l["QUANTIDADE UI"] == Celula(q.ui)
  }

  /** Two duplicate-free sequences with nothing in common concatenate
      without duplicates. */
  lemma NoDupJunta(a: seq<string>, b: seq<string>)
    requires NoDup(a) && NoDup(b) && forall c :: c in b ==> c !in a
    ensures NoDup(a + b)
  {
    var ab := a + b;
    forall i, j | 0 <= i < j < |ab| ensures ab[i] != ab[j] {
      if j >= |a| {
        assert ab[j] == b[j - |a|] && ab[j] in b;
        if i >= |a| {
          assert ab[i] == b[i - |a|];
        } else {
          assert ab[i] == a[i] && ab[i] in a;
        }
      }
    }
  }

  /** The frame without output columns, extended by the output columns,
      is well formed. */
  lemma LinhasBemFormadas(d: Table, col: string, debug: bool, ler: Value -> Quantidades)
    requires WellFormed(d) && forall c :: c in d.cols ==> !EhSaida(c)
    ensures WellFormed(Anexada(d, col, debug, ler))
  {
    var outs := SaidasMantidas(debug);
    NoDupJunta(d.cols, outs);
    assert ColSet(d.cols + outs) == ColSet(d.cols) + ColSet(outs);
  }

  /** The output columns appended to a frame that has none. */
  function Anexada(d: Table, col: string, debug: bool, ler: Value -> Quantidades): Table {
    Table(d.cols + SaidasMantidas(debug), seq(|d.rows|, i requires 0 <= i < |d.rows| => Linha(d.rows[i], col, debug, ler)))
  }

  /** Drops the output columns, then appends to every row the quantities
      `ler` reads from its cell in `col`. */
  function Anexar(t: Table, col: string, debug: bool, ler: Value -> Quantidades): (r: Result<Table>)
    requires WellFormed(t)
    ensures r.Err? <==> col !in t.cols || EhSaida(col) || |t.rows| == 0
    ensures r.Ok? ==> WellFormed(r.value) && |r.value.rows| == |t.rows|
    ensures r.Ok? ==> r.value.cols == Filter(t.cols, Not(EhSaida)) + SaidasMantidas(debug)
    ensures r.Ok? ==> forall i, c :: 0 <= i < |t.rows| && c in t.cols && !EhSaida(c) ==> r.value.rows[i][c] == t.rows[i][c]
    ensures r.Ok? ==> forall i :: 0 <= i < |t.rows| ==> LinhaLida(r.value.rows[i], ler(t.rows[i][col]))
  {
    var d := DropCols(t, EhSaida);
    if col !in d.cols then Err(KeyError(col))
    else if |d.rows| == 0 then Err(KeyError("QUANTIDADE UNIDADES"))
    else
      LinhasBemFormadas(d, col, debug, ler);
      Ok(Anexada(d, col, debug, ler))
  }

  /** `extrair_quantidades_medicamentos(df, col, debug)`: the quantities of
      every row's presentation, read as `str()` of the cell with missing
      cells read as "". */
  function ExtrairQuantidades(t: Table, col: string, debug: bool, repr: Value -> string): (r: Result<Table>)
    requires WellFormed(t)
    ensures r.Err? <==> col !in t.cols || EhSaida(col) || |t.rows| == 0
    ensures r.Ok? ==> WellFormed(r.value) && |r.value.rows| == |t.rows|
    ensures r.Ok? ==> r.value.cols == Filter(t.cols, Not(EhSaida)) + SaidasMantidas(debug)
    ensures r.Ok? ==> forall i :: 0 <= i < |t.rows| ==> LinhaLida(r.value.rows[i], Extrair(Entrada(t.rows[i][col], repr)))
  {
    Anexar(t, col, debug, (v: Value) => Extrair(Entrada(v, repr)))
  }

  /** Running the extraction on its own output gives the same frame: the
      output columns are dropped and recomputed from the unchanged text
      column. */
  lemma AnexarIdempotente(t: Table, col: string, debug: bool, ler: Value -> Quantidades)
    requires WellFormed(t) && Anexar(t, col, debug, ler).Ok?
    ensures Anexar(Anexar(t, col, debug, ler).value, col, debug, ler) == Anexar(t, col, debug, ler)
  {
    var d := DropCols(t, EhSaida);
    LinhasBemFormadas(d, col, debug, ler);
    DropAnexada(d, col, debug, ler);
  }

  /** Dropping the output columns of an extended frame gives the frame
      back. */
  lemma DropAnexada(d: Table, col: string, debug: bool, ler: Value -> Quantidades)
    requires WellFormed(d) && forall c :: c in d.cols ==> !EhSaida(c)
    ensures WellFormed(Anexada(d, col, debug, ler))
    ensures DropCols(Anexada(d, col, debug, ler), EhSaida) == d
  {
    LinhasBemFormadas(d, col, debug, ler);
    var a := Anexada(d, col, debug, ler);
    var d2 := DropCols(a, EhSaida);
    ColsAnexada(d.cols, debug);
    forall i | 0 <= i < |d.rows| ensures d2.rows[i] == d.rows[i] {
      assert d.rows[i].Keys == ColSet(d.cols);
      RestrictLinha(d.rows[i], col, debug, ler);
    }
  }

  lemma ColsAnexada(cols: seq<string>, debug: bool)
    requires forall c :: c in cols ==> !EhSaida(c)
    ensures Filter(cols + SaidasMantidas(debug), Not(EhSaida)) == cols
  {
    var outs := SaidasMantidas(debug);
    FilterAppend(cols, outs, Not(EhSaida));
    FilterAll(cols, Not(EhSaida));
    FilterNone(outs, Not(EhSaida));
  }

  lemma RestrictLinha(r: Row, col: string, debug: bool, ler: Value -> Quantidades)
    requires forall c :: c in r ==> !EhSaida(c)
    ensures Restrict(Linha(r, col, debug, ler), Not(EhSaida)) == r
  {
    var l := Linha(r, col, debug, ler);
    assert l.Keys == r.Keys + ColSet(SaidasMantidas(debug));
  }

  lemma ExtrairQuantidadesIdempotente(t: Table, col: string, debug: bool, repr: Value -> string)
    requires WellFormed(t) && ExtrairQuantidades(t, col, debug, repr).Ok?
    ensures ExtrairQuantidades(ExtrairQuantidades(t, col, debug, repr).value, col, debug, repr) == ExtrairQuantidades(t, col, debug, repr)
  {
    AnexarIdempotente(t, col, debug, (v: Value) => Extrair(Entrada(v, repr)));
  }

  // ---------------------------------------------------------------------------
  // Properties of the quantities
  // ---------------------------------------------------------------------------

  function NaoDigito(c: char): bool { !IsDigit(c) }

  /** Upper-casing, the thousands separators and the decimal comma never
      bring in a digit. */
  lemma PrepararSemDigitos(s: string)
    requires AllChars(s, NaoDigito)
    ensures AllChars(PrepararTexto(s), NaoDigito)
  {
    var u := Upper(s);
    assert AllChars(u, NaoDigito);
    DeleteKeeps(u, Milhar(), NaoDigito);
  }

  /** A pattern that matches at no position finds nothing. */
  lemma SemDigitoSemCasa<T>(s: string, at: Achador<T>)
    requires forall k: nat :: k < |s| ==> at(s, k).None?
    ensures !Ocorre(s, at) && Todos(s, 0, at) == []
  {
    TodosVazio(s, at);
  }

  /** A term holds a digit. */
  lemma TermoTemDigito(s: string, j: nat)
    requires Termo(s, j).Some?
    ensures exists b :: j <= b < Termo(s, j).value && b < |s| && IsDigit(s[b])
  {
    var a := if j < |s| && s[j] == '(' then j + 1 else j;
    var b := a + SpaceRun(s, a);
    assert IsDigit(s[b]);
  }

  /** A non-empty run of terms holds a digit. */
  lemma TermosTemDigito(s: string, j: nat)
    requires j <= |s| && Termos(s, j) > j
    ensures exists b :: j <= b < Termos(s, j) && IsDigit(s[b])
  {
    TermoTemDigito(s, j);
  }

  /** The numbers of a dosage are the text from where it starts up to the
      terms' end or beyond. */
  lemma DoseForma(s: string, i: nat)
    requires DoseEm(s, i).Some?
    ensures i < Termos(s, i) <= i + |DoseEm(s, i).value.valor.valores| <= |s|
    ensures DoseEm(s, i).value.valor.valores == s[i..i + |DoseEm(s, i).value.valor.valores|]
  {
    var e := Termos(s, i);
    var p := if e < |s| && s[e] == ')' then e + 1 else e;
    assert DoseEm(s, i).value.valor.valores == s[i..p];
  }

  /** A dosage starts with a term, and every term holds a digit. */
  lemma DoseTemDigito(s: string, i: nat)
    requires DoseEm(s, i).Some?
    ensures HasDigit(DoseEm(s, i).value.valor.valores)
  {
    var v := DoseEm(s, i).value.valor.valores;
    DoseForma(s, i);
    TermosTemDigito(s, i);
    var b :| i <= b < Termos(s, i) && IsDigit(s[b]);
    assert v[b - i] == s[b];
  }

  /** Every dosage match holds at least one number. */
  lemma DoseTemNumero(s: string, i: nat)
    requires DoseEm(s, i).Some?
    ensures Numeros(DoseEm(s, i).value.valor.valores) != []
  {
    var v := DoseEm(s, i).value.valor.valores;
    DoseTemDigito(s, i);
    var j :| 0 <= j < |v| && IsDigit(v[j]);
    NumerosComDigito(v, j);
  }

  /** A text with a digit holds a number. */
  lemma NumerosComDigito(v: string, j: nat)
    requires j < |v| && IsDigit(v[j])
    ensures Numeros(v) != []
  {
    assert Casa(v, j, Numero());
    TodosVazio(v, Numero());
  }

  /** QUANTIDADE MG before the BISNAGA rule is missing exactly when no
      dosage matches. */
  lemma SomaMgAusente(s: string)
    ensures SomaMg(s).None? <==> !Ocorre(s, Doses())
  {
    var ds := Todos(s, 0, Doses());
    TodosVazio(s, Doses());
    if ds != [] {
      assert Casa(s, ds[0].inicio, Doses()) && Doses()(s, ds[0].inicio).value == ds[0].achado;
      DoseTemNumero(s, ds[0].inicio);
      assert |Miligramas(ds)| >= |Numeros(ds[0].achado.valor.valores)|;
    }
  }

  /** No digit run starts in a text without digits. */
  lemma SemDigitoNaoCorre(s: string, k: nat)
    requires AllChars(s, NaoDigito)
    ensures CharRun(s, k, IsDigit) == 0
  {
    if k < |s| {
      assert NaoDigito(s[k]);
    }
  }

  /** With no digit, no dosage, grams, volume or international units are
      read. */
  lemma MedidasSemDigito(s: string)
    requires AllChars(s, NaoDigito)
    ensures QuantidadeMg(s).None? && QuantidadeMl(s).None? && QuantidadeUi(s).None?
  {
    forall k: nat | k < |s| ensures DoseEm(s, k).None? && NumeroEm(s, k, {'.'}).None? && NumeroEm(s, k, {'.', ','}).None? && UiEm(s, k).None? {
      SemDigitoNaoCorre(s, k);
      var a := if k < |s| && s[k] == '(' then k + 1 else k;
      SemDigitoNaoCorre(s, a + SpaceRun(s, a));
    }
    SemDigitoSemCasa(s, Doses());
    SemDigitoSemCasa(s, Gramas());
    SemDigitoSemCasa(s, Mililitros());
    SemDigitoSemCasa(s, Uis());
  }

  /** With no digit, no numeric rule applies: one item, by the fallback
      rule or by default. */
  lemma UnidadesSemDigito(u: string)
    requires AllChars(u, NaoDigito)
    ensures ContarUnidades(u).unidades == 1
    ensures ContarUnidades(u).regra.None? || ContarUnidades(u).regra == Some(FallbackRegra)
  {
    forall k: nat | k < |u| ensures CxNumItemEm(u, k).None? && NumItemEm(u, k).None? && CxSimplesEm(u, k).None? && XGenericoEm(u, k).None? {
      SemDigitoNaoCorre(u, k);
      SemDigitoNaoCorre(u, k + 1 + SpaceRun(u, k + 1));
      SemDigitoNaoCorre(u, k + 2 + SpaceRun(u, k + 2));
    }
    SemDigitoSemCasa(u, CxNumItem());
    SemDigitoSemCasa(u, NumItem());
    SemDigitoSemCasa(u, CxSimples());
    SemDigitoSemCasa(u, XGenerico());
  }

  /** A presentation without digits yields no dosage, volume or
      international units, and one item. */
  lemma SemDigitos(apresentacao: string)
    requires AllChars(apresentacao, NaoDigito)
    ensures Extrair(apresentacao).mg.None? && Extrair(apresentacao).ml.None? && Extrair(apresentacao).ui.None?
    ensures Extrair(apresentacao).unidades == 1
    ensures Extrair(apresentacao).regra.None? || Extrair(apresentacao).regra == Some(FallbackRegra)
  {
    var s := PrepararTexto(apresentacao);
    PrepararSemDigitos(apresentacao);
    MedidasSemDigito(s);
    DeleteKeeps(s, XMedida(), NaoDigito);
    UnidadesSemDigito(Sanitizar(s));
  }

  /** QUANTIDADE MG is missing exactly when no dosage matches and the
      BISNAGA rule does not apply. */
  lemma MgAusente(s: string)
    ensures QuantidadeMg(s).None? <==> !Ocorre(s, Doses()) && !(EhBisnaga(s) && Ocorre(s, Gramas()))
  {
    TodosVazio(s, Gramas());
    SomaMgAusente(s);
  }

  /** For a tube, QUANTIDADE MG comes from the rightmost "<n> G": no such
      match starts after the one used. */
  lemma BisnagaUltimo(s: string) returns (k: nat, gramas: real)
    requires EhBisnaga(s) && Ocorre(s, Gramas())
    ensures k < |s| && UltimaCasa(s, k, Gramas()) && gramas == Gramas()(s, k).value.valor
    ensures QuantidadeMg(s) == Some(gramas * 1000.0)
  {
    k := UltimoValor(s, Gramas());
    gramas := Gramas()(s, k).value.valor;
    var g := Valores(Todos(s, 0, Gramas()));
    MgOuTuboUltimo(QuantidadeMg(s), g, gramas, SomaMg(s));
  }

  lemma MgOuTuboUltimo(q: Option<real>, g: seq<real>, x: real, soma: Option<real>)
    requires g != [] && g[|g| - 1] == x && q == MgOuTubo(true, g, soma)
    ensures q == Some(x * 1000.0)
  {
  }

  /** The sanitiser only removes text after an "X": a text without one is
      left as it is. */
  lemma SanitizarSemX(s: string)
    requires 'X' !in s
    ensures Sanitizar(s) == s
  {
    forall j | 0 <= j < |s| ensures !MatchesAt(s, j, XMedida()) {
      assert s[j] != 'X';
    }
    SubNoMatch(s, XMedida(), Nothing);
  }
}
