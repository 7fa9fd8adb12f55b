/** The price-validity table built from the monthly regulator price lists
    (`process_vigencias` in `aa.py`): one row per interval during which a
    product's prices stayed the same, with its start, its end and a price id
    made of the product id and the start date. */
module Vigencias {
  import opened Wrappers
  import opened Text
  import opened Seqs
  import opened Dates
  import opened Ordem
  import opened Ordenacao

  // ---------------------------------------------------------------------------
  // First price pass (aa.py:256-259)
  // ---------------------------------------------------------------------------

  predicate Separador(c: char) { c == ',' || c == '.' }

  /** The lookahead `(?=.*\.)`: a '.' further on, before any line break
      (the regex `.` does not match a newline). */
  predicate PontoAdiante(s: string) {
    |s| > 0 && s[0] != '\n' && (s[0] == '.' || PontoAdiante(s[1..]))
  }

  /** `re.sub(r'\.(?=.*\.)', '', s)`. */
  function ApagarPontos(s: string): string {
    if |s| == 0 then ""
    else (if s[0] == '.' && PontoAdiante(s[1..]) then "" else [s[0]]) + ApagarPontos(s[1..])
  }

  /** The text of a price column before `pd.to_numeric`: every ',' becomes
      '.', then every '.' with another '.' after it is deleted. */
  function PrimeiraPassagem(s: string): string {
    ApagarPontos(ReplaceChar(s, ',', '.'))
  }

  /** The text without its separators: the reference the passes are stated
      against. */
  function SemSeparadores(u: string): (r: string)
    ensures forall i :: 0 <= i < |r| ==> !Separador(r[i])
  {
    if |u| == 0 then "" else (if Separador(u[0]) then "" else [u[0]]) + SemSeparadores(u[1..])
  }

  lemma {:induction false} PontoAdianteSe(s: string)
    requires '\n' !in s
    ensures PontoAdiante(s) <==> '.' in s
  {
    if |s| > 0 {
      PontoAdianteSe(s[1..]);
      assert s == [s[0]] + s[1..];
    }
  }

  lemma {:induction false} ApagarSemPonto(s: string)
    requires '.' !in s
    ensures ApagarPontos(s) == s
  {
    if |s| > 0 {
      assert s == [s[0]] + s[1..];
      ApagarSemPonto(s[1..]);
    }
  }

  /** Only the last '.' of a line survives. */
  lemma {:induction false} ApagarUltimo(s: string, k: nat)
    requires k < |s| && s[k] == '.' && '.' !in s[k + 1..] && '\n' !in s
    ensures ApagarPontos(s) == RemoveChar(s[..k], '.') + s[k..]
  {
    var t := s[1..];
    assert '\n' !in t by {
      forall j | 0 <= j < |t| ensures t[j] != '\n' { assert t[j] == s[j + 1]; }
    }
    if k == 0 {
      assert t == s[k + 1..];
      PontoAdianteSe(t);
      ApagarSemPonto(t);
      assert s == [s[0]] + t;
    } else {
      assert t[k - 1] == '.';
      assert '.' !in t[k..] by { assert t[k..] == s[k + 1..]; }
      ApagarUltimo(t, k - 1);
      PontoAdianteSe(t);
      ApagarUltimoPasso(s, k);
    }
  }

  /** The inductive step of `ApagarUltimo`: a '.' further on deletes the
      head if it is a '.'. */
  lemma ApagarUltimoPasso(s: string, k: nat)
    requires 0 < k < |s| && PontoAdiante(s[1..])
    requires ApagarPontos(s[1..]) == RemoveChar(s[1..][..k - 1], '.') + s[1..][k - 1..]
    ensures ApagarPontos(s) == RemoveChar(s[..k], '.') + s[k..]
  {
    var h: string := if s[0] == '.' then "" else [s[0]];
    ApagarCabeca(s);
    RemoveCharCabeca(s, k);
    assert s[1..][..k - 1] == s[1..k] && s[1..][k - 1..] == s[k..];
    Associa(h, RemoveChar(s[1..k], '.'), s[k..]);
  }

  lemma ApagarCabeca(s: string)
    requires |s| > 0 && PontoAdiante(s[1..])
    ensures ApagarPontos(s) == (if s[0] == '.' then "" else [s[0]]) + ApagarPontos(s[1..])
  {
  }

  lemma RemoveCharCabeca(s: string, k: nat)
    requires 0 < k <= |s|
    ensures RemoveChar(s[..k], '.') == (if s[0] == '.' then "" else [s[0]]) + RemoveChar(s[1..k], '.')
  {
    assert s[..k][0] == s[0] && s[..k][1..] == s[1..k];
  }

  lemma {:induction false} SemSeparadoresSemVirgula(u: string)
    requires ',' !in u
    ensures SemSeparadores(u) == RemoveChar(u, '.')
  {
    if |u| > 0 {
      assert u == [u[0]] + u[1..];
      SemSeparadoresSemVirgula(u[1..]);
    }
  }

  lemma {:induction false} SemSeparadoresSemPonto(u: string)
    requires '.' !in u
    ensures SemSeparadores(u) == RemoveChar(u, ',')
  {
    if |u| > 0 {
      assert u == [u[0]] + u[1..];
      SemSeparadoresSemPonto(u[1..]);
    }
  }

  lemma {:induction false} SemSeparadoresNenhum(u: string)
    requires forall j :: 0 <= j < |u| ==> !Separador(u[j])
    ensures SemSeparadores(u) == u
  {
    if |u| > 0 {
      SemSeparadoresNenhum(u[1..]);
    }
  }

  /** The first pass makes the last separator of the text its only decimal
      point and deletes every separator before it (on a one-line text). */
  lemma PrimeiraPassagemUltimoSeparador(s: string, k: nat)
    requires k < |s| && Separador(s[k]) && '\n' !in s
    requires forall j :: k < j < |s| ==> !Separador(s[j])
    ensures PrimeiraPassagem(s) == SemSeparadores(s[..k]) + "." + s[k + 1..]
  {
    var t := ReplaceChar(s, ',', '.');
    TrocaFatias(s, k);
    ApagarUltimo(t, k);
    SemSeparadoresTroca(s[..k]);
    Associa(SemSeparadores(s[..k]), ".", s[k + 1..]);
  }

  /** The pieces of the text after every ',' became '.'. */
  lemma TrocaFatias(s: string, k: nat)
    requires k < |s| && Separador(s[k]) && '\n' !in s
    requires forall j :: k < j < |s| ==> !Separador(s[j])
    ensures var t := ReplaceChar(s, ',', '.');
      t[k] == '.' && '.' !in t[k + 1..] && '\n' !in t
      && t[..k] == ReplaceChar(s[..k], ',', '.') && t[k..] == "." + s[k + 1..]
  {
    var t := ReplaceChar(s, ',', '.');
    assert t[k + 1..] == s[k + 1..];
    assert '\n' !in t by {
      forall j | 0 <= j < |t| ensures t[j] != '\n' { assert s[j] != '\n'; }
    }
  }

  lemma {:induction false} SemSeparadoresTroca(u: string)
    ensures SemSeparadores(u) == RemoveChar(ReplaceChar(u, ',', '.'), '.')
  {
    var t := ReplaceChar(u, ',', '.');
    if |u| > 0 {
      SemSeparadoresTroca(u[1..]);
      assert t[1..] == ReplaceChar(u[1..], ',', '.');
    }
  }

  /** A text without separators goes through the first pass unchanged. */
  lemma PrimeiraPassagemSemSeparador(s: string)
    requires forall j :: 0 <= j < |s| ==> !Separador(s[j])
    ensures PrimeiraPassagem(s) == s
  {
    assert ReplaceChar(s, ',', '.') == s;
    ApagarSemPonto(s);
  }

  // ---------------------------------------------------------------------------
  // `parse_num_seguro` (aa.py:289-295)
  // ---------------------------------------------------------------------------

  predicate Numerico(c: char) { IsDigit(c) || c == ',' || c == '.' || c == '-' }

  /** `re.sub(r"[^\d,.\-]", "", s)`. */
  function SoNumericos(s: string): (r: string)
    ensures forall i :: 0 <= i < |r| ==> Numerico(r[i])
    ensures (forall i :: 0 <= i < |s| ==> Numerico(s[i])) ==> r == s
  {
    if |s| == 0 then "" else (if Numerico(s[0]) then [s[0]] else "") + SoNumericos(s[1..])
  }

  /** `str.rfind(c)`: the last position of `c`, or -1. */
  function Rfind(s: string, c: char): (r: int)
    ensures -1 <= r < |s|
    ensures r >= 0 ==> s[r] == c && c !in s[r + 1..]
    ensures r == -1 <==> c !in s
  {
    if |s| == 0 then -1
    else if s[|s| - 1] == c then |s| - 1
    else
      assert s == s[..|s| - 1] + [s[|s| - 1]];
      Rfind(s[..|s| - 1], c)
  }

  lemma RemoveCharDe(s: string, c: char)
    ensures forall x :: x in RemoveChar(s, c) ==> x in s
  {
  }

  /** The text `parse_num_seguro` hands to `float`: the later of the two
      separators is the decimal mark, the other one is deleted, and a lone
      ',' is the decimal mark. */
  function NormalizarNumero(s: string): (r: string)
    ensures ',' !in r
    ensures forall i :: 0 <= i < |r| ==> Numerico(r[i])
  {
    var t := SoNumericos(s);
    RemoveCharDe(t, '.');
    RemoveCharDe(t, ',');
    var u := RemoveChar(t, '.');
    var w := RemoveChar(t, ',');
    assert forall i :: 0 <= i < |u| ==> u[i] in u;
    assert forall i :: 0 <= i < |w| ==> w[i] in w;
    if ',' in t && '.' in t then
      (if Rfind(t, ',') > Rfind(t, '.') then ReplaceChar(RemoveChar(t, '.'), ',', '.') else RemoveChar(t, ','))
    else if ',' in t then ReplaceChar(t, ',', '.')
    else t
  }

  /** `parse_num_seguro`: a missing value stays missing; otherwise `float`
      (the parameter `float`, which gives `None` where Python raises) reads
      the normalised text. */
  function ParseNumSeguro(x: Option<string>, float: string -> Option<real>): (r: Option<real>)
    ensures x.None? ==> r.None?
    ensures x.Some? ==> r == float(NormalizarNumero(x.value))
  {
    if x.None? then None else float(NormalizarNumero(x.value))
  }

  /** A text that already holds only digits, '.', and '-' is read as it is;
      hence normalising is idempotent. */
  lemma NormalizarNumeroFixo(s: string)
    requires forall i :: 0 <= i < |s| ==> Numerico(s[i])
    requires ',' !in s
    ensures NormalizarNumero(s) == s
    ensures NormalizarNumero(NormalizarNumero(s)) == NormalizarNumero(s)
  {
  }


  /** The decimal mark: when the last separator of a (filtered) text occurs
      only once, the result is the text before it without separators, a '.',
      and the digits after it. */
  lemma MarcaDecimal(s: string, k: nat)
    requires forall i :: 0 <= i < |s| ==> Numerico(s[i])
    requires k < |s| && Separador(s[k]) && s[k] !in s[..k]
    requires forall j :: k < j < |s| ==> !Separador(s[j])
    ensures NormalizarNumero(s) == SemSeparadores(s[..k]) + "." + s[k + 1..]
  {
    if s[k] == '.' {
      MarcaPonto(s, k);
    } else {
      MarcaVirgula(s, k);
    }
  }

  /** The cases of `NormalizarNumero` on a text that is already filtered. */
  lemma NormalizarFiltrado(s: string)
    requires forall i :: 0 <= i < |s| ==> Numerico(s[i])
    ensures ',' in s && '.' in s && Rfind(s, ',') > Rfind(s, '.') ==> NormalizarNumero(s) == ReplaceChar(RemoveChar(s, '.'), ',', '.')
    ensures ',' in s && '.' in s && Rfind(s, ',') <= Rfind(s, '.') ==> NormalizarNumero(s) == RemoveChar(s, ',')
    ensures ',' in s && '.' !in s ==> NormalizarNumero(s) == ReplaceChar(s, ',', '.')
    ensures ',' !in s ==> NormalizarNumero(s) == s
  {
    assert SoNumericos(s) == s;
  }

  lemma MarcaPonto(s: string, k: nat)
    requires forall i :: 0 <= i < |s| ==> Numerico(s[i])
    requires k < |s| && s[k] == '.' && '.' !in s[..k]
    requires forall j :: k < j < |s| ==> !Separador(s[j])
    ensures NormalizarNumero(s) == SemSeparadores(s[..k]) + "." + s[k + 1..]
  {
    var pre, post := s[..k], s[k + 1..];
    assert s == pre + "." + post;
    assert ',' !in post;
    SemSeparadoresSemPonto(pre);
    NormalizarFiltrado(s);
    if ',' in s {
      UltimoSeparador(s, k, ',');
      PontoComVirgula(pre, post);
    } else {
      PontoSemVirgula(pre, post);
    }
  }

  lemma PontoComVirgula(pre: string, post: string)
    requires ',' !in post
    ensures RemoveChar(pre + "." + post, ',') == RemoveChar(pre, ',') + "." + post
  {
    calc {
      RemoveChar(pre + "." + post, ',');
      { RemoveCharAppend(pre + ".", post, ','); }
      RemoveChar(pre + ".", ',') + RemoveChar(post, ',');
      { RemoveCharAppend(pre, ".", ','); assert RemoveChar(".", ',') == "."; }
      RemoveChar(pre, ',') + "." + RemoveChar(post, ',');
      { assert RemoveChar(post, ',') == post; }
      RemoveChar(pre, ',') + "." + post;
    }
  }

  lemma PontoSemVirgula(pre: string, post: string)
    requires ',' !in pre + "." + post
    ensures pre + "." + post == RemoveChar(pre, ',') + "." + post
  {
    assert ',' !in pre by {
      forall i | 0 <= i < |pre| ensures pre[i] != ',' { assert pre[i] == (pre + "." + post)[i]; }
    }
  }

  lemma MarcaVirgula(s: string, k: nat)
    requires forall i :: 0 <= i < |s| ==> Numerico(s[i])
    requires k < |s| && s[k] == ',' && ',' !in s[..k]
    requires forall j :: k < j < |s| ==> !Separador(s[j])
    ensures NormalizarNumero(s) == SemSeparadores(s[..k]) + "." + s[k + 1..]
  {
    var pre, post := s[..k], s[k + 1..];
    assert s == pre + "," + post;
    assert ',' !in post && '.' !in post;
    SemSeparadoresSemVirgula(pre);
    NormalizarFiltrado(s);
    if '.' in s {
      UltimoSeparador(s, k, '.');
      VirgulaComPonto(pre, post);
    } else {
      VirgulaSemPonto(pre, post);
    }
  }

  /** A separator that occurs before the last one is found earlier. */
  lemma UltimoSeparador(s: string, k: nat, c: char)
    requires k < |s| && Separador(s[k]) && Separador(c) && c in s
    requires forall j :: k < j < |s| ==> !Separador(s[j])
    ensures Rfind(s, s[k]) == k && Rfind(s, c) <= k
  {
    assert s[k] !in s[k + 1..];
  }

  lemma VirgulaSemPonto(pre: string, post: string)
    requires ',' !in pre && '.' !in pre && ',' !in post
    ensures ReplaceChar(pre + "," + post, ',', '.') == RemoveChar(pre, '.') + "." + post
  {
    assert RemoveChar(pre, '.') == pre;
  }

  lemma VirgulaComPonto(pre: string, post: string)
    requires ',' !in pre && ',' !in post && '.' !in post
    ensures ReplaceChar(RemoveChar(pre + "," + post, '.'), ',', '.') == RemoveChar(pre, '.') + "." + post
  {
    var u := RemoveChar(pre, '.');
    calc {
      RemoveChar(pre + "," + post, '.');
      { RemoveCharAppend(pre + ",", post, '.'); }
      RemoveChar(pre + ",", '.') + RemoveChar(post, '.');
      { RemoveCharAppend(pre, ",", '.'); assert RemoveChar(",", '.') == ","; }
      u + "," + RemoveChar(post, '.');
      { assert RemoveChar(post, '.') == post; }
      u + "," + post;
    }
    RemoveCharDe(pre, '.');
    assert ',' !in u;
    VirgulaSemPonto(u, post);
    assert RemoveChar(u, '.') == u;
  }

  // ---------------------------------------------------------------------------
  // Ids (aa.py:253, 284)
  // ---------------------------------------------------------------------------

  /** `astype(str)`: a missing cell reads "nan". */
  function Texto(c: Option<string>): string { if c.None? then "nan" else c.value }

  /** `id_produto`: the trimmed registration and GGREM code joined by '-'. */
  function IdProduto(registro: Option<string>, ggrem: Option<string>): string {
    Strip(Texto(registro)) + "-" + Strip(Texto(ggrem))
  }

  /** Joining two texts with a separator the first never holds loses
      nothing. */
  lemma JuntarInjetivo(a: string, b: string, c: string, d: string, sep: char)
    requires sep !in a && sep !in c && a + [sep] + b == c + [sep] + d
    ensures a == c && b == d
  {
    var x := a + [sep] + b;
    assert x[|a|] == sep && x[|c|] == sep;
    assert forall i :: 0 <= i < |a| ==> x[i] == a[i];
    assert forall i :: 0 <= i < |c| ==> x[i] == c[i];
    assert |a| == |c|;
    assert a == x[..|a|] && c == x[..|c|];
    assert b == x[|a| + 1..] && d == x[|c| + 1..];
  }

  /** Two rows with the same product id have the same trimmed registration
      and GGREM code, as long as registrations hold no '-'. */
  lemma IdProdutoInjetivo(r1: Option<string>, g1: Option<string>, r2: Option<string>, g2: Option<string>)
    requires '-' !in Strip(Texto(r1)) && '-' !in Strip(Texto(r2))
    requires IdProduto(r1, g1) == IdProduto(r2, g2)
    ensures Strip(Texto(r1)) == Strip(Texto(r2)) && Strip(Texto(g1)) == Strip(Texto(g2))
  {
    JuntarInjetivo(Strip(Texto(r1)), Strip(Texto(g1)), Strip(Texto(r2)), Strip(Texto(g2)), '-');
  }

  /** `id_preco`: the product id, '_', and the start as `YYYYMMDD`. */
  function IdPreco(idProduto: string, inicio: Date): string
    requires Valid(inicio) && FourDigitYear(inicio)
  {
    idProduto + "_" + Yyyymmdd(inicio)
  }

  /** The price id gives back its product id and its start date, so two
      intervals share a price id only when they share both. */
  lemma IdPrecoInjetivo(a: string, d: Date, b: string, e: Date)
    requires Valid(d) && FourDigitYear(d) && Valid(e) && FourDigitYear(e)
    requires IdPreco(a, d) == IdPreco(b, e)
    ensures a == b && d == e
  {
    var x := IdPreco(a, d);
    assert |x| == |a| + 9 && |x| == |b| + 9;
    assert a == x[..|a|] && b == x[..|b|];
    assert x[|a| + 1..] == Yyyymmdd(d) && x[|b| + 1..] == Yyyymmdd(e);
    YyyymmddRoundTrip(d);
    YyyymmddRoundTrip(e);
  }

  lemma UpperAppend(a: string, b: string)
    ensures Upper(a + b) == Upper(a) + Upper(b)
  {
  }

  /** Upper-casing a price id upper-cases its product id and leaves the
      date digits alone. */
  lemma UpperIdPreco(id: string, d: Date)
    requires Valid(d) && FourDigitYear(d)
    ensures Upper(IdPreco(id, d)) == IdPreco(Upper(id), d)
  {
    var y := Yyyymmdd(d);
    UpperAppend(id + "_", y);
    UpperAppend(id, "_");
    assert Upper(y) == y;
  }

  // ---------------------------------------------------------------------------
  // Dates (aa.py:254, 276-281)
  // ---------------------------------------------------------------------------

  /** Reference months a pandas timestamp can hold (1677-09-21 to
      2262-04-11). */
  predicate MesRepresentavel(ano: int, mes: int) {
    1 <= mes <= 12
    && (ano > 1677 || (ano == 1677 && mes >= 10))
    && (ano < 2262 || (ano == 2262 && mes <= 4))
  }

  /** `pd.to_datetime(f"{ANO_REF}-{MES_REF}-01")`, `None` where pandas
      raises. */
  function DataRef(ano: int, mes: int): (r: Option<Date>)
    ensures r.Some? <==> MesRepresentavel(ano, mes)
    ensures r.Some? ==> Valid(r.value) && FourDigitYear(r.value) && r.value == Date(ano, mes, 1)
  {
    if MesRepresentavel(ano, mes) then Some(Date(ano, mes, 1)) else None
  }

  /** `calcular_vig_fim_final`: the end of a product's last interval is 15
      April of the year of the first 1 April strictly after its start. */
  function FimPadrao(d: Date): (r: Date)
    requires Valid(d)
    ensures Valid(r) && Before(d, r) && r.month == 4 && r.day == 15
    ensures Before(d, Date(r.year, 4, 1)) && !Before(d, Date(r.year - 1, 4, 1))
  {
    Date(if d.month <= 3 then d.year else d.year + 1, 4, 15)
  }

  // ---------------------------------------------------------------------------
  // Rounding and the 20% back-fill (aa.py:300-303)
  // ---------------------------------------------------------------------------

  /** The whole number of cents `round(2)` gives: the nearest, halves to
      even. */
  function Centavos(x: real): (n: int)
    ensures -0.5 <= n as real - x * 100.0 <= 0.5
  {
    var y := x * 100.0;
    var f := y.Floor;
    var d := y - f as real;
    if d < 0.5 then f else if d > 0.5 then f + 1 else if f % 2 == 0 then f else f + 1
  }

  /** `Series.round(2)` on exact decimals. */
  function Arred2(x: real): (r: real)
    ensures -0.005 <= r - x <= 0.005
  {
    Centavos(x) as real / 100.0
  }

  /** Amounts already in whole cents are left alone, so rounding twice is
      rounding once. */
  lemma Arred2Fixo(n: int)
    ensures Arred2(n as real / 100.0) == n as real / 100.0
  {
    var x := n as real / 100.0;
    assert x * 100.0 == n as real;
    assert (x * 100.0).Floor == n;
  }

  lemma Arred2Idempotente(x: real)
    ensures Arred2(Arred2(x)) == Arred2(x)
  {
    Arred2Fixo(Centavos(x));
  }

  /** The 20% price after the back-fill: a missing one with a present 0%
      price becomes the 0% price times 1.25, to the cent; otherwise it is
      kept. The 0% price is never derived. */
  function Preencher(zero: Option<real>, vinte: Option<real>): (r: Option<real>)
    ensures r.Some? <==> vinte.Some? || zero.Some?
    ensures vinte.Some? ==> r == vinte
    ensures vinte.None? && zero.Some? ==> -0.005 <= r.value - zero.value * 1.25 <= 0.005
  {
    if vinte.None? && zero.Some? then Some(Arred2(zero.value * 1.25)) else vinte
  }

  // ---------------------------------------------------------------------------
  // Rows (aa.py:249-261)
  // ---------------------------------------------------------------------------

  /** A row of the consolidated monthly price lists: registration, GGREM
      code, reference month, the four price columns, `ICMS 0%` and `CAP` as
      text, the seven descriptive columns that are later standardised, and
      the three barcodes. A missing cell is `None`. */
  datatype Bruta = Bruta(
    registro: Option<string>, ggrem: Option<string>, ano: int, mes: int,
    pf0: Option<string>, pf20: Option<string>, pmvg0: Option<string>, pmvg20: Option<string>,
    icms: Option<string>, cap: Option<string>,
    atributos: seq<Option<string>>, eans: seq<Option<string>>)

  /** A row after the preparation step, with its product id, its
      reference date and numeric prices. */
  datatype Linha = Linha(
    idProduto: string, ref: Date,
    registro: Option<string>, ggrem: Option<string>,
    pf0: Option<real>, pf20: Option<real>, pmvg0: Option<real>, pmvg20: Option<real>,
    icms: Option<string>, cap: Option<string>,
    atributos: seq<Option<string>>, eans: seq<Option<string>>)

  /** A price column after the first pass and `pd.to_numeric(errors=
      'coerce')`, the parameter `numero` (`astype(str)` renders a missing
      cell as "nan", which `to_numeric` reads back as missing). */
  function Preco(c: Option<string>, numero: string -> Option<real>): Option<real> {
    if c.None? then None else numero(PrimeiraPassagem(c.value))
  }

  predicate Datada(l: Linha) { Valid(l.ref) && FourDigitYear(l.ref) }

  function Preparar(b: Bruta, numero: string -> Option<real>): (r: Option<Linha>)
    ensures r.Some? <==> MesRepresentavel(b.ano, b.mes)
    ensures r.Some? ==> Datada(r.value) && r.value.ref == Date(b.ano, b.mes, 1)
    ensures r.Some? ==> r.value.idProduto == IdProduto(b.registro, b.ggrem)
  {
    match DataRef(b.ano, b.mes)
    case None => None
    case Some(d) =>
      Some(Linha(IdProduto(b.registro, b.ggrem), d, b.registro, b.ggrem,
                 Preco(b.pf0, numero), Preco(b.pf20, numero), Preco(b.pmvg0, numero), Preco(b.pmvg20, numero),
                 b.icms, b.cap, b.atributos, b.eans))
  }

  /** The preparation of the whole frame: `pd.to_datetime` raises as soon as
      one reference month cannot be a timestamp. */
  function PrepararTodas(bs: seq<Bruta>, numero: string -> Option<real>): (r: Result<seq<Linha>>)
    ensures r.Err? <==> exists i :: 0 <= i < |bs| && !MesRepresentavel(bs[i].ano, bs[i].mes)
    ensures r.Err? ==> r.error.ValueError?
    ensures r.Ok? ==> |r.value| == |bs|
    ensures r.Ok? ==> forall i :: 0 <= i < |bs| ==> Preparar(bs[i], numero) == Some(r.value[i]) && Datada(r.value[i])
  {
    if |bs| == 0 then Ok([])
    else
      match Preparar(bs[0], numero)
      case None => Err(ValueError("reference month out of range"))
      case Some(l) =>
        match PrepararTodas(bs[1..], numero)
        case Err(e) =>
          assert forall i :: 1 <= i < |bs| ==> bs[1..][i - 1] == bs[i];
          Err(e)
        case Ok(ls) =>
          assert forall i :: 1 <= i < |bs| ==> bs[1..][i - 1] == bs[i];
          Ok([l] + ls)
  }

  /** Timestamps sort by day number. */
  function Dia(d: Date): int { if Valid(d) then DayNumber(d) else 0 }

  /** `sort_values(['id_produto', 'DATA_REF'])`. */
  function ChaveRef(l: Linha): Chave { Chave(l.idProduto, Dia(l.ref), 0) }

  // ---------------------------------------------------------------------------
  // Interval starts (aa.py:252, 264-268)
  // ---------------------------------------------------------------------------

  /** `ne` between two cells: a missing value never equals anything. */
  predicate Igual<T(==)>(a: Option<T>, b: Option<T>) { a.Some? && b.Some? && a.value == b.value }

  /** None of the six tracked columns (`PF 0%`, `PF 20%`, `PMVG 0%`,
      `PMVG 20%`, `ICMS 0%`, `CAP`) differs between the two rows. */
  predicate MesmosPrecos(x: Linha, y: Linha) {
    Igual(x.pf0, y.pf0) && Igual(x.pf20, y.pf20) && Igual(x.pmvg0, y.pmvg0) && Igual(x.pmvg20, y.pmvg20)
    && Igual(x.icms, y.icms) && Igual(x.cap, y.cap)
  }

  /** `inicio_vigencia`: row `i` opens an interval iff it is the first row,
      its product differs from the previous row's, or one of the tracked
      columns does. */
  predicate Inicio(ls: seq<Linha>, i: nat)
    requires i < |ls|
  {
    i == 0 || ls[i].idProduto != ls[i - 1].idProduto || !MesmosPrecos(ls[i], ls[i - 1])
  }

  /** `df[inicio_vigencia]` over the first `n` rows. */
  function Inicios(ls: seq<Linha>, n: nat): (r: seq<Linha>)
    requires n <= |ls|
    ensures |r| <= n
    ensures forall k :: 0 <= k < |r| ==> r[k] in ls[..n]
  {
    if n == 0 then []
    else
      var p := Inicios(ls, n - 1);
      var r := p + (if Inicio(ls, n - 1) then [ls[n - 1]] else []);
      assert forall k :: 0 <= k < |p| ==> r[k] == p[k];
      assert ls[..n - 1] <= ls[..n];
      r
  }

  /** Every start is kept. */
  lemma {:induction false} InicioMantido(ls: seq<Linha>, n: nat, j: nat)
    requires j < n <= |ls| && Inicio(ls, j)
    ensures ls[j] in Inicios(ls, n)
  {
    var p := Inicios(ls, n - 1);
    if j < n - 1 {
      InicioMantido(ls, n - 1, j);
      assert Inicios(ls, n)[..|p|] == p;
    } else {
      assert Inicios(ls, n) == p + [ls[n - 1]];
    }
  }

  lemma MesmosPrecosTransitivo(x: Linha, y: Linha, z: Linha)
    requires MesmosPrecos(x, y) && MesmosPrecos(y, z)
    ensures MesmosPrecos(x, z)
  {
  }

  /** Rows `s+1..i` belong to the product of row `s` and repeat its six
      tracked values. */
  predicate Repete(ls: seq<Linha>, s: nat, i: nat)
    requires s <= i < |ls|
  {
    forall j :: s < j <= i ==> ls[j].idProduto == ls[s].idProduto && MesmosPrecos(ls[j], ls[s])
  }

  /** Every row carries the tracked values of the start of its interval:
      the rows from that start up to it all belong to its product and
      repeat the start's six values. */
  lemma {:induction false} LinhaDoIntervalo(ls: seq<Linha>, i: nat)
    requires i < |ls|
    ensures exists s :: 0 <= s <= i && Inicio(ls, s) && Repete(ls, s, i)
  {
    if !Inicio(ls, i) {
      LinhaDoIntervalo(ls, i - 1);
      var s :| 0 <= s <= i - 1 && Inicio(ls, s) && Repete(ls, s, i - 1);
      forall j | s < j <= i ensures ls[j].idProduto == ls[s].idProduto && MesmosPrecos(ls[j], ls[s]) {
        if j == i && s < i - 1 {
          MesmosPrecosTransitivo(ls[i], ls[i - 1], ls[s]);
        }
      }
      assert Repete(ls, s, i);
    } else {
      assert Repete(ls, i, i);
    }
  }

  /** The starts of a sorted frame are sorted. */
  lemma {:induction false} IniciosOrdenados(ls: seq<Linha>, n: nat)
    requires n <= |ls| && OrdenadaPor(ls, ChaveRef)
    ensures OrdenadaPor(Inicios(ls, n), ChaveRef)
  {
    if n > 0 {
      var key: Linha -> Chave := ChaveRef;
      IniciosOrdenados(ls, n - 1);
      var p := Inicios(ls, n - 1);
      if Inicio(ls, n - 1) {
        assert Inicios(ls, n) == p + [ls[n - 1]];
        forall a | 0 <= a < |p| ensures !Menor(key(ls[n - 1]), key(p[a])) {
          assert p[a] in ls[..n - 1];
          var j :| 0 <= j < n - 1 && p[a] == ls[..n - 1][j];
          assert ls[j] == p[a];
        }
        AnexarOrdenada(p, ls[n - 1], key);
      } else {
        assert Inicios(ls, n) == p;
      }
    }
  }

  // ---------------------------------------------------------------------------
  // Intervals and their ends (aa.py:270-284)
  // ---------------------------------------------------------------------------

  /** A row of the validity table. */
  datatype Vigencia = Vigencia(
    idPreco: string, idProduto: string, inicio: Date, fim: Date,
    registro: Option<string>, ggrem: Option<string>,
    pf0: Option<real>, pf20: Option<real>, pmvg0: Option<real>, pmvg20: Option<real>,
    icms: Option<string>, cap: Option<string>,
    atributos: seq<Option<string>>, eans: seq<Option<string>>)

  predicate Datadas(vs: seq<Vigencia>) {
    forall i :: 0 <= i < |vs| ==> Valid(vs[i].inicio) && FourDigitYear(vs[i].inicio)
  }

  /** The price id is made of the row's product id and start. */
  predicate IdCoerente(v: Vigencia) {
    Valid(v.inicio) && FourDigitYear(v.inicio) && v.idPreco == IdPreco(v.idProduto, v.inicio)
  }

  /** The columns that identify an interval are the same in both rows. */
  predicate MesmaIdentidade(a: Vigencia, b: Vigencia) {
    a.idPreco == b.idPreco && a.idProduto == b.idProduto && a.inicio == b.inicio
  }

  lemma CoerenteSe(a: Vigencia, b: Vigencia)
    requires MesmaIdentidade(a, b) && IdCoerente(b)
    ensures IdCoerente(a)
  {
  }

  lemma MembroCoerente(vs: seq<Vigencia>, x: Vigencia)
    requires forall i :: 0 <= i < |vs| ==> IdCoerente(vs[i])
    requires x in vs
    ensures IdCoerente(x)
  {
  }

  /** An interval opened by a start row; its end is set by `ComFins`. */
  function Abrir(l: Linha): (v: Vigencia)
    requires Datada(l)
    ensures IdCoerente(v) && v.idProduto == l.idProduto && v.inicio == l.ref
  {
    Vigencia(IdPreco(l.idProduto, l.ref), l.idProduto, l.ref, l.ref, l.registro, l.ggrem,
             l.pf0, l.pf20, l.pmvg0, l.pmvg20, l.icms, l.cap, l.atributos, l.eans)
  }

  /** `groupby('id_produto')['VIG_INICIO'].shift(-1)`: the first row from `j`
      on that belongs to the product of row `i`. */
  function Proximo(vs: seq<Vigencia>, i: nat, j: nat): (r: Option<nat>)
    requires i < |vs| && j <= |vs|
    decreases |vs| - j
    ensures r.Some? ==> j <= r.value < |vs| && vs[r.value].idProduto == vs[i].idProduto
    ensures r.Some? ==> forall k :: j <= k < r.value ==> vs[k].idProduto != vs[i].idProduto
    ensures r.None? ==> forall k :: j <= k < |vs| ==> vs[k].idProduto != vs[i].idProduto
  {
    if j == |vs| then None
    else if vs[j].idProduto == vs[i].idProduto then Some(j)
    else Proximo(vs, i, j + 1)
  }

  /** `VIG_FIM`: the day before the product's next start, or the default
      end when there is none. */
  function FimDe(vs: seq<Vigencia>, i: nat): Date
    requires i < |vs| && Datadas(vs)
  {
    match Proximo(vs, i, i + 1)
    case Some(j) => PrevDay(vs[j].inicio)
    case None => FimPadrao(vs[i].inicio)
  }

  /** Sets every interval's end. */
  function ComFins(vs: seq<Vigencia>): (r: seq<Vigencia>)
    requires Datadas(vs)
    ensures |r| == |vs| && Datadas(r)
    ensures forall i :: 0 <= i < |vs| ==> r[i] == vs[i].(fim := FimDe(vs, i))
    ensures forall i :: 0 <= i < |vs| ==> MesmaIdentidade(r[i], vs[i])
  {
    seq(|vs|, i requires 0 <= i < |vs| => vs[i].(fim := FimDe(vs, i)))
  }

  /** Sorted by product and start. */
  function ChaveVig(v: Vigencia): Chave { Chave(v.idProduto, Dia(v.inicio), 0) }

  /** The key `drop_duplicates(subset=['id_produto', 'VIG_INICIO'])` works on. */
  function ChaveUnica(v: Vigencia): (string, Date) { (v.idProduto, v.inicio) }

  lemma Tricotomia(a: string, b: string)
    ensures a == b || StrLt(a, b) || StrLt(b, a)
  {
    if a != b {
      StrLtTotal(a, b);
    }
  }

  /** On rows sorted by product, the next row of the same product is the
      next row, if it is of the same product. */
  lemma ProximoAgrupado(vs: seq<Vigencia>, i: nat)
    requires i < |vs| && OrdenadaPor(vs, ChaveVig)
    ensures Proximo(vs, i, i + 1) == if i + 1 < |vs| && vs[i + 1].idProduto == vs[i].idProduto then Some(i + 1) else None
  {
    if i + 1 < |vs| && vs[i + 1].idProduto != vs[i].idProduto {
      var key: Vigencia -> Chave := ChaveVig;
      Tricotomia(vs[i].idProduto, vs[i + 1].idProduto);
      assert !Menor(key(vs[i + 1]), key(vs[i]));
      assert StrLt(vs[i].idProduto, vs[i + 1].idProduto);
      forall k | i + 1 <= k < |vs| ensures vs[k].idProduto != vs[i].idProduto {
        if k > i + 1 {
          assert !Menor(key(vs[k]), key(vs[i + 1]));
        }
      }
    }
  }

  /** Within a sorted run of one product, the row after `i` belongs to the
      product too and starts no later than row `j`. */
  lemma MesmoProdutoEntre(vs: seq<Vigencia>, i: nat, j: nat)
    requires i < j < |vs| && OrdenadaPor(vs, ChaveVig) && vs[i].idProduto == vs[j].idProduto
    ensures vs[i + 1].idProduto == vs[i].idProduto
    ensures Dia(vs[i + 1].inicio) <= Dia(vs[j].inicio)
  {
    var key: Vigencia -> Chave := ChaveVig;
    assert !Menor(key(vs[i + 1]), key(vs[i]));
    if i + 1 < j {
      assert !Menor(key(vs[j]), key(vs[i + 1]));
    }
    Tricotomia(vs[i].idProduto, vs[i + 1].idProduto);
  }

  /** Contiguity: on intervals sorted by product and start, with one interval
      per (product, start), each interval of a product ends the day before
      the next one starts and never before its own start; the last one ends
      on the default end; and intervals of one product never overlap. */
  lemma Contiguas(vs: seq<Vigencia>)
    requires Datadas(vs) && OrdenadaPor(vs, ChaveVig) && DistinctKeys(vs, ChaveUnica)
    ensures forall i :: 0 <= i < |vs| - 1 && vs[i].idProduto == vs[i + 1].idProduto ==>
              ComFins(vs)[i].fim == PrevDay(vs[i + 1].inicio) && NotAfter(vs[i].inicio, ComFins(vs)[i].fim)
    ensures forall i :: 0 <= i < |vs| && (i == |vs| - 1 || vs[i + 1].idProduto != vs[i].idProduto) ==>
              ComFins(vs)[i].fim == FimPadrao(vs[i].inicio)
    ensures forall i, j :: 0 <= i < j < |vs| && vs[i].idProduto == vs[j].idProduto ==>
              Before(ComFins(vs)[i].fim, vs[j].inicio)
  {
    var r := ComFins(vs);
    forall i | 0 <= i < |vs| ensures r[i].fim == (if i + 1 < |vs| && vs[i + 1].idProduto == vs[i].idProduto then PrevDay(vs[i + 1].inicio) else FimPadrao(vs[i].inicio)) {
      ProximoAgrupado(vs, i);
    }
    forall i | 0 <= i < |vs| - 1 && vs[i].idProduto == vs[i + 1].idProduto
      ensures Dia(vs[i].inicio) < Dia(vs[i + 1].inicio)
    {
      IniciosCrescem(vs, i);
    }
    forall i | 0 <= i < |vs| - 1 && vs[i].idProduto == vs[i + 1].idProduto
      ensures NotAfter(vs[i].inicio, r[i].fim)
    {
      var d := PrevDay(vs[i + 1].inicio);
      PrevDayNumber(vs[i + 1].inicio);
      BeforeIsDayNumberOrder(d, vs[i].inicio);
    }
    forall i, j | 0 <= i < j < |vs| && vs[i].idProduto == vs[j].idProduto
      ensures Before(r[i].fim, vs[j].inicio)
    {
      MesmoProdutoEntre(vs, i, j);
      var d := PrevDay(vs[i + 1].inicio);
      PrevDayNumber(vs[i + 1].inicio);
      BeforeIsDayNumberOrder(d, vs[j].inicio);
    }
  }

  /** Two consecutive intervals of one product start on different days, so
      the later one starts strictly later. */
  lemma IniciosCrescem(vs: seq<Vigencia>, i: nat)
    requires Datadas(vs) && OrdenadaPor(vs, ChaveVig) && DistinctKeys(vs, ChaveUnica)
    requires i + 1 < |vs| && vs[i].idProduto == vs[i + 1].idProduto
    ensures Dia(vs[i].inicio) < Dia(vs[i + 1].inicio)
  {
    var key: Vigencia -> Chave := ChaveVig;
    var u: Vigencia -> (string, Date) := ChaveUnica;
    assert !Menor(key(vs[i + 1]), key(vs[i]));
    assert u(vs[i]) != u(vs[i + 1]);
    StrLtIrreflexive(vs[i].idProduto);
    BeforeIsDayNumberOrder(vs[i].inicio, vs[i + 1].inicio);
    BeforeIsDayNumberOrder(vs[i + 1].inicio, vs[i].inicio);
  }

  // ---------------------------------------------------------------------------
  // Final price clean-up (aa.py:288-303)
  // ---------------------------------------------------------------------------

  /** `parse_num_seguro` on a price that is already a float: `str(x)` is the
      parameter `render`. */
  function Limpo(p: Option<real>, render: real -> string, float: string -> Option<real>): Option<real> {
    if p.None? then None else ParseNumSeguro(Some(render(p.value)), float)
  }

  /** A price whose text is plain digits with at most a '.' and a '-', and
      that `float` reads back, passes the clean-up unchanged. */
  lemma LimpoFixo(x: real, render: real -> string, float: string -> Option<real>)
    requires forall i :: 0 <= i < |render(x)| ==> Numerico(render(x)[i])
    requires ',' !in render(x) && float(render(x)) == Some(x)
    ensures Limpo(Some(x), render, float) == Some(x)
  {
    NormalizarNumeroFixo(render(x));
  }

  /** The four prices cleaned, then the two 20% prices back-filled from the
      cleaned 0% prices. */
  function LimparPrecos(v: Vigencia, render: real -> string, float: string -> Option<real>): (r: Vigencia)
    ensures r.pf0 == Limpo(v.pf0, render, float) && r.pmvg0 == Limpo(v.pmvg0, render, float)
    ensures r.pf20 == Preencher(r.pf0, Limpo(v.pf20, render, float))
    ensures r.pmvg20 == Preencher(r.pmvg0, Limpo(v.pmvg20, render, float))
    ensures r == v.(pf0 := r.pf0, pf20 := r.pf20, pmvg0 := r.pmvg0, pmvg20 := r.pmvg20)
  {
    var pf0 := Limpo(v.pf0, render, float);
    var pmvg0 := Limpo(v.pmvg0, render, float);
    v.(pf0 := pf0, pf20 := Preencher(pf0, Limpo(v.pf20, render, float)),
       pmvg0 := pmvg0, pmvg20 := Preencher(pmvg0, Limpo(v.pmvg20, render, float)))
  }

  // ---------------------------------------------------------------------------
  // Standardised attributes and upper case (aa.py:305-314)
  // ---------------------------------------------------------------------------

  /** The row `sort_values('VIG_INICIO').drop_duplicates('id_produto',
      keep='last')` keeps for product `id` among the first `n` rows: one with
      the latest start, and no later row starts as late. */
  function Ultima(vs: seq<Vigencia>, id: string, n: nat): (r: Option<nat>)
    requires n <= |vs|
    ensures r.None? <==> forall k :: 0 <= k < n ==> vs[k].idProduto != id
    ensures r.Some? ==> r.value < n && vs[r.value].idProduto == id
    ensures r.Some? ==> forall k :: 0 <= k < n && vs[k].idProduto == id ==> Dia(vs[k].inicio) <= Dia(vs[r.value].inicio)
    ensures r.Some? ==> forall k :: r.value < k < n && vs[k].idProduto == id ==> Dia(vs[k].inicio) < Dia(vs[r.value].inicio)
  {
    if n == 0 then None
    else
      var p := Ultima(vs, id, n - 1);
      if vs[n - 1].idProduto != id then p
      else if p.None? || Dia(vs[p.value].inicio) <= Dia(vs[n - 1].inicio) then Some(n - 1)
      else p
  }

  /** The latest row of the product of row `i`. */
  function UltimaDe(vs: seq<Vigencia>, i: nat): (j: nat)
    requires i < |vs|
    ensures j < |vs| && vs[j].idProduto == vs[i].idProduto
    ensures forall k :: 0 <= k < |vs| && vs[k].idProduto == vs[i].idProduto ==> Dia(vs[k].inicio) <= Dia(vs[j].inicio)
    ensures forall k :: j < k < |vs| && vs[k].idProduto == vs[i].idProduto ==> Dia(vs[k].inicio) < Dia(vs[j].inicio)
  {
    Ultima(vs, vs[i].idProduto, |vs|).value
  }

  /** Every descriptive column of a row takes the value of its product's
      latest row. */
  function Padronizar(vs: seq<Vigencia>): (r: seq<Vigencia>)
    ensures |r| == |vs|
    ensures forall i :: 0 <= i < |vs| ==> r[i] == vs[i].(atributos := vs[UltimaDe(vs, i)].atributos)
    ensures forall i :: 0 <= i < |vs| ==> MesmaIdentidade(r[i], vs[i])
  {
    seq(|vs|, i requires 0 <= i < |vs| => vs[i].(atributos := vs[UltimaDe(vs, i)].atributos))
  }

  /** After standardisation all rows of a product carry the same
      descriptive values, those of a row with the product's latest start. */
  lemma PadronizarUniforme(vs: seq<Vigencia>, i: nat, j: nat)
    requires i < |vs| && j < |vs| && vs[i].idProduto == vs[j].idProduto
    ensures Padronizar(vs)[i].atributos == Padronizar(vs)[j].atributos
    ensures forall k :: 0 <= k < |vs| && vs[k].idProduto == vs[i].idProduto ==>
              Dia(vs[k].inicio) <= Dia(vs[UltimaDe(vs, i)].inicio)
  {
    assert UltimaDe(vs, i) == UltimaDe(vs, j);
  }

  function UpperOpt(c: Option<string>): Option<string> { if c.None? then None else Some(Upper(c.value)) }

  function UpperTodas(cs: seq<Option<string>>): (r: seq<Option<string>>)
    ensures |r| == |cs| && forall i :: 0 <= i < |cs| ==> r[i] == UpperOpt(cs[i])
  {
    seq(|cs|, i requires 0 <= i < |cs| => UpperOpt(cs[i]))
  }

  /** `.str.upper()` on every text column. */
  function Maiusculas(v: Vigencia): Vigencia {
    v.(idPreco := Upper(v.idPreco), idProduto := Upper(v.idProduto),
       registro := UpperOpt(v.registro), ggrem := UpperOpt(v.ggrem),
       icms := UpperOpt(v.icms), cap := UpperOpt(v.cap),
       atributos := UpperTodas(v.atributos), eans := UpperTodas(v.eans))
  }

  /** Upper-casing keeps the price id made of the product id and start. */
  lemma MaiusculasCoerente(v: Vigencia)
    requires IdCoerente(v)
    ensures IdCoerente(Maiusculas(v)) && Maiusculas(v).inicio == v.inicio
  {
    UpperIdPreco(v.idProduto, v.inicio);
  }

  // ---------------------------------------------------------------------------
  // Duplicates (aa.py:316-320)
  // ---------------------------------------------------------------------------

  function Presentes<T>(cs: seq<Option<T>>): nat {
    if |cs| == 0 then 0 else (if cs[0].Some? then 1 else 0) + Presentes(cs[1..])
  }

  /** `quality_score`: the row's non-null cells (price id, product id, start
      and end are never null). */
  function Pontos(v: Vigencia): int {
    4 + Presentes([v.registro, v.ggrem, v.icms, v.cap] + v.atributos + v.eans)
    + Presentes([v.pf0, v.pf20, v.pmvg0, v.pmvg20])
  }

  /** `sort_values(['id_produto', 'VIG_INICIO', 'quality_score'],
      ascending=[True, True, False])`. */
  function ChaveDedup(v: Vigencia): Chave { Chave(v.idProduto, Dia(v.inicio), -Pontos(v)) }

  /** Sorted by the three-part key means sorted by product and start. */
  lemma OrdenadaPorProduto(vs: seq<Vigencia>)
    requires OrdenadaPor(vs, ChaveDedup)
    ensures OrdenadaPor(vs, ChaveVig)
  {
    var k1: Vigencia -> Chave := ChaveDedup;
    var k2: Vigencia -> Chave := ChaveVig;
    forall i, j | 0 <= i < j < |vs| ensures !Menor(k2(vs[j]), k2(vs[i])) {
      assert !Menor(k1(vs[j]), k1(vs[i]));
    }
  }

  lemma KeysOfOrdenar<K>(vs: seq<Vigencia>, key: Vigencia -> Chave, k: Vigencia -> K)
    ensures KeysOf(Ordenar(vs, key), k) == KeysOf(vs, k)
  {
    var os := Ordenar(vs, key);
    OrdenarElementos(vs, key);
    forall x | x in KeysOf(os, k) ensures x in KeysOf(vs, k) {
      var i :| 0 <= i < |os| && k(os[i]) == x;
      assert os[i] in vs;
      var j :| 0 <= j < |vs| && vs[j] == os[i];
    }
    forall x | x in KeysOf(vs, k) ensures x in KeysOf(os, k) {
      var i :| 0 <= i < |vs| && k(vs[i]) == x;
      assert vs[i] in os;
      var j :| 0 <= j < |os| && os[j] == vs[i];
    }
  }

  lemma PrefixoChaves<K>(s: seq<Vigencia>, u: Vigencia -> K, j: nat)
    requires j <= |s|
    ensures forall m :: 0 <= m < j ==> u(s[m]) in KeysOf(s[..j], u)
  {
    forall m | 0 <= m < j ensures u(s[m]) in KeysOf(s[..j], u) {
      assert s[..j][m] == s[m];
    }
  }

  /** Step 7: one row per (product, start), the one sorting first. */
  function Deduplicar(vs: seq<Vigencia>): (r: seq<Vigencia>)
    ensures DistinctKeys(r, ChaveUnica)
    ensures KeysOf(r, ChaveUnica) == KeysOf(vs, ChaveUnica)
    ensures forall i :: 0 <= i < |r| ==> r[i] in vs
    ensures OrdenadaPor(r, ChaveDedup)
  {
    var os := Ordenar(vs, ChaveDedup);
    DedupKeys(os, ChaveUnica);
    DedupSub(os, ChaveUnica);
    DedupOrdenada(os, ChaveDedup, ChaveUnica);
    KeysOfOrdenar(vs, ChaveDedup, ChaveUnica);
    OrdenarElementos(vs, ChaveDedup);
    DedupBy(os, ChaveUnica)
  }

  /** The row kept for a (product, start) has the highest quality score of
      all the rows of that product and start. */
  lemma DeduplicarMaisCompleta(vs: seq<Vigencia>, i: nat, v: Vigencia)
    requires i < |Deduplicar(vs)| && v in vs && ChaveUnica(v) == ChaveUnica(Deduplicar(vs)[i])
    ensures Pontos(v) <= Pontos(Deduplicar(vs)[i])
  {
    var key: Vigencia -> Chave := ChaveDedup;
    var u: Vigencia -> (string, Date) := ChaveUnica;
    var os := Ordenar(vs, key);
    var r := DedupBy(os, u);
    DedupKeys(os, u);
    var j :| 0 <= j < |os| && os[j] == r[i] && FirstOfKey(os, u, j);
    OrdenarElementos(vs, key);
    var m :| 0 <= m < |os| && os[m] == v;
    PrefixoChaves(os, u, j);
    assert m >= j;
    if m > j {
      assert !Menor(key(os[m]), key(os[j]));
      StrLtIrreflexive(v.idProduto);
    }
  }

  // ---------------------------------------------------------------------------
  // The whole step (aa.py:246-322)
  // ---------------------------------------------------------------------------

  /** The intervals opened by the start rows, before their ends are set. */
  function Abertos(st: seq<Linha>): (r: seq<Vigencia>)
    requires forall k :: 0 <= k < |st| ==> Datada(st[k])
    ensures |r| == |st| && Datadas(r)
    ensures forall k :: 0 <= k < |st| ==> IdCoerente(r[k]) && r[k].idProduto == st[k].idProduto
  {
    seq(|st|, k requires 0 <= k < |st| => Abrir(st[k]))
  }

  /** The start rows of the sorted frame. */
  function IniciosOrdenadosDe(ls: seq<Linha>): (r: seq<Linha>)
    requires forall i :: 0 <= i < |ls| ==> Datada(ls[i])
    ensures forall k :: 0 <= k < |r| ==> Datada(r[k])
  {
    var os := Ordenar(ls, ChaveRef);
    OrdenarElementos(ls, ChaveRef);
    assert os[..|os|] == os;
    Inicios(os, |os|)
  }

  /** Steps 2 to 4: sort by product and month, keep the rows that start an
      interval, open the intervals and set their ends. */
  function Intervalos(ls: seq<Linha>): (r: seq<Vigencia>)
    requires forall i :: 0 <= i < |ls| ==> Datada(ls[i])
    ensures Datadas(r) && forall i :: 0 <= i < |r| ==> IdCoerente(r[i])
    ensures |r| == |IniciosOrdenadosDe(ls)|
    ensures forall k :: 0 <= k < |r| ==> r[k].idProduto == IniciosOrdenadosDe(ls)[k].idProduto
  {
    ComFins(Abertos(IniciosOrdenadosDe(ls)))
  }

  /** Every product of the frame opens at least one interval. */
  lemma IntervalosCobrem(ls: seq<Linha>, l: Linha)
    requires forall i :: 0 <= i < |ls| ==> Datada(ls[i])
    requires l in ls
    ensures exists k :: 0 <= k < |Intervalos(ls)| && Intervalos(ls)[k].idProduto == l.idProduto
  {
    var os := Ordenar(ls, ChaveRef);
    OrdenarElementos(ls, ChaveRef);
    assert os[..|os|] == os;
    var st := IniciosOrdenadosDe(ls);
    assert st == Inicios(os, |os|);
    var m :| 0 <= m < |os| && os[m] == l;
    ProdutoComInicio(os, m);
    var k :| 0 <= k < |st| && st[k].idProduto == l.idProduto;
    assert Intervalos(ls)[k].idProduto == st[k].idProduto;
  }

  /** The product of every row has a start row. */
  lemma ProdutoComInicio(ls: seq<Linha>, m: nat)
    requires m < |ls|
    ensures exists k :: 0 <= k < |Inicios(ls, |ls|)| && Inicios(ls, |ls|)[k].idProduto == ls[m].idProduto
  {
    var s := InicioDe(ls, m);
    InicioMantido(ls, |ls|, s);
    var st := Inicios(ls, |ls|);
    var k :| 0 <= k < |st| && st[k] == ls[s];
    assert st[k].idProduto == ls[m].idProduto;
  }

  /** The start row of the interval of row `m`. */
  lemma InicioDe(ls: seq<Linha>, m: nat) returns (s: nat)
    requires m < |ls|
    ensures s <= m && Inicio(ls, s) && ls[s].idProduto == ls[m].idProduto
  {
    LinhaDoIntervalo(ls, m);
    s :| 0 <= s <= m && Inicio(ls, s) && Repete(ls, s, m);
    if s < m {
      assert ls[m].idProduto == ls[s].idProduto && MesmosPrecos(ls[m], ls[s]);
    }
  }

  function LimparTodos(vs: seq<Vigencia>, render: real -> string, float: string -> Option<real>): (r: seq<Vigencia>)
    ensures |r| == |vs| && forall i :: 0 <= i < |vs| ==> r[i] == LimparPrecos(vs[i], render, float)
    ensures forall i :: 0 <= i < |vs| ==> MesmaIdentidade(r[i], vs[i])
  {
    seq(|vs|, i requires 0 <= i < |vs| => LimparPrecos(vs[i], render, float))
  }

  function MaiusculasTodas(vs: seq<Vigencia>): (r: seq<Vigencia>)
    ensures |r| == |vs| && forall i :: 0 <= i < |vs| ==> r[i] == Maiusculas(vs[i])
    ensures forall i :: 0 <= i < |vs| ==> r[i].idProduto == Upper(vs[i].idProduto) && r[i].inicio == vs[i].inicio
    ensures forall i :: 0 <= i < |vs| && IdCoerente(vs[i]) ==> IdCoerente(r[i])
  {
    forall i | 0 <= i < |vs| && IdCoerente(vs[i]) ensures IdCoerente(Maiusculas(vs[i])) {
      MaiusculasCoerente(vs[i]);
    }
    seq(|vs|, i requires 0 <= i < |vs| => Maiusculas(vs[i]))
  }

  /** Steps 5 and 6: clean the prices, standardise and upper-case the
      text. */
  function Tratados(vs: seq<Vigencia>, render: real -> string, float: string -> Option<real>): (r: seq<Vigencia>)
    requires forall i :: 0 <= i < |vs| ==> IdCoerente(vs[i])
    ensures |r| == |vs|
    ensures forall i :: 0 <= i < |r| ==> IdCoerente(r[i]) && r[i].idProduto == Upper(vs[i].idProduto)
  {
    var pd := Limpas(vs, render, float);
    var r := MaiusculasTodas(pd);
    forall i | 0 <= i < |r| ensures IdCoerente(r[i]) && r[i].idProduto == Upper(vs[i].idProduto) {
      assert IdCoerente(pd[i]) && pd[i].idProduto == vs[i].idProduto;
    }
    r
  }

  /** Steps 5 and 6 before upper-casing: clean the prices, then
      standardise the attributes. */
  function Limpas(vs: seq<Vigencia>, render: real -> string, float: string -> Option<real>): (r: seq<Vigencia>)
    requires forall i :: 0 <= i < |vs| ==> IdCoerente(vs[i])
    ensures |r| == |vs| && forall i :: 0 <= i < |r| ==> IdCoerente(r[i]) && r[i].idProduto == vs[i].idProduto
  {
    var lp := LimparTodos(vs, render, float);
    var pd := Padronizar(lp);
    forall i | 0 <= i < |pd| ensures IdCoerente(pd[i]) && pd[i].idProduto == vs[i].idProduto {
      CoerenteSe(lp[i], vs[i]);
      CoerenteSe(pd[i], lp[i]);
    }
    pd
  }

  /** Steps 5 to 7: clean the prices, standardise and upper-case the text,
      keep one row per (product, start). */
  function Finalizar(vs: seq<Vigencia>, render: real -> string, float: string -> Option<real>): (r: seq<Vigencia>)
    requires forall i :: 0 <= i < |vs| ==> IdCoerente(vs[i])
    ensures DistinctKeys(r, ChaveUnica) && OrdenadaPor(r, ChaveDedup)
    ensures forall i :: 0 <= i < |r| ==> IdCoerente(r[i])
  {
    var up := Tratados(vs, render, float);
    var r := Deduplicar(up);
    forall i | 0 <= i < |r| ensures IdCoerente(r[i]) {
      MembroCoerente(up, r[i]);
    }
    r
  }

  /** Every interval's product, upper-cased, is the product of some row of
      the result. */
  lemma FinalizarCobre(vs: seq<Vigencia>, render: real -> string, float: string -> Option<real>, k: nat)
    requires forall i :: 0 <= i < |vs| ==> IdCoerente(vs[i])
    requires k < |vs|
    ensures exists i :: 0 <= i < |Finalizar(vs, render, float)| && Finalizar(vs, render, float)[i].idProduto == Upper(vs[k].idProduto)
  {
    var up := Tratados(vs, render, float);
    var r := Deduplicar(up);
    assert r == Finalizar(vs, render, float);
    assert ChaveUnica(up[k]) in KeysOf(up, ChaveUnica);
    var i :| 0 <= i < |r| && ChaveUnica(r[i]) == ChaveUnica(up[k]);
  }

  /** `process_vigencias` as written: the ends are set (step 3) before the
      duplicates of a (product, start) are dropped (step 7). */
  function ProcessarVigencias(bs: seq<Bruta>, numero: string -> Option<real>, render: real -> string,
                                float: string -> Option<real>): (r: Result<seq<Vigencia>>)
    ensures r.Err? <==> exists i :: 0 <= i < |bs| && !MesRepresentavel(bs[i].ano, bs[i].mes)
    ensures r.Err? ==> r.error.ValueError?
    ensures r.Ok? ==> DistinctKeys(r.value, ChaveUnica) && OrdenadaPor(r.value, ChaveDedup)
    ensures r.Ok? ==> forall i :: 0 <= i < |r.value| ==> IdCoerente(r.value[i])
  {
    match PrepararTodas(bs, numero)
    case Err(e) => Err(e)
    case Ok(ls) => Ok(Finalizar(Intervalos(ls), render, float))
  }

  /** The intended `process_vigencias`: the ends set after the duplicates
      are dropped, so that every product's intervals are contiguous. */
  function ProcessarVigenciasCorrigida(bs: seq<Bruta>, numero: string -> Option<real>, render: real -> string,
                              float: string -> Option<real>): (r: Result<seq<Vigencia>>)
    ensures r.Err? <==> exists i :: 0 <= i < |bs| && !MesRepresentavel(bs[i].ano, bs[i].mes)
    ensures r.Err? ==> r.error.ValueError?
    ensures r.Ok? ==> DistinctKeys(r.value, ChaveUnica) && OrdenadaPor(r.value, ChaveVig)
    ensures r.Ok? ==> forall i :: 0 <= i < |r.value| ==> IdCoerente(r.value[i])
  {
    match ProcessarVigencias(bs, numero, render, float)
    case Err(e) => Err(e)
    case Ok(vs) =>
      OrdenadaPorProduto(vs);
      var r := ComFins(vs);
      DistinctKeysPointwise(r, ChaveUnica, vs, ChaveUnica);
      OrdenadaPointwise(r, ChaveVig, vs, ChaveVig);
      Ok(r)
  }

  /** Contiguity of the result: within a product each interval ends the day
      before the next begins and not before it begins itself, the last one
      ends on the default end, and no two intervals of a product overlap. */
  lemma VigenciasContiguas(bs: seq<Bruta>, numero: string -> Option<real>, render: real -> string,
                           float: string -> Option<real>)
    requires ProcessarVigenciasCorrigida(bs, numero, render, float).Ok?
    ensures var r := ProcessarVigenciasCorrigida(bs, numero, render, float).value;
      forall i :: 0 <= i < |r| - 1 && r[i].idProduto == r[i + 1].idProduto ==>
        r[i].fim == PrevDay(r[i + 1].inicio) && NotAfter(r[i].inicio, r[i].fim)
    ensures var r := ProcessarVigenciasCorrigida(bs, numero, render, float).value;
      forall i :: 0 <= i < |r| && (i == |r| - 1 || r[i + 1].idProduto != r[i].idProduto) ==>
        r[i].fim == FimPadrao(r[i].inicio)
    ensures var r := ProcessarVigenciasCorrigida(bs, numero, render, float).value;
      forall i, j :: 0 <= i < j < |r| && r[i].idProduto == r[j].idProduto ==> Before(r[i].fim, r[j].inicio)
  {
    var vs := ProcessarVigencias(bs, numero, render, float).value;
    OrdenadaPorProduto(vs);
    Contiguas(vs);
  }

  /** Price ids are unique in the result. */
  lemma IdPrecoUnico(bs: seq<Bruta>, numero: string -> Option<real>, render: real -> string,
                     float: string -> Option<real>, i: nat, j: nat)
    requires ProcessarVigenciasCorrigida(bs, numero, render, float).Ok?
    requires i < j < |ProcessarVigenciasCorrigida(bs, numero, render, float).value|
    ensures ProcessarVigenciasCorrigida(bs, numero, render, float).value[i].idPreco
         != ProcessarVigenciasCorrigida(bs, numero, render, float).value[j].idPreco
  {
    var r := ProcessarVigenciasCorrigida(bs, numero, render, float).value;
    var u: Vigencia -> (string, Date) := ChaveUnica;
    assert u(r[i]) != u(r[j]);
    if r[i].idPreco == r[j].idPreco {
      IdPrecoInjetivo(r[i].idProduto, r[i].inicio, r[j].idProduto, r[j].inicio);
    }
  }

  /** No product is lost by `process_vigencias`: the product of every
      input row, upper-cased, has an interval in the result. */
  lemma ProdutosPreservadosComoEscrito(bs: seq<Bruta>, numero: string -> Option<real>, render: real -> string,
                                       float: string -> Option<real>, b: nat, r: seq<Vigencia>)
    requires ProcessarVigencias(bs, numero, render, float) == Ok(r) && b < |bs|
    ensures exists i :: 0 <= i < |r| && r[i].idProduto == Upper(IdProduto(bs[b].registro, bs[b].ggrem))
  {
    var ls := PrepararTodas(bs, numero).value;
    assert ls[b].idProduto == IdProduto(bs[b].registro, bs[b].ggrem);
    var i := LinhaCoberta(ls, b, render, float);
  }

  /** The intended version differs from the source only in the ends: same
      rows, same order, every end recomputed from the starts that
      survived. */
  lemma CorrigidaSoMudaFins(bs: seq<Bruta>, numero: string -> Option<real>, render: real -> string,
                            float: string -> Option<real>)
    requires ProcessarVigencias(bs, numero, render, float).Ok?
    ensures var a := ProcessarVigencias(bs, numero, render, float).value;
            var c := ProcessarVigenciasCorrigida(bs, numero, render, float).value;
            |c| == |a| && forall i :: 0 <= i < |a| ==> c[i] == a[i].(fim := c[i].fim)
  {
    var a := ProcessarVigencias(bs, numero, render, float).value;
    OrdenadaPorProduto(a);
  }

  /** No product is lost: the product of every input row, upper-cased, has an
      interval in the result. */
  lemma ProdutosPreservados(bs: seq<Bruta>, numero: string -> Option<real>, render: real -> string,
                            float: string -> Option<real>, b: nat, r: seq<Vigencia>)
    requires ProcessarVigenciasCorrigida(bs, numero, render, float) == Ok(r) && b < |bs|
    ensures exists i :: 0 <= i < |r| && r[i].idProduto == Upper(IdProduto(bs[b].registro, bs[b].ggrem))
  {
    var ls := ProcessarDe(bs, numero, render, float, r);
    assert ls[b].idProduto == IdProduto(bs[b].registro, bs[b].ggrem);
    var i := LinhaCoberta(ls, b, render, float);
    var f := Finalizar(Intervalos(ls), render, float);
    assert r[i].idProduto == f[i].idProduto;
  }

  lemma ProcessarDe(bs: seq<Bruta>, numero: string -> Option<real>, render: real -> string,
                    float: string -> Option<real>, r: seq<Vigencia>) returns (ls: seq<Linha>)
    requires ProcessarVigenciasCorrigida(bs, numero, render, float) == Ok(r)
    ensures PrepararTodas(bs, numero) == Ok(ls)
    ensures r == ComFins(Finalizar(Intervalos(ls), render, float))
  {
    ls := PrepararTodas(bs, numero).value;
  }

  /** The row `b` of the prepared frame has its product, upper-cased, in
      some row of the finished table. */
  lemma LinhaCoberta(ls: seq<Linha>, b: nat, render: real -> string, float: string -> Option<real>) returns (i: nat)
    requires forall j :: 0 <= j < |ls| ==> Datada(ls[j])
    requires b < |ls|
    ensures i < |Finalizar(Intervalos(ls), render, float)|
    ensures Finalizar(Intervalos(ls), render, float)[i].idProduto == Upper(ls[b].idProduto)
  {
    IntervalosCobrem(ls, ls[b]);
    var vs := Intervalos(ls);
    var k :| 0 <= k < |vs| && vs[k].idProduto == ls[b].idProduto;
    FinalizarCobre(vs, render, float, k);
    var f := Finalizar(vs, render, float);
    i :| 0 <= i < |f| && f[i].idProduto == Upper(vs[k].idProduto);
  }

  /** As written, two intervals of one product opening on the same day (two
      rows of one month with different tracked values) get their ends before
      the duplicate is dropped: the first ends the day before it starts, and
      when the two are equally complete it is the one kept. */
  lemma FimAntesDoInicio(a: Vigencia, b: Vigencia)
    requires IdCoerente(a) && IdCoerente(b)
    requires a.idProduto == b.idProduto && a.inicio == b.inicio && Pontos(a) == Pontos(b)
    ensures Deduplicar(ComFins([a, b])) == [ComFins([a, b])[0]]
    ensures Before(Deduplicar(ComFins([a, b]))[0].fim, a.inicio)
  {
    var vs := [a, b];
    assert Proximo(vs, 0, 1) == Some(1);
    DedupPar(ComFins(vs));
  }

  /** Two rows with the same (product, start) and equally complete: the
      first one survives. */
  lemma DedupPar(vs: seq<Vigencia>)
    requires |vs| == 2 && ChaveUnica(vs[0]) == ChaveUnica(vs[1]) && Pontos(vs[0]) == Pontos(vs[1])
    ensures Deduplicar(vs) == [vs[0]]
  {
    assert vs == [vs[0], vs[1]];
    OrdenarPar(vs[0], vs[1], ChaveDedup);
    DedupPrimeiro(vs[0], vs[1], ChaveUnica);
  }
}
