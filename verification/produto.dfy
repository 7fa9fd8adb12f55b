/** Product names of the regulator base (`src/modules/produto.py`): rows
    of test and price-table products are dropped, the composite-substance
    flag is set, '+' gets single spaces around it, and the names of generic
    drugs are corrected and cut into their active-ingredient components. */
module Produto {
  import opened Wrappers
  import opened Seqs
  import opened Text
  import opened Scan
  import opened Frame

  const ColProduto := "PRODUTO"
  const PrincipioAtivo := "PRINCIPIO ATIVO"
  const Composta := "SUBSTANCIA_COMPOSTA"

  // ---------------------------------------------------------------------------
  // remover_produtos_teste_tabelado
  // ---------------------------------------------------------------------------

  /** `str.contains('TESTE|TABELADO', na=False)`: text holding either word,
      case-sensitively; a missing or non-text cell is never marked. */
  predicate Marcado(r: Row) {
    var v := Get(r, ColProduto);
    v.Str? && (Contains(v.s, "TESTE") || Contains(v.s, "TABELADO"))
  }

  function Mantido(r: Row): bool { !Marcado(r) }

  /** `remover_produtos_teste_tabelado` without its counts: a frame without
      the product column fails; otherwise exactly the unmarked rows remain,
      in their order. */
  function RemoverTesteTabelado(t: Table): (r: Result<Table>)
    requires WellFormed(t)
    ensures r.Err? <==> ColProduto !in t.cols
    ensures r.Ok? ==> WellFormed(r.value) && r.value.cols == t.cols
    ensures r.Ok? ==> forall i :: 0 <= i < |r.value.rows| ==> !Marcado(r.value.rows[i]) && r.value.rows[i] in t.rows
    ensures r.Ok? ==> forall i :: 0 <= i < |t.rows| && !Marcado(t.rows[i]) ==> t.rows[i] in r.value.rows
    ensures r.Ok? ==> |r.value.rows| + Count(t.rows, Marcado) == |t.rows|
    ensures r.Ok? ==> Subsequence(r.value.rows, t.rows)
  {
    if ColProduto !in t.cols then Err(KeyError(ColProduto))
    else
      FilterCountNeg(t.rows, Mantido, Marcado);
      FilterSubsequence(t.rows, Mantido);
      Ok(FilterRows(t, Mantido))
  }

  /** Removing the marked rows of a frame that has none left changes
      nothing. */
  lemma RemoverIdempotente(t: Table)
    requires WellFormed(t) && ColProduto in t.cols
    ensures RemoverTesteTabelado(RemoverTesteTabelado(t).value) == RemoverTesteTabelado(t)
  {
    FilterIdempotent(t.rows, Mantido);
  }

  // ---------------------------------------------------------------------------
  // criar_flag_substancia_composta
  // ---------------------------------------------------------------------------

  /** `str.contains(r'\+', na=False)`. */
  predicate Composto(v: Value) { v.Str? && '+' in v.s }

  function ColunaComposta(r: Row): Value { Flag(Composto(Get(r, PrincipioAtivo))) }

  function ColunaFalsa(r: Row): Value { Flag(false) }

  /** `criar_flag_substancia_composta`: the flag is true exactly on the rows
      whose active ingredient is text holding a '+', and false everywhere
      when the frame has no active-ingredient column. Every other cell
      stays. */
  function CriarFlagComposta(t: Table): (r: Table)
    requires WellFormed(t)
    ensures WellFormed(r) && |r.rows| == |t.rows|
    ensures forall c :: c in r.cols <==> c in t.cols || c == Composta
    ensures forall i :: 0 <= i < |t.rows| ==>
              (Get(r.rows[i], Composta) == Flag(true) <==> PrincipioAtivo in t.cols && Composto(Get(t.rows[i], PrincipioAtivo)))
    ensures forall i :: 0 <= i < |t.rows| ==> Get(r.rows[i], Composta).Flag?
    ensures forall i, c :: 0 <= i < |t.rows| && c != Composta ==> Get(r.rows[i], c) == Get(t.rows[i], c)
  {
    if PrincipioAtivo in t.cols then SetCol(t, Composta, ColunaComposta)
    else SetCol(t, Composta, ColunaFalsa)
  }

  // ---------------------------------------------------------------------------
  // ajustar_espacos_em_mais
  // ---------------------------------------------------------------------------

  /** `\s*\+\s*` at `i`: a whitespace run, a '+', a whitespace run. Giving
      back whitespace cannot help, since '+' is not whitespace. */
  function MaisAt(s: string, i: nat): nat {
    var j := i + SpaceRun(s, i);
    if j < |s| && s[j] == '+' then j + 1 + SpaceRun(s, j + 1) - i else 0
  }

  function Mais(m: string): string { " + " }

  /** Every '+' stands alone: whatever is next to it is whitespace or an
      end of the text. */
  predicate Isolado(s: string) {
    forall k :: 0 <= k < |s| && s[k] == '+' ==>
      (k == 0 || IsSpace(s[k - 1])) && (k == |s| - 1 || IsSpace(s[k + 1]))
  }

  /** Every '+' is strictly inside the text, with a plain space on both
      sides. */
  predicate Cercado(s: string) {
    forall k :: 0 <= k < |s| && s[k] == '+' ==> 0 < k < |s| - 1 && s[k - 1] == ' ' && s[k + 1] == ' '
  }

  function NaoEspaco(c: char): bool { !IsSpace(c) }

  /** The characters of `s` that are not whitespace, in order. */
  function NaoEspacos(s: string): string {
    if |s| == 0 then "" else (if IsSpace(s[0]) then "" else [s[0]]) + NaoEspacos(s[1..])
  }

  lemma {:induction false} NaoEspacosAppend(a: string, b: string)
    ensures NaoEspacos(a + b) == NaoEspacos(a) + NaoEspacos(b)
  {
    if |a| == 0 {
      assert a + b == b;
    } else {
      assert a + b == [a[0]] + (a[1..] + b) && a == [a[0]] + a[1..];
      NaoEspacosAppend(a[1..], b);
      NaoEspacosCons(a[0], a[1..] + b);
      NaoEspacosCons(a[0], a[1..]);
    }
  }

  /** `ajustar_espacos_em_mais` on text: `\s*\+\s*` becomes " + ", then
      whitespace runs become single spaces and the ends are trimmed. The
      result is normalised, every '+' stands alone, and the characters
      other than whitespace are those of the input, in order. */
  function AjustarEspacosEmMais(s: string): (r: string)
    ensures Normalized(r) && Isolado(r)
    ensures NaoEspacos(r) == NaoEspacos(s)
  {
    var x := Sub(s, MaisAt, Mais);
    SubMaisCercado(s, 0);
    NormalizeIsolado(x);
    SubMaisConteudo(s, 0);
    assert s[0..] == s;
    NormalizeConteudo(x);
    NormalizeSpaces(x)
  }

  /** The cell version: anything but text comes back as it is. */
  function AjustarValor(v: Value): (r: Value)
    ensures !v.Str? ==> r == v
    ensures v.Str? ==> r.Str? && Normalized(r.s) && Isolado(r.s) && NaoEspacos(r.s) == NaoEspacos(v.s)
  {
    if v.Str? then Str(AjustarEspacosEmMais(v.s)) else v
  }

  /** Adjusting the spaces around '+' never changes the composite flag: the
      '+' signs are kept and none is added. */
  lemma FlagEstavel(v: Value)
    ensures Composto(AjustarValor(v)) == Composto(v)
  {
    if v.Str? {
      var r := AjustarEspacosEmMais(v.s);
      MaisConteudo(v.s);
      MaisConteudo(r);
    }
  }

  /** '+' is kept by the filter of non-whitespace characters. */
  lemma {:induction false} MaisConteudo(s: string)
    ensures '+' in s <==> '+' in NaoEspacos(s)
  {
    if |s| > 0 {
      MaisConteudo(s[1..]);
      assert s == [s[0]] + s[1..];
    }
  }

  // ---------------------------------------------------------------------------
  // Lemmas: where '+' stands
  // ---------------------------------------------------------------------------

  /** One step of the substitution: a match becomes " + ", any other
      character, which is then not '+', is copied. */
  lemma SubMaisPasso(s: string, i: nat)
    requires i < |s|
    ensures MatchesAt(s, i, MaisAt) ==>
              SubFrom(s, i, MaisAt, Mais) == " + " + SubFrom(s, i + MaisAt(s, i), MaisAt, Mais)
    ensures !MatchesAt(s, i, MaisAt) ==>
              s[i] != '+' && SubFrom(s, i, MaisAt, Mais) == [s[i]] + SubFrom(s, i + 1, MaisAt, Mais)
  {
    if MatchesAt(s, i, MaisAt) { PassoMais(s, i); } else { PassoCopia(s, i); }
  }

  /** The step at a match. */
  lemma PassoMais(s: string, i: nat)
    requires i < |s| && MatchesAt(s, i, MaisAt)
    ensures SubFrom(s, i, MaisAt, Mais) == " + " + SubFrom(s, i + MaisAt(s, i), MaisAt, Mais)
  {
    SubFromCasaFixa(s, i, MaisAt, Mais, " + ");
  }

  /** The step elsewhere: the character, not a '+', is copied. */
  lemma PassoCopia(s: string, i: nat)
    requires i < |s| && !MatchesAt(s, i, MaisAt)
    ensures s[i] != '+' && SubFrom(s, i, MaisAt, Mais) == [s[i]] + SubFrom(s, i + 1, MaisAt, Mais)
  {
    SubFromCopia(s, i, MaisAt, Mais);
  }

  lemma CercadoMais(rest: string, o: string)
    requires Cercado(rest) && o == " + " + rest
    ensures Cercado(o)
  {
    forall k | 0 <= k < |o| && o[k] == '+'
      ensures 0 < k < |o| - 1 && o[k - 1] == ' ' && o[k + 1] == ' '
    {
      if k >= 3 {
        assert o[k] == rest[k - 3];
        assert o[k - 1] == rest[k - 4] && o[k + 1] == rest[k - 2];
      }
    }
  }

  lemma CercadoChar(c: char, rest: string, o: string)
    requires Cercado(rest) && c != '+' && o == [c] + rest
    ensures Cercado(o)
  {
    forall k | 0 <= k < |o| && o[k] == '+'
      ensures 0 < k < |o| - 1 && o[k - 1] == ' ' && o[k + 1] == ' '
    {
      assert o[k] == rest[k - 1];
      assert o[k - 1] == rest[k - 2] && o[k + 1] == rest[k];
    }
  }

  lemma SubMaisCercado(s: string, i: nat)
    ensures Cercado(SubFrom(s, i, MaisAt, Mais))
  {
    forall k | i <= k < |s| && s[k] == '+' ensures MatchesAt(s, k, MaisAt) {
      if !MatchesAt(s, k, MaisAt) { PassoCopia(s, k); }
    }
    SubCercado(s, i, MaisAt, Mais);
  }

  /** A substitution whose replacement is always " + " and whose pattern
      matches at every '+' leaves every '+' between two spaces. */
  lemma {:induction false} SubCercado(s: string, i: nat, m: Matcher, rep: string -> string)
    requires forall x :: rep(x) == " + "
    requires forall k :: i <= k < |s| && s[k] == '+' ==> MatchesAt(s, k, m)
    ensures Cercado(SubFrom(s, i, m, rep))
    decreases |s| - i
  {
    if i < |s| {
      if MatchesAt(s, i, m) {
        var j := i + m(s, i);
        SubCercado(s, j, m, rep);
        CercadoMais(SubFrom(s, j, m, rep), SubFrom(s, i, m, rep));
      } else {
        SubCercado(s, i + 1, m, rep);
        CercadoChar(s[i], SubFrom(s, i + 1, m, rep), SubFrom(s, i, m, rep));
      }
    }
  }

  /** Any stretch of text keeps '+' standing alone. */
  lemma IsoladoTrecho(s: string, a: nat, b: nat)
    requires Isolado(s) && a <= b <= |s|
    ensures Isolado(s[a..b])
  {
    var t := s[a..b];
    forall k | 0 <= k < |t| && t[k] == '+'
      ensures (k == 0 || IsSpace(t[k - 1])) && (k == |t| - 1 || IsSpace(t[k + 1]))
    {
      assert t[k] == s[a + k];
      if k > 0 { assert t[k - 1] == s[a + k - 1]; }
      if k < |t| - 1 { assert t[k + 1] == s[a + k + 1]; }
    }
  }

  /** `strip()` keeps a stretch of the text. */
  lemma StripTrecho(s: string) returns (a: nat, b: nat)
    ensures a <= b <= |s| && Strip(s) == s[a..b]
  {
    var l := TrimLeftSp(s);
    TrimLeftSuffix(s);
    TrimRightPrefix(l);
    a := |s| - |l|;
    b := a + |TrimRightSp(l)|;
    assert l == s[a..];
  }

  lemma {:induction false} CollapseIsolado(s: string)
    requires Isolado(s)
    ensures Isolado(Collapse(s))
    decreases |s|
  {
    if |s| > 0 {
      if IsSpace(s[0]) {
        var t := TrimLeftSp(s);
        TrimLeftSuffix(s);
        IsoladoTrecho(s, |s| - |t|, |s|);
        assert t == s[|s| - |t|..|s|];
        CollapseIsolado(t);
        var c := Collapse(t);
        var o := " " + c;
        assert Collapse(s) == o;
        forall k | 0 <= k < |o| && o[k] == '+'
          ensures (k == 0 || IsSpace(o[k - 1])) && (k == |o| - 1 || IsSpace(o[k + 1]))
        {
          assert o[k] == c[k - 1];
          if k > 1 { assert o[k - 1] == c[k - 2]; }
          if k < |o| - 1 { assert o[k + 1] == c[k]; }
        }
      } else {
        var n := WordLen(s);
        WordLenFacts(s);
        IsoladoTrecho(s, n, |s|);
        assert s[n..] == s[n..|s|];
        CollapseIsolado(s[n..]);
        var c := Collapse(s[n..]);
        assert |c| > 0 ==> c[0] == ' ' by {
          if n < |s| {
            assert IsSpace(s[n..][0]);
          } else {
            assert s[n..] == "";
          }
        }
        var o := s[..n] + c;
        assert Collapse(s) == o;
        forall k | 0 <= k < |o| && o[k] == '+'
          ensures (k == 0 || IsSpace(o[k - 1])) && (k == |o| - 1 || IsSpace(o[k + 1]))
        {
          if k < n {
            assert o[k] == s[..n][k] == s[k];
            MaisNaPalavra(s, n, k);
            if |c| > 0 { assert o[k + 1] == c[0]; }
          } else {
            assert o[k] == c[k - n];
            assert k > n;
            assert o[k - 1] == c[k - n - 1];
            if k < |o| - 1 { assert o[k + 1] == c[k - n + 1]; }
          }
        }
      }
    }
  }

  /** In text where '+' stands alone, a word holding a '+' is that '+'. */
  lemma MaisNaPalavra(s: string, n: nat, k: nat)
    requires Isolado(s) && n <= |s| && k < n && s[k] == '+'
    requires forall j :: 0 <= j < n ==> !IsSpace(s[j])
    ensures k == 0 && n == 1
  {
    IsoladoEm(s, k);
  }

  /** The neighbours of one '+' of text where '+' stands alone. */
  lemma IsoladoEm(s: string, k: nat)
    requires Isolado(s) && k < |s| && s[k] == '+'
    ensures (k == 0 || IsSpace(s[k - 1])) && (k == |s| - 1 || IsSpace(s[k + 1]))
  {
  }

  /** Whitespace normalisation keeps '+' standing alone. */
  lemma NormalizeIsolado(s: string)
    requires Isolado(s)
    ensures Isolado(NormalizeSpaces(s))
  {
    CollapseIsolado(s);
    var a, b := StripTrecho(Collapse(s));
    IsoladoTrecho(Collapse(s), a, b);
  }

  // ---------------------------------------------------------------------------
  // Lemmas: the characters other than whitespace
  // ---------------------------------------------------------------------------

  lemma NaoEspacosCons(c: char, s: string)
    ensures NaoEspacos([c] + s) == (if IsSpace(c) then "" else [c]) + NaoEspacos(s)
  {
    assert ([c] + s)[0] == c && ([c] + s)[1..] == s;
  }

  lemma {:induction false} NaoEspacosBranco(s: string)
    requires forall k :: 0 <= k < |s| ==> IsSpace(s[k])
    ensures NaoEspacos(s) == ""
  {
    if |s| > 0 {
      NaoEspacosBranco(s[1..]);
    }
  }

  lemma {:induction false} NaoEspacosPalavra(s: string)
    requires forall k :: 0 <= k < |s| ==> !IsSpace(s[k])
    ensures NaoEspacos(s) == s
  {
    if |s| > 0 {
      NaoEspacosPalavra(s[1..]);
    }
  }

  /** A match of `\s*\+\s*` holds no character but whitespace and its '+'. */
  lemma MaisTrechoConteudo(s: string, i: nat)
    requires MatchesAt(s, i, MaisAt)
    ensures NaoEspacos(s[i..i + MaisAt(s, i)]) == "+"
  {
    var n := MaisAt(s, i);
    var j := i + SpaceRun(s, i);
    assert s[i..i + n] == s[i..j] + ("+" + s[j + 1..i + n]);
    NaoEspacosBranco(s[i..j]);
    NaoEspacosBranco(s[j + 1..i + n]);
    NaoEspacosCons('+', s[j + 1..i + n]);
    NaoEspacosAppend(s[i..j], "+" + s[j + 1..i + n]);
  }

  lemma NaoEspacosMais()
    ensures NaoEspacos(" + ") == "+"
  {
    NaoEspacosCons(' ', "+ ");
    NaoEspacosCons('+', " ");
    NaoEspacosCons(' ', "");
  }

  /** The characters of the input consumed by one step of the
      substitution, and those the step writes, are the same. */
  lemma ConteudoPasso(s: string, i: nat)
    requires i < |s|
    ensures MatchesAt(s, i, MaisAt) ==>
              NaoEspacos(s[i..]) == "+" + NaoEspacos(s[i + MaisAt(s, i)..])
    ensures !MatchesAt(s, i, MaisAt) ==>
              NaoEspacos(s[i..]) == NaoEspacos([s[i]]) + NaoEspacos(s[i + 1..])
  {
    if MatchesAt(s, i, MaisAt) {
      var n := MaisAt(s, i);
      assert s[i..] == s[i..i + n] + s[i + n..];
      MaisTrechoConteudo(s, i);
      NaoEspacosAppend(s[i..i + n], s[i + n..]);
    } else {
      assert s[i..] == [s[i]] + s[i + 1..];
      NaoEspacosAppend([s[i]], s[i + 1..]);
    }
  }

  lemma ConteudoMais(x: string)
    ensures NaoEspacos(" + " + x) == "+" + NaoEspacos(x)
  {
    NaoEspacosMais();
    NaoEspacosAppend(" + ", x);
  }

  /** A matched step keeps the content when the rest of the
      substitution does. */
  lemma ConteudoCasa(s: string, i: nat, j: nat)
    requires i < |s| && MatchesAt(s, i, MaisAt) && j == i + MaisAt(s, i) && j <= |s|
    requires NaoEspacos(SubFrom(s, j, MaisAt, Mais)) == NaoEspacos(s[j..])
    ensures NaoEspacos(SubFrom(s, i, MaisAt, Mais)) == NaoEspacos(s[i..])
  {
    SubMaisPasso(s, i);
    ConteudoPasso(s, i);
    ConteudoMais(SubFrom(s, i + MaisAt(s, i), MaisAt, Mais));
  }

  /** A copied step keeps the content when the rest of the substitution
      does. */
  lemma ConteudoCopia(s: string, i: nat)
    requires i < |s| && !MatchesAt(s, i, MaisAt)
    requires NaoEspacos(SubFrom(s, i + 1, MaisAt, Mais)) == NaoEspacos(s[i + 1..])
    ensures NaoEspacos(SubFrom(s, i, MaisAt, Mais)) == NaoEspacos(s[i..])
  {
    SubMaisPasso(s, i);
    ConteudoPasso(s, i);
    NaoEspacosAppend([s[i]], SubFrom(s, i + 1, MaisAt, Mais));
  }

  lemma {:induction false} SubMaisConteudo(s: string, i: nat)
    requires i <= |s|
    ensures NaoEspacos(SubFrom(s, i, MaisAt, Mais)) == NaoEspacos(s[i..])
    decreases |s| - i
  {
    if i < |s| {
      if MatchesAt(s, i, MaisAt) {
        var j := i + MaisAt(s, i);
        SubMaisConteudo(s, j);
        ConteudoCasa(s, i, j);
      } else {
        SubMaisConteudo(s, i + 1);
        ConteudoCopia(s, i);
      }
    }
  }

  lemma {:induction false} TrimLeftConteudo(s: string)
    ensures NaoEspacos(TrimLeftSp(s)) == NaoEspacos(s)
  {
    if |s| > 0 && IsSpace(s[0]) {
      TrimLeftConteudo(s[1..]);
      assert s == [s[0]] + s[1..];
      NaoEspacosCons(s[0], s[1..]);
    }
  }

  lemma {:induction false} TrimRightConteudo(s: string)
    ensures NaoEspacos(TrimRightSp(s)) == NaoEspacos(s)
  {
    if |s| > 0 && IsSpace(s[|s| - 1]) {
      var p := s[..|s| - 1];
      TrimRightConteudo(p);
      assert s == p + [s[|s| - 1]];
      NaoEspacosAppend(p, [s[|s| - 1]]);
      NaoEspacosBranco([s[|s| - 1]]);
    }
  }

  lemma {:induction false} CollapseConteudo(s: string)
    ensures NaoEspacos(Collapse(s)) == NaoEspacos(s)
    decreases |s|
  {
    if |s| > 0 {
      if IsSpace(s[0]) {
        var t := TrimLeftSp(s);
        CollapseConteudo(t);
        TrimLeftConteudo(s);
        NaoEspacosCons(' ', Collapse(t));
      } else {
        var n := WordLen(s);
        WordLenFacts(s);
        CollapseConteudo(s[n..]);
        assert s == s[..n] + s[n..];
        NaoEspacosAppend(s[..n], s[n..]);
        NaoEspacosAppend(s[..n], Collapse(s[n..]));
        NaoEspacosPalavra(s[..n]);
      }
    }
  }

  lemma NormalizeConteudo(s: string)
    ensures NaoEspacos(NormalizeSpaces(s)) == NaoEspacos(s)
  {
    CollapseConteudo(s);
    TrimLeftConteudo(Collapse(s));
    TrimRightConteudo(TrimLeftSp(Collapse(s)));
  }

  // ---------------------------------------------------------------------------
  // corrigir_e_segmentar_descricao (d): cutting the tokens into components
  // ---------------------------------------------------------------------------

  /** The word lists the segmentation consults: `NAO_SEPARA` (words that
      never start a component), `PREP` (words after which the next word
      stays in the component) and `POSFIXO_LETRA_OK` (words a single
      letter may follow). */
  datatype Vocabulario = Vocabulario(naoSepara: set<string>, prep: set<string>, posfixo: set<string>)

  /** The state of the loop: the closed components, the words of the open
      one and `root_seen`. */
  datatype Estado = Estado(comps: seq<string>, cur: seq<string>, raiz: bool)

  /** `append_cur`: the open words, if any, become a component. */
  function Fechar(comps: seq<string>, cur: seq<string>): seq<string> {
    if |cur| > 0 then comps + [Strip(JoinSpace(cur))] else comps
  }

  /** One iteration of the loop over the tokens, branch by branch. */
  function Passo(v: Vocabulario, e: Estado, tok: string): Estado {
    if tok == "+" then Estado(Fechar(e.comps, e.cur), [], false)
    else if |tok| == 1 && |e.cur| > 0 && e.cur[|e.cur| - 1] in v.posfixo then
      Estado(e.comps, e.cur + [tok], true)
    else if tok in v.naoSepara || (|e.cur| > 0 && e.cur[|e.cur| - 1] in v.prep) then
      Estado(e.comps, e.cur + [tok], if tok !in v.naoSepara && |tok| > 2 then true else e.raiz)
    else if e.raiz && (|e.cur| == 0 || e.cur[|e.cur| - 1] !in v.prep) then
      Estado(Fechar(e.comps, e.cur), [tok], true)
    else
      Estado(e.comps, e.cur + [tok], true)
  }

  function Percorrer(v: Vocabulario, e: Estado, toks: seq<string>): Estado
    decreases |toks|
  {
    if |toks| == 0 then e else Percorrer(v, Passo(v, e, toks[0]), toks[1..])
  }

  /** The words of a list of components, in order. */
  function Palavras(cs: seq<string>): seq<string> {
    if |cs| == 0 then [] else Palavras(cs[..|cs| - 1]) + Split(cs[|cs| - 1])
  }

  function NaoMais(w: string): bool { w != "+" }

  /** A component: non-empty normalised text none of whose words is "+". */
  predicate Componente(c: string) {
    |c| > 0 && Normalized(c) && "+" !in Split(c)
  }

  /** The loop's invariant: closed components are components, open words
      are words other than "+". */
  predicate Valido(e: Estado) {
    (forall k :: 0 <= k < |e.comps| ==> Componente(e.comps[k]))
    && (forall k :: 0 <= k < |e.cur| ==> IsWord(e.cur[k]) && NaoMais(e.cur[k]))
  }

  /** Closing the open words adds exactly them, as one component. */
  lemma FecharPalavras(e: Estado)
    requires Valido(e)
    ensures var f := Fechar(e.comps, e.cur);
            Palavras(f) == Palavras(e.comps) + e.cur
            && forall k :: 0 <= k < |f| ==> Componente(f[k])
  {
    if |e.cur| > 0 {
      var f := Fechar(e.comps, e.cur);
      JoinSpaceNormalized(e.cur);
      SplitJoin(e.cur);
      var c := JoinSpace(e.cur);
      assert Strip(c) == c;
      assert f[..|f| - 1] == e.comps;
    }
  }

  lemma PassoValido(v: Vocabulario, e: Estado, tok: string)
    requires Valido(e) && IsWord(tok)
    ensures var p := Passo(v, e, tok);
            Valido(p) && Palavras(p.comps) + p.cur == Palavras(e.comps) + e.cur + (if tok == "+" then [] else [tok])
  {
    var p := Passo(v, e, tok);
    PassoForma(v, e, tok);
    FecharPalavras(e);
    if tok != "+" && p.comps == e.comps && p.cur == e.cur + [tok] {
      Anexar(e, tok, p.raiz);
    }
  }

  /** Each step either closes the open component on "+", adds the token to
      the open component, or closes it and opens a new one with the token. */
  lemma PassoForma(v: Vocabulario, e: Estado, tok: string)
    ensures var p := Passo(v, e, tok);
            (tok == "+" && p.comps == Fechar(e.comps, e.cur) && p.cur == [])
            || (tok != "+" && p.comps == e.comps && p.cur == e.cur + [tok])
            || (tok != "+" && p.comps == Fechar(e.comps, e.cur) && p.cur == [tok])
  {
  }

  /** Adding a word other than "+" to the open component. */
  lemma Anexar(e: Estado, tok: string, raiz: bool)
    requires Valido(e) && IsWord(tok) && tok != "+"
    ensures Valido(Estado(e.comps, e.cur + [tok], raiz))
  {
  }

  /** Along the loop, no word is lost, added or moved: the words of the
      closed components followed by the open words are the input words
      other than "+". */
  lemma {:induction false} PercorrerValido(v: Vocabulario, e: Estado, toks: seq<string>)
    requires Valido(e)
    requires forall k :: 0 <= k < |toks| ==> IsWord(toks[k])
    ensures var p := Percorrer(v, e, toks);
            Valido(p) && Palavras(p.comps) + p.cur == Palavras(e.comps) + e.cur + Filter(toks, NaoMais)
    decreases |toks|
  {
    if |toks| > 0 {
      var e1 := Passo(v, e, toks[0]);
      PassoValido(v, e, toks[0]);
      PercorrerValido(v, e1, toks[1..]);
      var p := Percorrer(v, e1, toks[1..]);
      assert toks == [toks[0]] + toks[1..];
      FilterCons(toks[0], toks[1..], NaoMais);
      Encadear(Palavras(p.comps) + p.cur, Palavras(e1.comps) + e1.cur, Palavras(e.comps) + e.cur,
               if toks[0] == "+" then [] else [toks[0]], Filter(toks[1..], NaoMais));
    }
  }

  /** What one step appends, followed by what the rest appends, is what
      the whole appends. */
  lemma Encadear<T>(fim: seq<T>, meio: seq<T>, inicio: seq<T>, passo: seq<T>, resto: seq<T>)
    requires meio == inicio + passo && fim == meio + resto
    ensures fim == inicio + (passo + resto)
  {
  }

  const Inicio := Estado([], [], false)

  /** The segmentation of a non-empty token list: every component is
      non-empty normalised text without a "+" word, and the components'
      words are the tokens other than "+", in their order. */
  function Segmentar(v: Vocabulario, toks: seq<string>): (comps: seq<string>)
    requires forall k :: 0 <= k < |toks| ==> IsWord(toks[k])
    ensures forall k :: 0 <= k < |comps| ==> Componente(comps[k])
    ensures Palavras(comps) == Filter(toks, NaoMais)
  {
    var e := Percorrer(v, Inicio, toks);
    PercorrerValido(v, Inicio, toks);
    FecharPalavras(e);
    Fechar(e.comps, e.cur)
  }

  /** The state `e` behind the components `c` closed before it. */
  function Desloca(c: seq<string>, e: Estado): Estado { Estado(c + e.comps, e.cur, e.raiz) }

  /** A step never looks at the closed components. */
  lemma PassoDesloca(v: Vocabulario, c: seq<string>, e: Estado, tok: string)
    ensures Passo(v, Desloca(c, e), tok) == Desloca(c, Passo(v, e, tok))
  {
    assert Fechar(c + e.comps, e.cur) == c + Fechar(e.comps, e.cur);
  }

  lemma {:induction false} PercorrerDesloca(v: Vocabulario, c: seq<string>, e: Estado, toks: seq<string>)
    ensures Percorrer(v, Desloca(c, e), toks) == Desloca(c, Percorrer(v, e, toks))
    decreases |toks|
  {
    if |toks| > 0 {
      PassoDesloca(v, c, e, toks[0]);
      PercorrerDesloca(v, c, Passo(v, e, toks[0]), toks[1..]);
    }
  }

  lemma {:induction false} PercorrerConcat(v: Vocabulario, e: Estado, a: seq<string>, b: seq<string>)
    ensures Percorrer(v, e, a + b) == Percorrer(v, Percorrer(v, e, a), b)
    decreases |a|
  {
    if |a| > 0 {
      assert (a + b)[1..] == a[1..] + b;
      PercorrerConcat(v, Passo(v, e, a[0]), a[1..], b);
    } else {
      assert a + b == b;
    }
  }

  /** A "+" token cuts the segmentation in two: the components of the
      tokens before it followed by those of the tokens after it. */
  lemma SegmentarMais(v: Vocabulario, a: seq<string>, b: seq<string>)
    requires forall k :: 0 <= k < |a| ==> IsWord(a[k])
    requires forall k :: 0 <= k < |b| ==> IsWord(b[k])
    ensures forall k :: 0 <= k < |a + ["+"] + b| ==> IsWord((a + ["+"] + b)[k])
    ensures Segmentar(v, a + ["+"] + b) == Segmentar(v, a) + Segmentar(v, b)
  {
    var ea := Percorrer(v, Inicio, a);
    var sa := Fechar(ea.comps, ea.cur);
    PercorrerConcat(v, Inicio, a, ["+"] + b);
    assert a + ["+"] + b == a + (["+"] + b);
    PercorrerConcat(v, ea, ["+"], b);
    assert Percorrer(v, ea, ["+"]) == Desloca(sa, Inicio);
    PercorrerDesloca(v, sa, Inicio, b);
    var eb := Percorrer(v, Inicio, b);
    assert Fechar(sa + eb.comps, eb.cur) == sa + Fechar(eb.comps, eb.cur);
  }

  // ---------------------------------------------------------------------------
  // corrigir_e_segmentar_descricao (a): basic cleanup
  // ---------------------------------------------------------------------------

  function Digito(c: char): bool { IsDigit(c) }
  function Maiuscula(c: char): bool { IsAsciiUpper(c) }
  function NaoQuebra(c: char): bool { c != '\n' }

  /** `$` without MULTILINE: the end of the text or just before a final
      newline. */
  predicate Fim(s: string, j: nat) {
    j == |s| || (j + 1 == |s| && s[j] == '\n')
  }

  /** `^\d+\s+`: a leading number and the whitespace after it. */
  function NumeroInicial(s: string, i: nat): nat {
    if i != 0 then 0
    else
      var d := CharRun(s, 0, Digito);
      var w := SpaceRun(s, d);
      if d > 0 && w > 0 then d + w else 0
  }

  /** The literal `k` at `j`, or -1 when the text there differs. */
  function Depois(s: string, j: int, k: string): int {
    if 0 <= j && j + |k| <= |s| && s[j..j + |k|] == k then j + |k| else -1
  }

  // `\s+PORT\s*344\s*/?\s*98\s*LISTA\s+[A-Z]\s*\d*`. Every quantifier
  // is followed by a character it cannot take, so the greedy match is the
  // only one.
  function Portaria344(s: string, i: nat): nat {
    var w := SpaceRun(s, i);
    var j1 := Depois(s, i + w, "PORT");
    if w == 0 || j1 < 0 then 0
    else
      var j2 := Depois(s, j1 + SpaceRun(s, j1), "344");
      if j2 < 0 then 0
      else
        var j3 := j2 + SpaceRun(s, j2);
        var j4 := if j3 < |s| && s[j3] == '/' then j3 + 1 else j3;
        var j5 := Depois(s, j4 + SpaceRun(s, j4), "98");
        if j5 < 0 then 0
        else
          var j6 := Depois(s, j5 + SpaceRun(s, j5), "LISTA");
          if j6 < 0 || SpaceRun(s, j6) == 0 then 0
          else
            var j7 := j6 + SpaceRun(s, j6);
            if j7 < |s| && IsAsciiUpper(s[j7]) then
              var j8 := j7 + 1 + SpaceRun(s, j7 + 1);
              j8 + CharRun(s, j8, Digito) - i
            else 0
  }

  /** `\bK\b.*`: the whole word `k` and the rest of its line. */
  function PalavraAteFimDaLinha(s: string, i: nat, k: string): nat {
    if WholeWordAt(s, i, k, false) then |k| + CharRun(s, i + |k|, NaoQuebra) else 0
  }

  /** The three alternatives of the regulation pattern, in order. */
  function Portaria(s: string, i: nat): nat {
    var n := Portaria344(s, i);
    if n > 0 then n
    else
      var m := PalavraAteFimDaLinha(s, i, "PORT");
      if m > 0 then m else PalavraAteFimDaLinha(s, i, "PORTARIA")
  }

  /** `\s+A EXCLUIR$|\bGENERICO(S)?\b`. */
  function ExcluirGenerico(s: string, i: nat): nat {
    var w := SpaceRun(s, i);
    var j := Depois(s, i + w, "A EXCLUIR");
    if w > 0 && j >= 0 && Fim(s, j) then j - i
    else FirstKeyLen(["GENERICOS", "GENERICO"], s, i, false)
  }

  function TrocarPontoEVirgula(s: string): (r: string)
    ensures ';' !in r
    ensures AllChars(s, Maiusculo) ==> AllChars(r, Maiusculo)
  {
    if |s| == 0 then ""
    else (if s[0] == ';' then " + " else [s[0]]) + TrocarPontoEVirgula(s[1..])
  }

  function Maiusculo(c: char): bool { UpperChar(c) == c }

  /** Step (a): upper case, stripped, without a leading number, the
      regulation note, the exclusion note or the word GENERICO(S), and
      with ';' turned into " + ". The result is upper-case text without
      ';'. */
  function Preparar(texto: string): (r: string)
    ensures IsUpperText(r) && ';' !in r
  {
    var t0 := Strip(Upper(texto));
    var t1 := Delete(t0, NumeroInicial);
    var t2 := Delete(t1, Portaria);
    var t3 := Delete(t2, ExcluirGenerico);
    UpperIsUpper(texto);
    StripKeeps(Upper(texto), Maiusculo);
    DeleteKeeps(t0, NumeroInicial, Maiusculo);
    DeleteKeeps(t1, Portaria, Maiusculo);
    DeleteKeeps(t2, ExcluirGenerico, Maiusculo);
    TrocarPontoEVirgula(t3)
  }

  /** Text that is already upper case, stripped and free of everything step
      (a) removes or replaces comes out of it unchanged. */
  lemma PrepararFixo(s: string)
    requires IsUpperText(s) && Strip(s) == s && ';' !in s
    requires forall j :: 0 <= j < |s| ==> !MatchesAt(s, j, NumeroInicial)
    requires forall j :: 0 <= j < |s| ==> !MatchesAt(s, j, Portaria)
    requires forall j :: 0 <= j < |s| ==> !MatchesAt(s, j, ExcluirGenerico)
    ensures Preparar(s) == s
  {
    assert Upper(s) == s;
    SubNoMatch(s, NumeroInicial, Nothing);
    SubNoMatch(s, Portaria, Nothing);
    SubNoMatch(s, ExcluirGenerico, Nothing);
    SemPontoEVirgula(s);
  }

  lemma {:induction false} SemPontoEVirgula(s: string)
    requires ';' !in s
    ensures TrocarPontoEVirgula(s) == s
  {
    if |s| > 0 {
      assert s[0] != ';';
      SemPontoEVirgula(s[1..]);
      assert s == [s[0]] + s[1..];
    }
  }

  // ---------------------------------------------------------------------------
  // corrigir_e_segmentar_descricao (b): the correction dictionary
  // ---------------------------------------------------------------------------

  function Constante(c: string): string -> string { (m: string) => c }

  /** The loop over `DICIONARIO_CORRECAO_PRODUTO`: each wrong spelling, as
      a whole word and ignoring case, becomes its correction, one entry
      after the other. */
  function Corrigir(t: string, dic: seq<(string, string)>): string
    decreases |dic|
  {
    if |dic| == 0 then t
    else Corrigir(Sub(t, WholeWords([dic[0].0], true), Constante(dic[0].1)), dic[1..])
  }

  // ---------------------------------------------------------------------------
  // corrigir_e_segmentar_descricao (f): final cleanup
  // ---------------------------------------------------------------------------

  /** How many times " w" follows position `j`, each time ending on a word
      boundary: the greedy `(?: \1\b)+` for the captured word `w`. */
  function Repeticoes(s: string, j: nat, w: string): nat
    decreases |s| - j
  {
    var e := j + 1 + |w|;
    if |w| > 0 && e <= |s| && s[j..e] == " " + w && Boundary(s, e) then 1 + Repeticoes(s, e, w) else 0
  }

  /** `\b(\w+)(?: \1\b)+`: a word repeated right after itself, once or
      more, separated by single spaces. A shorter capture never matches,
      since a space would then have to follow a word character, so the
      captured word is the whole run of word characters. */
  function PalavraRepetida(s: string, i: nat): nat {
    if !(Boundary(s, i) && WordAt(s, i)) then 0
    else
      var n := CharRun(s, i, IsWordChar);
      var k := Repeticoes(s, i + n, s[i..i + n]);
      if k > 0 then n + k * (n + 1) else 0
  }

  /** The replacement `\1`: the leading word of the match. */
  function PrimeiraPalavra(m: string): string { m[..CharRun(m, 0, IsWordChar)] }

  /** `^\+\s*|\s*\+$`: a '+' that opens the text with the whitespace after
      it, or a '+' that closes it with the whitespace before it. */
  function MaisNasPontas(s: string, i: nat): nat {
    if i == 0 && |s| > 0 && s[0] == '+' then 1 + SpaceRun(s, 1)
    else
      var j := i + SpaceRun(s, i);
      if j < |s| && s[j] == '+' && Fim(s, j + 1) then j + 1 - i else 0
  }

  /** The repeated words collapsed and '+' given single spaces. */
  function Desdobrar(t: string): string {
    var a := Sub(t, PalavraRepetida, PrimeiraPalavra);
    Strip(Sub(a, MaisAt, Mais))
  }

  /** Step (f) as the source writes it: after the repeated words and the
      spaces around '+', one pass deleting a leading and a trailing '+',
      then whitespace normalisation. */
  function LimparFinal(t: string): string {
    NormalizeSpaces(Delete(Desdobrar(t), MaisNasPontas))
  }

  /** No '+' at either end. */
  predicate SemMaisNasPontas(s: string) {
    |s| == 0 || (s[0] != '+' && s[|s| - 1] != '+')
  }

  /** One pass is not enough: "++X" keeps a leading '+'. The two '+'
      become " +  + X", of which the pass deletes only the first. */
  lemma MaisInicialSobra()
    ensures LimparFinal("++X") == "+ X"
    ensures !SemMaisNasPontas(LimparFinal("++X"))
  {
    ExemploDesdobrar();
    ExemploPontas();
    NormalizedFixed("+ X");
  }

  lemma ExemploDesdobrar()
    ensures Desdobrar("++X") == "+  + X"
  {
    ExemploSemRepeticao();
    ExemploMais();
    ExemploStrip();
  }

  lemma ExemploStrip()
    ensures Strip(" +  + X") == "+  + X"
  {
    assert TrimLeftSp(" +  + X") == "+  + X";
  }

  lemma ExemploSemRepeticao()
    ensures Sub("++X", PalavraRepetida, PrimeiraPalavra) == "++X"
  {
    var s := "++X";
    assert !MatchesAt(s, 0, PalavraRepetida) && !MatchesAt(s, 1, PalavraRepetida);
    assert CharRun(s, 2, IsWordChar) == 1;
    assert Repeticoes(s, 3, "X") == 0;
    assert !MatchesAt(s, 2, PalavraRepetida);
    SubNoMatch(s, PalavraRepetida, PrimeiraPalavra);
  }

  lemma ExemploMais()
    ensures Sub("++X", MaisAt, Mais) == " +  + X"
  {
    var s := "++X";
    assert MaisAt(s, 0) == 1 && MaisAt(s, 1) == 1 && MaisAt(s, 2) == 0;
    assert SubFrom(s, 2, MaisAt, Mais) == "X";
    assert SubFrom(s, 1, MaisAt, Mais) == " + X";
  }

  lemma ExemploPontas()
    ensures Delete("+  + X", MaisNasPontas) == "+ X"
  {
    var c := "+  + X";
    assert MaisNasPontas(c, 0) == 3;
    assert MaisNasPontas(c, 3) == 0 && MaisNasPontas(c, 4) == 0 && MaisNasPontas(c, 5) == 0;
    assert SubFrom(c, 5, MaisNasPontas, Nothing) == "X";
    assert SubFrom(c, 4, MaisNasPontas, Nothing) == " X";
    assert SubFrom(c, 3, MaisNasPontas, Nothing) == "+ X";
  }

  /** Step (f) as intended: every '+' and space at either end goes, however
      many there are. The result is normalised, every '+' in it stands
      alone, and none is at an end. */
  function LimparFinalCorrigida(t: string): (r: string)
    ensures Normalized(r) && Isolado(r) && SemMaisNasPontas(r)
  {
    var n := NormalizeSpaces(Desdobrar(t));
    DesdobrarIsolado(t);
    NormalizeIsolado(Desdobrar(t));
    PontasLimpas(n);
    StripSet(n, {' ', '+'})
  }

  /** Where there is no '+' to remove the two cleanups agree: the
      single pass only goes wrong on repeated '+' at an end
      (`MaisInicialSobra`). */
  lemma LimparFinalSemMais(t: string)
    requires '+' !in Desdobrar(t)
    ensures LimparFinal(t) == LimparFinalCorrigida(t)
  {
    var x := Desdobrar(t);
    forall j | 0 <= j < |x| ensures !MatchesAt(x, j, MaisNasPontas) {
      assert x[j] != '+';
    }
    SubNoMatch(x, MaisNasPontas, Nothing);
    var n := NormalizeSpaces(x);
    var semMais := (c: char) => c != '+';
    assert AllChars(x, semMais);
    NormalizeSpacesKeeps(x, semMais);
    assert TrimLeftSet(n, {' ', '+'}) == n;
    assert TrimRightSet(n, {' ', '+'}) == n;
  }

  lemma DesdobrarIsolado(t: string)
    ensures Isolado(Desdobrar(t))
  {
    var a := Sub(t, PalavraRepetida, PrimeiraPalavra);
    var x := Sub(a, MaisAt, Mais);
    SubMaisCercado(a, 0);
    CercadoIsolado(x);
    var i, j := StripTrecho(x);
    IsoladoTrecho(x, i, j);
  }

  /** Stripping spaces and '+' from the ends of normalised text keeps it
      normalised and keeps every '+' alone. */
  lemma PontasLimpas(n: string)
    requires Normalized(n) && Isolado(n)
    ensures var r := StripSet(n, {' ', '+'});
            Normalized(r) && Isolado(r) && SemMaisNasPontas(r)
  {
    var p, q := StripSetTrecho(n, {' ', '+'});
    IsoladoTrecho(n, p, q);
    NormalizedTrecho(n, p, q);
  }

  lemma CercadoIsolado(s: string)
    requires Cercado(s)
    ensures Isolado(s)
  {
  }

  lemma TrimLeftSetSuffix(s: string, cs: set<char>)
    ensures TrimLeftSet(s, cs) == s[|s| - |TrimLeftSet(s, cs)|..]
  {
  }

  /** `strip(chars)` is a slice. */
  lemma StripSetTrecho(s: string, cs: set<char>) returns (a: nat, b: nat)
    ensures a <= b <= |s| && StripSet(s, cs) == s[a..b]
  {
    var l := TrimLeftSet(s, cs);
    TrimLeftSetSuffix(s, cs);
    TrimRightSetPrefix(l, cs);
    a := |s| - |l|;
    b := a + |TrimRightSet(l, cs)|;
  }

  /** A slice of normalised text that neither starts nor ends with a space
      is normalised. */
  lemma NormalizedTrecho(s: string, a: nat, b: nat)
    requires Normalized(s) && a <= b <= |s|
    requires a == b || (s[a] != ' ' && s[b - 1] != ' ')
    ensures Normalized(s[a..b])
  {
    var t := s[a..b];
    assert forall k :: 0 <= k < |t| ==> t[k] == s[a + k];
  }

  // ---------------------------------------------------------------------------
  // corrigir_e_segmentar_descricao
  // ---------------------------------------------------------------------------

  /** The dictionaries of the product module: the spelling corrections,
      the pre-fusion rules `PRE_REPLACERS` and the final rules
      `POST_FIX_RULES` (each a sequence of regular-expression substitutions,
      given here as the text function it computes), and the segmentation
      word lists. */
  datatype Dicionarios = Dicionarios(
    correcoes: seq<(string, string)>,
    preFusao: string -> string,
    vocabulario: Vocabulario,
    posFixos: string -> string)

  /** `corrigir_e_segmentar_descricao`: anything but text, and blank text,
      comes back as it is. Otherwise the result is text that is either
      blank or normalised; the final cleanup is the source's single pass
      (`LimparFinal`), which can leave a '+' at an end. */
  function CorrigirESegmentar(v: Value, d: Dicionarios): (r: Value)
    ensures !v.Str? || Strip(v.s) == "" ==> r == v
    ensures v.Str? && Strip(v.s) != "" ==> r.Str? && (Split(r.s) == [] || Normalized(r.s))
  {
    if !v.Str? || Strip(v.s) == "" then v
    else
      var t := d.preFusao(Corrigir(Preparar(v.s), d.correcoes));
      var toks := Split(t);
      if |toks| == 0 then Str(t)
      else
        var comps := Segmentar(d.vocabulario, toks);
        Str(LimparFinal(d.posFixos(Join(Distinct(comps), " + "))))
  }

  /** The intended `corrigir_e_segmentar_descricao`: the same with the
      cleanup that removes every '+' at an end. The result is then blank
      or normalised, with every '+' standing alone and none at an end. */
  function CorrigirESegmentarCorrigida(v: Value, d: Dicionarios): (r: Value)
    ensures !v.Str? || Strip(v.s) == "" ==> r == v
    ensures v.Str? && Strip(v.s) != "" ==>
              r.Str? && (Split(r.s) == [] || (Normalized(r.s) && Isolado(r.s) && SemMaisNasPontas(r.s)))
  {
    if !v.Str? || Strip(v.s) == "" then v
    else
      var t := d.preFusao(Corrigir(Preparar(v.s), d.correcoes));
      var toks := Split(t);
      if |toks| == 0 then Str(t)
      else
        var comps := Segmentar(d.vocabulario, toks);
        Str(LimparFinalCorrigida(d.posFixos(Join(Distinct(comps), " + "))))
  }

  // ---------------------------------------------------------------------------
  // criar_backup_produto and aplicar_segmentacao_produto
  // ---------------------------------------------------------------------------

  const Original := "PRODUTO_ORIGINAL"
  const ColStatus := "STATUS"

  /** The statuses the segmentation applies to, with and without accents. */
  predicate Generico(v: Value) {
    v == Str("GENERICO") || v == Str("GENERICO REFERENCIA") || v == Str("GENÉRICO") || v == Str("GENÉRICO REFERÊNCIA")
  }

  /** The product name row `i` is segmented from: the backup when there is
      one, the product column otherwise (the backup is made from it). */
  function Fonte(t: Table, i: nat): Value
    requires i < |t.rows|
  {
    if Original in t.cols then Get(t.rows[i], Original) else Get(t.rows[i], ColProduto)
  }

  function ColunaBackup(r: Row): Value { Get(r, ColProduto) }

  function ColunaSegmentada(repr: Value -> string, d: Dicionarios): Row -> Value {
    (r: Row) =>
      if Generico(Get(r, ColStatus)) then CorrigirESegmentar(Str(Texto(Get(r, Original), repr)), d)
      else Get(r, Original)
  }

  /** `criar_backup_produto`: the backup column is made once, from the
      product column, and never overwritten. */
  function CriarBackup(t: Table): (r: Result<Table>)
    requires WellFormed(t)
    ensures r.Err? <==> Original !in t.cols && ColProduto !in t.cols
    ensures r.Ok? ==> WellFormed(r.value) && |r.value.rows| == |t.rows| && Original in r.value.cols
    ensures r.Ok? ==> forall c :: c in r.value.cols <==> c in t.cols || c == Original
    ensures r.Ok? ==> forall i :: 0 <= i < |t.rows| ==> Get(r.value.rows[i], Original) == Fonte(t, i)
    ensures r.Ok? ==> forall i, c :: 0 <= i < |t.rows| && c != Original ==> Get(r.value.rows[i], c) == Get(t.rows[i], c)
  {
    if Original in t.cols then Ok(t)
    else if ColProduto !in t.cols then Err(KeyError(ColProduto))
    else Ok(SetCol(t, Original, ColunaBackup))
  }

  /** `aplicar_segmentacao_produto`: fails when the status column is
      missing, or when there is neither a backup nor a product column.
      Otherwise the backup holds the original names, the product column of
      a generic row holds its corrected and segmented original name and
      that of any other row the original name itself; no other cell
      changes. */
  function AplicarSegmentacao(t: Table, repr: Value -> string, d: Dicionarios): (r: Result<Table>)
    requires WellFormed(t)
    ensures r.Err? <==> (Original !in t.cols && ColProduto !in t.cols) || ColStatus !in t.cols
    ensures r.Ok? ==> WellFormed(r.value) && |r.value.rows| == |t.rows|
    ensures r.Ok? ==> forall c :: c in r.value.cols <==> c in t.cols || c == Original || c == ColProduto
    ensures r.Ok? ==> forall i :: 0 <= i < |t.rows| ==> Get(r.value.rows[i], Original) == Fonte(t, i)
    ensures r.Ok? ==> forall i :: 0 <= i < |t.rows| ==>
              Get(r.value.rows[i], ColProduto)
              == (if Generico(Get(t.rows[i], ColStatus)) then CorrigirESegmentar(Str(Texto(Fonte(t, i), repr)), d)
                  else Fonte(t, i))
    ensures r.Ok? ==> forall i, c :: 0 <= i < |t.rows| && c != Original && c != ColProduto ==>
              Get(r.value.rows[i], c) == Get(t.rows[i], c)
  {
    var b := CriarBackup(t);
    if b.Err? then b
    else if ColStatus !in t.cols then Err(KeyError(ColStatus))
    else Ok(SetCol(b.value, ColProduto, ColunaSegmentada(repr, d)))
  }

  /** The backup makes the step re-runnable: applying it to its own output
      gives that output again. */
  lemma SegmentacaoReexecutavel(t: Table, repr: Value -> string, d: Dicionarios)
    requires WellFormed(t) && AplicarSegmentacao(t, repr, d).Ok?
    ensures var r := AplicarSegmentacao(t, repr, d).value;
            AplicarSegmentacao(r, repr, d) == Ok(r)
  {
    var r := AplicarSegmentacao(t, repr, d).value;
    var r2 := AplicarSegmentacao(r, repr, d);
    assert r2.Ok?;
    var u := r2.value;
    assert u.cols == r.cols;
    forall i | 0 <= i < |u.rows| ensures u.rows[i] == r.rows[i] {
      assert Fonte(r, i) == Fonte(t, i);
      forall c | c in r.cols ensures Get(u.rows[i], c) == Get(r.rows[i], c) {
      }
      SameRow(u, r, i);
    }
    assert u.rows == r.rows;
  }
}
