/** Product-name refinement (`pipelines/nfe/src/nfe_refinamento_nomes.py`):
    rows named DELETAR are dropped, the extracted name is copied to
    NOME_PRODUTO_LIMPO, and six stages rewrite it in cascade: override by
    the original description, isolated letters removed, abbreviations
    expanded, chemical names reordered, business rules, and the fuzzy
    correction dictionary. Every stage leaves alone the rows whose current
    name is already in the master set of registered products. A final
    cleanup, applied to every row, collapses whitespace, trims ';', '+'
    and spaces at the ends and cuts the name to 100 characters. The master
    set, the rule files and the dictionaries are loaded from disk; the
    model takes them as parameters. */
module RefinamentoNomes {
  import opened Wrappers
  import opened Text
  import opened Scan
  import opened Frame
  import opened Seqs
  import Produto

  const Np := "NOME_PRODUTO"
  const Limpo := "NOME_PRODUTO_LIMPO"
  const Desc := "descricao_produto"
  const Deletar := "DELETAR"

  // ---------------------------------------------------------------------------
  // Rule lists and dictionaries
  // ---------------------------------------------------------------------------

  /** A JSON object of text to text, as its pairs in file order. */
  type Dicionario = seq<(string, string)>

  function Chaves(d: Dicionario): seq<string> { seq(|d|, i requires 0 <= i < |d| => d[i].0) }

  /** `d.get(k)`: the value of the first pair with key `k` (the keys of a
      JSON object are distinct, so it is the only one). */
  function Procurar(d: Dicionario, k: string): (r: Option<string>)
    ensures r.None? <==> forall j :: 0 <= j < |d| ==> d[j].0 != k
    ensures r.Some? ==> exists j :: 0 <= j < |d| && d[j] == (k, r.value)
  {
    if d == [] then None
    else if d[0].0 == k then Some(d[0].1)
    else
      var r := Procurar(d[1..], k);
      assert forall j :: 1 <= j < |d| ==> d[j] == d[1..][j - 1];
      r
  }

  /** Rule `j` is the first of the list that applies. */
  predicate EhPrimeira<R>(rs: seq<R>, casa: R -> bool, j: int) {
    0 <= j < |rs| && casa(rs[j]) && forall q :: 0 <= q < j ==> !casa(rs[q])
  }

  /** The first rule from `i` on that applies, as the pipeline's loops with
      an early `return` find it. */
  function Primeira<R>(rs: seq<R>, casa: R -> bool, i: nat): (r: Option<nat>)
    requires i <= |rs|
    ensures r.Some? ==> i <= r.value < |rs| && casa(rs[r.value]) && forall q :: i <= q < r.value ==> !casa(rs[q])
    ensures r.None? ==> forall q :: i <= q < |rs| ==> !casa(rs[q])
    decreases |rs| - i
  {
    if i == |rs| then None
    else if casa(rs[i]) then Some(i)
    else Primeira(rs, casa, i + 1)
  }

  // ---------------------------------------------------------------------------
  // aplicar_regras_override_descricao
  // ---------------------------------------------------------------------------

  /** An override rule: when every pattern occurs in the description, the
      name becomes the substitution. */
  datatype Override = Override(padroes: seq<string>, substituicao: string)

  function CasaDescricao(desc: string): Override -> bool {
    (o: Override) => forall k :: 0 <= k < |o.padroes| ==> Contains(desc, Upper(o.padroes[k]))
  }

  /** Override by description: the substitution of the first rule whose
      upper-cased patterns all occur in the upper-cased text of the
      description (a rule without patterns always applies); the current
      name when none applies. */
  function AplicarOverride(desc: Value, atual: Value, regras: seq<Override>, repr: Value -> string): (r: Value)
    ensures var d := Upper(Texto(desc, repr));
            (exists j :: EhPrimeira(regras, CasaDescricao(d), j) && r == Str(regras[j].substituicao))
            || ((forall j :: 0 <= j < |regras| ==> !CasaDescricao(d)(regras[j])) && r == atual)
  {
    var d := Upper(Texto(desc, repr));
    match Primeira(regras, CasaDescricao(d), 0)
    case Some(j) => assert EhPrimeira(regras, CasaDescricao(d), j); Str(regras[j].substituicao)
    case None => atual
  }

  // ---------------------------------------------------------------------------
  // limpar_letras_isoladas
  // ---------------------------------------------------------------------------

  function NaoLetra<T(==)>(letras: set<T>): T -> bool { (w: T) => w !in letras }

  /** The loop from word `i` on: a word outside the letter set is kept; a
      letter is kept only when the word before it in the ORIGINAL list is
      a permitted term. Words outside the letter set all survive, in
      order. */
  function Manter<T(==)>(ws: seq<T>, i: nat, letras: set<T>, permitidos: set<T>): (r: seq<T>)
    requires i <= |ws|
    ensures |r| <= |ws| - i
    ensures forall k :: 0 <= k < |r| ==> r[k] in ws[i..]
    ensures Filter(r, NaoLetra(letras)) == Filter(ws[i..], NaoLetra(letras))
    decreases |ws| - i
  {
    if i == |ws| then []
    else
      var resto := Manter(ws, i + 1, letras, permitidos);
      var r := if ws[i] !in letras || (i > 0 && ws[i - 1] in permitidos) then [ws[i]] + resto else resto;
      ManterPasso(ws, i, letras, resto, r);
      r
  }

  /** The step of `Manter`: keeping or dropping word `i`. */
  lemma ManterPasso<T>(ws: seq<T>, i: nat, letras: set<T>, resto: seq<T>, r: seq<T>)
    requires i < |ws|
    requires |resto| <= |ws| - (i + 1)
    requires forall k :: 0 <= k < |resto| ==> resto[k] in ws[i + 1..]
    requires Filter(resto, NaoLetra(letras)) == Filter(ws[i + 1..], NaoLetra(letras))
    requires r == [ws[i]] + resto || (r == resto && ws[i] in letras)
    ensures |r| <= |ws| - i
    ensures forall k :: 0 <= k < |r| ==> r[k] in ws[i..]
    ensures Filter(r, NaoLetra(letras)) == Filter(ws[i..], NaoLetra(letras))
  {
    ManterPassoFiltro(ws, i, letras, resto, r);
    forall k | 0 <= k < |r| ensures r[k] in ws[i..] {
      if r == [ws[i]] + resto && k > 0 {
        assert r[k] == resto[k - 1];
        var j :| 0 <= j < |ws[i + 1..]| && ws[i + 1..][j] == r[k];
        assert ws[i..][j + 1] == r[k];
      } else if r == [ws[i]] + resto {
        assert ws[i..][0] == r[k];
      } else {
        var j :| 0 <= j < |ws[i + 1..]| && ws[i + 1..][j] == r[k];
        assert ws[i..][j + 1] == r[k];
      }
    }
  }

  lemma ManterPassoFiltro<T>(ws: seq<T>, i: nat, letras: set<T>, resto: seq<T>, r: seq<T>)
    requires i < |ws|
    requires Filter(resto, NaoLetra(letras)) == Filter(ws[i + 1..], NaoLetra(letras))
    requires r == [ws[i]] + resto || (r == resto && ws[i] in letras)
    ensures Filter(r, NaoLetra(letras)) == Filter(ws[i..], NaoLetra(letras))
  {
    FiltroDesde(ws, i, NaoLetra(letras));
    if r == [ws[i]] + resto {
      FilterCons(ws[i], resto, NaoLetra(letras));
    }
  }

  /** `limpar_letras_isoladas`: anything that is not text gives the empty
      name; text keeps its words outside the letter set, in order, joined
      by single spaces. */
  function LimparLetras(v: Value, letras: set<string>, permitidos: set<string>): (r: Value)
    ensures r.Str? && Normalized(r.s)
    ensures !v.Str? ==> r.s == ""
    ensures v.Str? ==> Filter(Split(r.s), NaoLetra(letras)) == Filter(Split(v.s), NaoLetra(letras))
  {
    if !v.Str? then Str("")
    else
      var ws := Split(v.s);
      var m := Manter(ws, 0, letras, permitidos);
      assert ws[0..] == ws;
      assert forall k :: 0 <= k < |m| ==> IsWord(m[k]);
      JoinSpaceNormalized(m);
      SplitJoin(m);
      Str(JoinSpace(m))
  }

  /** Without permitted terms every isolated letter goes: the words kept
      are exactly those outside the letter set. */
  lemma {:induction false} ManterSemPermitidos<T>(ws: seq<T>, i: nat, letras: set<T>, permitidos: set<T>)
    requires i <= |ws| && forall k :: 0 <= k < |ws| ==> ws[k] !in permitidos
    ensures Manter(ws, i, letras, permitidos) == Filter(ws[i..], NaoLetra(letras))
    decreases |ws| - i
  {
    if i < |ws| {
      var resto := Manter(ws, i + 1, letras, permitidos);
      ManterSemPermitidos(ws, i + 1, letras, permitidos);
      FiltroDesde(ws, i, NaoLetra(letras));
      assert i > 0 ==> ws[i - 1] !in permitidos;
      ManterDesde(ws, i, letras, permitidos);
    }
  }

  /** Filtering from `i` is deciding on word `i`, then filtering the rest. */
  lemma FiltroDesde<T>(ws: seq<T>, i: nat, p: T -> bool)
    requires i < |ws|
    ensures Filter(ws[i..], p) == if p(ws[i]) then [ws[i]] + Filter(ws[i + 1..], p) else Filter(ws[i + 1..], p)
  {
    assert ws[i..][0] == ws[i] && ws[i..][1..] == ws[i + 1..];
    assert [] + Filter(ws[i + 1..], p) == Filter(ws[i + 1..], p);
  }

  /** One step of `Manter`. */
  lemma ManterDesde<T>(ws: seq<T>, i: nat, letras: set<T>, permitidos: set<T>)
    requires i < |ws|
    ensures Manter(ws, i, letras, permitidos) ==
      if ws[i] !in letras || (i > 0 && ws[i - 1] in permitidos) then [ws[i]] + Manter(ws, i + 1, letras, permitidos)
      else Manter(ws, i + 1, letras, permitidos)
  {
  }

  /** A letter is judged by the word before it in the original name, even
      when that word is itself a letter that was dropped: in "Y A B", with
      A and B letters and only A permitted, A goes and B stays. */
  lemma LetraJulgadaPeloOriginal()
    ensures Manter(["Y", "A", "B"], 0, {"A", "B"}, {"A"}) == ["Y", "B"]
  {
    var ws := ["Y", "A", "B"];
    assert Manter(ws, 3, {"A", "B"}, {"A"}) == [];
    assert Manter(ws, 2, {"A", "B"}, {"A"}) == ["B"];
    assert Manter(ws, 1, {"A", "B"}, {"A"}) == ["B"];
  }

  // ---------------------------------------------------------------------------
  // expandir_abreviacoes
  // ---------------------------------------------------------------------------

  /** The replacement of one abbreviation: its upper-cased text looked up
      in the mapping, the matched text itself when it has no entry. */
  function Expansao(abrev: Dicionario): string -> string {
    (t: string) => match Procurar(abrev, Upper(t)) case Some(x) => x case None => t
  }

  /** `\b(k1|k2|...)\b` with IGNORECASE over the mapping's keys. */
  function Abreviacoes(abrev: Dicionario): Matcher { WholeWords(Chaves(abrev), true) }

  /** `expandir_abreviacoes`: a value that is not text, or an empty
      mapping, leaves the name as it is; otherwise every whole-word
      abbreviation is replaced, left to right. */
  function Expandir(v: Value, abrev: Dicionario): (r: Value)
    ensures !v.Str? || abrev == [] ==> r == v
    ensures v.Str? ==> r.Str?
  {
    if !v.Str? || abrev == [] then v
    else Str(Sub(v.s, Abreviacoes(abrev), Expansao(abrev)))
  }

  /** A name in which no abbreviation occurs as a whole word is left as it
      is. */
  lemma ExpandirSemAbreviacao(s: string, abrev: Dicionario)
    requires forall j :: 0 <= j < |s| ==> !MatchesAt(s, j, Abreviacoes(abrev))
    ensures Expandir(Str(s), abrev) == Str(s)
  {
    if abrev != [] {
      SubNoMatch(s, Abreviacoes(abrev), Expansao(abrev));
    }
  }

  /** A name that is exactly the first abbreviation becomes its expansion:
      the match is case-insensitive and the lookup goes by the upper-cased
      text. */
  lemma ExpandirPalavra(s: string, abrev: Dicionario, x: string)
    requires |abrev| > 0 && abrev[0].0 == s && |s| > 0
    requires IsWordChar(s[0]) && IsWordChar(s[|s| - 1])
    requires Procurar(abrev, Upper(s)) == Some(x)
    ensures Expandir(Str(s), abrev) == Str(x)
  {
    PrimeiraChaveCasa(s, abrev);
    SubTodo(s, Abreviacoes(abrev), Expansao(abrev));
  }

  /** A word in the sense of `\w+`: non-empty, made of word characters. */
  predicate PalavraW(w: string) { |w| > 0 && forall j :: 0 <= j < |w| ==> IsWordChar(w[j]) }

  /** Each word expanded on its own. */
  function Expandidas(ws: seq<string>, abrev: Dicionario): (r: seq<string>)
    ensures |r| == |ws| && forall k :: 0 <= k < |ws| ==> r[k] == Expansao(abrev)(ws[k])
  {
    Mapeadas(ws, Expansao(abrev))
  }

  function Mapeadas(ws: seq<string>, f: string -> string): (r: seq<string>)
    ensures |r| == |ws|
  {
    seq(|ws|, k requires 0 <= k < |ws| => f(ws[k]))
  }

  /** On a name of single-spaced words, with abbreviations made of word
      characters, expansion goes word by word: a word equal to some
      abbreviation up to case becomes the mapping's value for its
      upper-cased text (or stays, when that has no entry), and every other
      word stays. Python's `re.sub` with `\b(k1|k2|...)\b` over the name
      gives the words expanded one by one, joined by single spaces. */
  lemma ExpandirPalavras(ws: seq<string>, abrev: Dicionario)
    requires Palavras(ws) && ChavesPalavras(abrev)
    ensures Expandir(Str(JoinSpace(ws)), abrev) == Str(JoinSpace(Expandidas(ws, abrev)))
  {
    if abrev == [] {
      forall k | 0 <= k < |ws| ensures Expandidas(ws, abrev)[k] == ws[k] {
        assert Procurar(abrev, Upper(ws[k])) == None;
        assert Expansao(abrev)(ws[k]) == ws[k];
      }
      assert Expandidas(ws, abrev) == ws;
    } else {
      var s := JoinSpace(ws);
      assert Frase(s, 0, ws) by { assert s[0..] == s; }
      AbreviacoesIsoladas(s, abrev);
      SubPorPalavras(s, 0, ws, Abreviacoes(abrev), Expansao(abrev));
    }
  }

  /** A word-character stretch `s[j..e]` that starts a word and ends at a
      space or at the end of the text. */
  predicate Trecho(s: string, j: nat, e: nat) {
    j < e <= |s| && (forall k :: j <= k < e ==> IsWordChar(s[k]))
    && (j == 0 || !IsWordChar(s[j - 1])) && (e == |s| || s[e] == ' ')
  }

  /** A pattern that matches nothing at a space or inside a word, matches a
      whole stretch or nothing at its start, and whose replacement leaves
      an unmatched stretch alone. */
  ghost predicate Isolado(s: string, m: Matcher, rep: string -> string) {
    (forall j {:trigger m(s, j)} :: 0 <= j < |s| && s[j] == ' ' ==> m(s, j) == 0)
    && (forall j {:trigger m(s, j)} :: 0 < j < |s| && IsWordChar(s[j - 1]) && IsWordChar(s[j]) ==> m(s, j) == 0)
    && (forall j: nat, e: nat | Trecho(s, j, e) ::
          (m(s, j) == 0 || m(s, j) == e - j) && (m(s, j) == 0 ==> rep(s[j..e]) == s[j..e]))
  }

  /** The whole-word abbreviation pattern is such a pattern. */
  lemma AbreviacoesIsoladas(s: string, abrev: Dicionario)
    requires ChavesPalavras(abrev)
    ensures Isolado(s, Abreviacoes(abrev), Expansao(abrev))
  {
    forall j | 0 <= j < |s| && s[j] == ' ' ensures Abreviacoes(abrev)(s, j) == 0 {
      EspacoSemCasamento(s, j, abrev);
    }
    forall j | 0 < j < |s| && IsWordChar(s[j - 1]) && IsWordChar(s[j]) ensures Abreviacoes(abrev)(s, j) == 0 {
      DentroDePalavra(s, j, abrev);
    }
    forall j: nat, e: nat | Trecho(s, j, e)
      ensures var n := Abreviacoes(abrev)(s, j);
              (n == 0 || n == e - j) && (n == 0 ==> Expansao(abrev)(s[j..e]) == s[j..e])
    {
      InicioDePalavra(s, j, e, abrev);
    }
  }

  /** Inside a word there is no word boundary, so nothing matches. */
  lemma DentroDePalavra(s: string, j: nat, abrev: Dicionario)
    requires 0 < j < |s| && IsWordChar(s[j - 1]) && IsWordChar(s[j])
    ensures Abreviacoes(abrev)(s, j) == 0
  {
    assert !Boundary(s, j);
  }

  /** A word that matches no abbreviation up to case is its own expansion. */
  lemma ExpansaoSemChave(w: string, abrev: Dicionario)
    requires forall j :: 0 <= j < |abrev| ==> Upper(abrev[j].0) != Upper(w)
    ensures Expansao(abrev)(w) == w
  {
    UpperIsUpper(w);
  }

  /** The substitution by such a pattern, from a word start over the
      remaining words, writes every word replaced on its own. */
  lemma {:induction false} SubPorPalavras(s: string, i: nat, ws: seq<string>, m: Matcher, rep: string -> string)
    requires Estado(s, i, ws, m, rep)
    ensures SubFrom(s, i, m, rep) == JoinSpace(Mapeadas(ws, rep))
    decreases |ws|
  {
    if |ws| == 0 {
      assert i == |s|;
    } else {
      var e := i + |ws[0]|;
      PrimeiraSubstituida(s, i, e, ws, m, rep);
      MapeadasCabeca(ws, rep);
      if |ws| > 1 {
        SubPorPalavras(s, e + 1, ws[1..], m, rep);
        SubEspaco(s, i, e, m, rep, rep(ws[0]), JoinSpace(Mapeadas(ws[1..], rep)));
      }
    }
  }

  /** The first word is replaced on its own, and the rest of the text
      follows it after one space. */
  lemma PrimeiraSubstituida(s: string, i: nat, e: nat, ws: seq<string>, m: Matcher, rep: string -> string)
    requires Estado(s, i, ws, m, rep) && |ws| > 0 && e == i + |ws[0]|
    ensures e <= |s| && SubFrom(s, i, m, rep) == rep(ws[0]) + SubFrom(s, e, m, rep)
    ensures |ws| == 1 ==> e == |s|
    ensures |ws| > 1 ==> e < |s| && s[e] == ' ' && !MatchesAt(s, e, m) && Estado(s, e + 1, ws[1..], m, rep)
  {
    PrimeiraPalavra(s, i, e, ws);
    assert Trecho(s, i, e);
    forall j | i < j < e ensures m(s, j) == 0 {
      assert IsWordChar(s[j - 1]) && IsWordChar(s[j]);
    }
    SubTrecho(s, i, e, m, rep);
  }

  /** The hypotheses of the word-by-word substitution at position `i`. */
  ghost predicate Estado(s: string, i: nat, ws: seq<string>, m: Matcher, rep: string -> string) {
    Frase(s, i, ws) && Isolado(s, m, rep)
  }

  /** From position `i` on, the text is the words joined by single spaces,
      and `i` starts a word (or the text). */
  predicate Frase(s: string, i: nat, ws: seq<string>) {
    i <= |s| && s[i..] == JoinSpace(ws) && (i == 0 || s[i - 1] == ' ') && Palavras(ws)
  }

  predicate Palavras(ws: seq<string>) { forall k :: 0 <= k < |ws| ==> PalavraW(ws[k]) }

  predicate ChavesPalavras(abrev: Dicionario) { forall j :: 0 <= j < |abrev| ==> PalavraW(abrev[j].0) }

  /** Where the first of the words sits in a text that ends with them. */
  lemma PrimeiraPalavra(s: string, i: nat, e: nat, ws: seq<string>)
    requires Frase(s, i, ws) && |ws| > 0 && e == i + |ws[0]|
    ensures i < e <= |s| && s[i..e] == ws[0]
    ensures forall j :: i <= j < e ==> IsWordChar(s[j])
    ensures i == 0 || !IsWordChar(s[i - 1])
    ensures |ws| == 1 ==> e == |s|
    ensures |ws| > 1 ==> e < |s| && s[e] == ' ' && Frase(s, e + 1, ws[1..])
  {
    var w := ws[0];
    assert PalavraW(w);
    var resto := if |ws| == 1 then "" else " " + JoinSpace(ws[1..]);
    assert JoinSpace(ws) == w + resto;
    assert s[i..] == w + resto;
    assert s[i..e] == w by { assert s[i..e] == s[i..][..|w|]; }
    forall j | i <= j < e ensures IsWordChar(s[j]) {
      assert s[j] == w[j - i];
    }
    if |ws| > 1 {
      assert s[e] == s[i..][|w|];
      assert s[e + 1..] == s[i..][|w| + 1..];
      assert forall k :: 0 <= k < |ws| - 1 ==> ws[1..][k] == ws[k + 1];
    } else {
      assert |s[i..]| == |w|;
    }
  }

  /** The replaced words are the first word replaced, then the rest replaced. */
  lemma MapeadasCabeca(ws: seq<string>, f: string -> string)
    requires |ws| > 0
    ensures JoinSpace(Mapeadas(ws, f))
         == f(ws[0]) + (if |ws| == 1 then "" else " " + JoinSpace(Mapeadas(ws[1..], f)))
  {
    assert Mapeadas(ws[1..], f) == Mapeadas(ws, f)[1..];
  }

  /** An abbreviation made of word characters matches at the start of a
      word exactly when it is that whole word up to case. */
  lemma ChaveNaPalavra(s: string, i: nat, e: nat, k: string)
    requires i < e <= |s| && forall j :: i <= j < e ==> IsWordChar(s[j])
    requires i == 0 || !IsWordChar(s[i - 1])
    requires e == |s| || s[e] == ' '
    requires PalavraW(k)
    ensures WholeWordAt(s, i, k, true) <==> |k| == e - i && Upper(k) == Upper(s[i..e])
  {
    var n := i + |k|;
    if e < n <= |s| {
      assert Upper(s[i..n])[e - i] == ' ' != Upper(k)[e - i];
    } else if n < e {
      assert WordAt(s, n - 1) && WordAt(s, n);
    } else if n == e {
      assert !WordAt(s, e) && WordAt(s, e - 1);
    }
  }

  /** At a space between words nothing matches. */
  lemma EspacoSemCasamento(s: string, e: nat, abrev: Dicionario)
    requires e < |s| && s[e] == ' '
    requires ChavesPalavras(abrev)
    ensures !MatchesAt(s, e, Abreviacoes(abrev))
  {
    var ks := Chaves(abrev);
    assert forall j :: 0 <= j < |ks| ==> UpperChar(ks[j][0]) != ' ';
    assert forall n :: e < n <= |s| ==> Upper(s[e..n])[0] == ' ';
  }

  /** At the start of a word the abbreviations match the whole word or
      nothing, and when nothing matches the word is its own expansion. */
  lemma InicioDePalavra(s: string, i: nat, e: nat, abrev: Dicionario)
    requires i < e <= |s| && forall j :: i <= j < e ==> IsWordChar(s[j])
    requires i == 0 || !IsWordChar(s[i - 1])
    requires e == |s| || s[e] == ' '
    requires ChavesPalavras(abrev)
    ensures var n := Abreviacoes(abrev)(s, i);
            (n == 0 || n == e - i) && (n == 0 ==> Expansao(abrev)(s[i..e]) == s[i..e])
  {
    var ks := Chaves(abrev);
    forall j | 0 <= j < |ks|
      ensures WholeWordAt(s, i, ks[j], true) <==> |ks[j]| == e - i && Upper(ks[j]) == Upper(s[i..e])
    {
      ChaveNaPalavra(s, i, e, ks[j]);
    }
    if FirstKeyLen(ks, s, i, true) == 0 {
      forall j | 0 <= j < |abrev| ensures Upper(abrev[j].0) != Upper(s[i..e]) {
        assert ks[j] == abrev[j].0;
      }
      ExpansaoSemChave(s[i..e], abrev);
    }
  }

  /** The first key matches a text equal to it, as a whole word. */
  lemma PrimeiraChaveCasa(s: string, abrev: Dicionario)
    requires |abrev| > 0 && abrev[0].0 == s && |s| > 0
    requires IsWordChar(s[0]) && IsWordChar(s[|s| - 1])
    ensures Abreviacoes(abrev)(s, 0) == |s|
  {
    assert Chaves(abrev)[0] == s;
    assert s[0..|s|] == s;
    assert WholeWordAt(s, 0, s, true);
  }

  // ---------------------------------------------------------------------------
  // reestruturar_nome_quimico
  // ---------------------------------------------------------------------------

  /** No word equals the next one. */
  predicate SemRepetidas<T(==)>(ws: seq<T>) { forall j :: 0 <= j < |ws| - 1 ==> ws[j] != ws[j + 1] }

  /** The name neither starts nor ends with the word DE. */
  predicate SemDeNasPontas(ws: seq<string>) { ws == [] || (ws[0] != "DE" && ws[|ws| - 1] != "DE") }

  /** Runs of equal consecutive words collapse to one. The first and last
      words stay, no word repeats the next, every word comes from the
      input, and a list without repetitions is kept as it is. */
  function Colapsar<T(==)>(ws: seq<T>): (r: seq<T>)
    ensures |r| <= |ws| && (r == [] <==> ws == [])
    ensures ws != [] ==> r[0] == ws[0] && r[|r| - 1] == ws[|ws| - 1]
    ensures SemRepetidas(r)
    ensures forall k :: 0 <= k < |r| ==> r[k] in ws
  {
    if |ws| <= 1 then ws
    else
      var t := Colapsar(ws[1..]);
      if ws[0] == ws[1] then t else [ws[0]] + t
  }

  /** Collapsing a list without repetitions changes nothing. */
  lemma {:induction false} ColapsarFixo<T>(ws: seq<T>)
    requires SemRepetidas(ws)
    ensures Colapsar(ws) == ws
  {
    if |ws| > 1 {
      var t := ws[1..];
      assert SemRepetidas(t) by { SemRepetidasCauda(ws); }
      assert Colapsar(t) == t by { ColapsarFixo(t); }
      assert Colapsar(ws) == [ws[0]] + Colapsar(t) by { ColapsarCons(ws); }
      Recompor(ws, Colapsar(ws), Colapsar(t));
    }
  }

  lemma ColapsarCons<T>(ws: seq<T>)
    requires |ws| > 1 && ws[0] != ws[1]
    ensures Colapsar(ws) == [ws[0]] + Colapsar(ws[1..])
  {
  }

  /** A list is its head before its tail. */
  lemma Recompor<T>(ws: seq<T>, a: seq<T>, c: seq<T>)
    requires |ws| > 0 && a == [ws[0]] + c && c == ws[1..]
    ensures a == ws
  {
    assert [ws[0]] + ws[1..] == ws;
  }

  lemma SemRepetidasCauda<T>(ws: seq<T>)
    requires |ws| > 0 && SemRepetidas(ws)
    ensures SemRepetidas(ws[1..])
  {
    forall j | 0 <= j < |ws| - 2 ensures ws[1..][j] != ws[1..][j + 1] { assert ws[j + 1] != ws[j + 2]; }
  }

  /** The words before the cleanup: with a chemical term last, that term,
      DE, then the rest. */
  function Reordenar(ws: seq<string>, quimicos: set<string>): seq<string>
    requires |ws| >= 2
  {
    if ws[|ws| - 1] in quimicos then [ws[|ws| - 1], "DE"] + ws[..|ws| - 1] else ws
  }

  /** One DE dropped at the front, then one at the back. */
  function PodarDe(d: seq<string>): (r: seq<string>)
    requires SemRepetidas(d)
    ensures SemRepetidas(r) && SemDeNasPontas(r)
    ensures forall k :: 0 <= k < |r| ==> r[k] in d
    ensures SemDeNasPontas(d) ==> r == d
  {
    var d1 := if d != [] && d[0] == "DE" then d[1..] else d;
    assert SemRepetidas(d1) && (d1 == [] || d1[0] != "DE") by {
      if d != [] && d[0] == "DE" {
        forall j | 0 <= j < |d1| - 1 ensures d1[j] != d1[j + 1] { assert d1[j] == d[j + 1] && d1[j + 1] == d[j + 2]; }
        if d1 != [] { assert d1[0] == d[1] && d[0] != d[1]; }
      }
    }
    var d2 := if d1 != [] && d1[|d1| - 1] == "DE" then d1[..|d1| - 1] else d1;
    assert SemRepetidas(d2) && SemDeNasPontas(d2) by {
      if d1 != [] && d1[|d1| - 1] == "DE" {
        if d2 != [] { assert d2[|d2| - 1] == d1[|d1| - 2] && d1[|d1| - 2] != d1[|d1| - 1]; }
      }
    }
    assert forall k :: 0 <= k < |d2| ==> d2[k] in d1;
    d2
  }

  /** `reestruturar_nome_quimico`: anything that is not text gives the
      empty name; a name of fewer than two words is kept exactly as
      written; otherwise the result is normalised, no word repeats the
      next, and it neither starts nor ends with DE. */
  function Reestruturar(v: Value, quimicos: set<string>): (r: Value)
    ensures r.Str?
    ensures !v.Str? ==> r.s == ""
    ensures v.Str? && |Split(v.s)| < 2 ==> r == v
    ensures v.Str? && |Split(v.s)| >= 2 ==> Normalized(r.s) && SemRepetidas(Split(r.s)) && SemDeNasPontas(Split(r.s))
  {
    if !v.Str? then Str("")
    else
      var ws := Split(v.s);
      if |ws| < 2 then v
      else
        var base := Reordenar(ws, quimicos);
        assert forall k :: 0 <= k < |base| ==> IsWord(base[k]);
        var m := PodarDe(Colapsar(base));
        assert forall k :: 0 <= k < |m| ==> IsWord(m[k]);
        JoinSpaceNormalized(m);
        SplitJoin(m);
        Str(JoinSpace(m))
  }

  /** A normalised name that already meets the cleanup and does not end
      with a chemical term is left as it is. */
  lemma ReestruturarFixo(s: string, quimicos: set<string>)
    requires Normalized(s) && |Split(s)| >= 2
    requires SemRepetidas(Split(s)) && SemDeNasPontas(Split(s)) && Split(s)[|Split(s)| - 1] !in quimicos
    ensures Reestruturar(Str(s), quimicos) == Str(s)
  {
    var ws := Split(s);
    ReestruturarPalavras(s, quimicos);
    assert Reordenar(ws, quimicos) == ws;
    ColapsarFixo(ws);
    assert PodarDe(Colapsar(ws)) == ws;
    JoinSplitNormalized(s);
  }

  /** A name ending in a chemical term becomes that term, DE, and the rest
      of the name, when the rest is already clean. */
  lemma ReestruturarQuimico(s: string, quimicos: set<string>)
    requires |Split(s)| >= 2
    requires var ws := Split(s); var init := ws[..|ws| - 1];
             ws[|ws| - 1] in quimicos && ws[|ws| - 1] != "DE" && SemRepetidas(init) && SemDeNasPontas(init)
    ensures var ws := Split(s);
            Split(Reestruturar(Str(s), quimicos).s) == [ws[|ws| - 1], "DE"] + ws[..|ws| - 1]
  {
    ReestruturarPalavras(s, quimicos);
    QuimicoPalavras(Split(s), quimicos);
  }

  lemma QuimicoPalavras(ws: seq<string>, quimicos: set<string>)
    requires |ws| >= 2 && forall k :: 0 <= k < |ws| ==> IsWord(ws[k])
    requires var init := ws[..|ws| - 1];
             ws[|ws| - 1] in quimicos && ws[|ws| - 1] != "DE" && SemRepetidas(init) && SemDeNasPontas(init)
    ensures Split(JoinSpace(PodarDe(Colapsar(Reordenar(ws, quimicos))))) == [ws[|ws| - 1], "DE"] + ws[..|ws| - 1]
  {
    var base := [ws[|ws| - 1], "DE"] + ws[..|ws| - 1];
    BasePalavras(ws, base);
    SplitJoin(base);
    assert Reordenar(ws, quimicos) == base;
    BaseLimpa(ws[|ws| - 1], ws[..|ws| - 1]);
    ColapsarFixo(base);
    assert PodarDe(Colapsar(base)) == base;
  }

  lemma BasePalavras(ws: seq<string>, base: seq<string>)
    requires |ws| >= 2 && forall k :: 0 <= k < |ws| ==> IsWord(ws[k])
    requires base == [ws[|ws| - 1], "DE"] + ws[..|ws| - 1]
    ensures forall k :: 0 <= k < |base| ==> IsWord(base[k])
  {
    forall k | 0 <= k < |base| ensures IsWord(base[k]) {
      if k >= 2 { assert base[k] == ws[k - 2]; }
      else if k == 1 { assert base[k] == "DE"; }
    }
  }

  /** The restructured name is the cleaned word list, joined. */
  lemma ReestruturarPalavras(s: string, quimicos: set<string>)
    requires |Split(s)| >= 2
    ensures Reestruturar(Str(s), quimicos).s == JoinSpace(PodarDe(Colapsar(Reordenar(Split(s), quimicos))))
  {
  }

  /** A chemical term, DE, and a clean rest form a clean word list. */
  lemma BaseLimpa(ultimo: string, init: seq<string>)
    requires ultimo != "DE" && init != [] && SemRepetidas(init) && SemDeNasPontas(init)
    ensures SemRepetidas([ultimo, "DE"] + init) && SemDeNasPontas([ultimo, "DE"] + init)
  {
    var base := [ultimo, "DE"] + init;
    forall j | 0 <= j < |base| - 1 ensures base[j] != base[j + 1] {
      if j >= 2 { assert base[j] == init[j - 2] && base[j + 1] == init[j - 1]; }
      else if j == 1 { assert base[j + 1] == init[0]; }
    }
    assert base[|base| - 1] == init[|init| - 1];
  }

  // ---------------------------------------------------------------------------
  // aplicar_regras_negocio
  // ---------------------------------------------------------------------------

  /** A contains/does-not-contain rule. */
  datatype Condicional = Condicional(contem: seq<string>, naoContem: seq<string>, substituirPor: string)

  /** The business rule file: multi-key rules (comma-separated keys to a
      substitution), conditional rules, single-key rules, and the override
      rules by description. */
  datatype RegrasNegocio = RegrasNegocio(multi: Dicionario, complexas: seq<Condicional>, unica: Dicionario,
                                         override: seq<Override>)

  function CasaMulti(nome: string): ((string, string)) -> bool {
    (p: (string, string)) => forall k :: 0 <= k < |SplitOn(p.0, ',')| ==> Contains(nome, SplitOn(p.0, ',')[k])
  }

  function CasaCondicional(nome: string): Condicional -> bool {
    (c: Condicional) => (forall k :: 0 <= k < |c.contem| ==> Contains(nome, c.contem[k]))
                        && forall k :: 0 <= k < |c.naoContem| ==> !Contains(nome, c.naoContem[k])
  }

  function CasaUnica(nome: string): ((string, string)) -> bool {
    (p: (string, string)) => Contains(nome, p.0)
  }

  predicate Algum<R>(rs: seq<R>, casa: R -> bool) { exists j :: 0 <= j < |rs| && casa(rs[j]) }

  /** `aplicar_regras_negocio`: anything that is not text gives the empty
      name. Text goes to the substitution of the first multi-key rule
      whose keys all occur in it; failing every multi-key rule, to that of
      the first conditional rule that applies; failing those, to that of
      the first single-key rule whose key occurs; and stays as it is when
      no rule applies. */
  function AplicarRegrasNegocio(v: Value, rs: RegrasNegocio): (r: Value)
    ensures !v.Str? ==> r == Str("")
    ensures v.Str? && Algum(rs.multi, CasaMulti(v.s)) ==>
              exists j :: EhPrimeira(rs.multi, CasaMulti(v.s), j) && r == Str(rs.multi[j].1)
    ensures v.Str? && !Algum(rs.multi, CasaMulti(v.s)) && Algum(rs.complexas, CasaCondicional(v.s)) ==>
              exists j :: EhPrimeira(rs.complexas, CasaCondicional(v.s), j) && r == Str(rs.complexas[j].substituirPor)
    ensures v.Str? && !Algum(rs.multi, CasaMulti(v.s)) && !Algum(rs.complexas, CasaCondicional(v.s))
              && Algum(rs.unica, CasaUnica(v.s)) ==>
              exists j :: EhPrimeira(rs.unica, CasaUnica(v.s), j) && r == Str(rs.unica[j].1)
    ensures (v.Str? && !Algum(rs.multi, CasaMulti(v.s)) && !Algum(rs.complexas, CasaCondicional(v.s))
             && !Algum(rs.unica, CasaUnica(v.s))) ==> r == v
  {
    if !v.Str? then Str("")
    else
      var n := v.s;
      match Primeira(rs.multi, CasaMulti(n), 0)
      case Some(j) => assert EhPrimeira(rs.multi, CasaMulti(n), j); Str(rs.multi[j].1)
      case None =>
        match Primeira(rs.complexas, CasaCondicional(n), 0)
        case Some(j) => assert EhPrimeira(rs.complexas, CasaCondicional(n), j); Str(rs.complexas[j].substituirPor)
        case None =>
          match Primeira(rs.unica, CasaUnica(n), 0)
          case Some(j) => assert EhPrimeira(rs.unica, CasaUnica(n), j); Str(rs.unica[j].1)
          case None => v
  }

  /** The substitutions the rules can produce. */
  predicate Substituicao(rs: RegrasNegocio, x: string) {
    (exists j :: 0 <= j < |rs.multi| && rs.multi[j].1 == x)
    || (exists j :: 0 <= j < |rs.complexas| && rs.complexas[j].substituirPor == x)
    || (exists j :: 0 <= j < |rs.unica| && rs.unica[j].1 == x)
  }

  /** The rules only ever put one of their substitutions in place of a
      name: text comes back as it is or as a configured substitution. */
  lemma RegrasSoSubstituem(s: string, rs: RegrasNegocio)
    ensures AplicarRegrasNegocio(Str(s), rs) == Str(s) || Substituicao(rs, AplicarRegrasNegocio(Str(s), rs).s)
  {
    var r := AplicarRegrasNegocio(Str(s), rs);
    if Algum(rs.multi, CasaMulti(s)) {
      var j :| EhPrimeira(rs.multi, CasaMulti(s), j) && r == Str(rs.multi[j].1);
    } else if Algum(rs.complexas, CasaCondicional(s)) {
      var j :| EhPrimeira(rs.complexas, CasaCondicional(s), j) && r == Str(rs.complexas[j].substituirPor);
    } else if Algum(rs.unica, CasaUnica(s)) {
      var j :| EhPrimeira(rs.unica, CasaUnica(s), j) && r == Str(rs.unica[j].1);
    }
  }

  // ---------------------------------------------------------------------------
  // The fuzzy dictionary
  // ---------------------------------------------------------------------------

  /** `Series.replace(dicionario)`: a name equal to a key becomes its
      value; any other cell stays. */
  function Corrigir(v: Value, fuzzy: Dicionario): (r: Value)
    ensures v.Str? && Procurar(fuzzy, v.s).Some? ==> r == Str(Procurar(fuzzy, v.s).value)
    ensures !v.Str? || Procurar(fuzzy, v.s).None? ==> r == v
  {
    if v.Str? && Procurar(fuzzy, v.s).Some? then Str(Procurar(fuzzy, v.s).value) else v
  }

  /** The replacement is one lookup, not a chain: when no correction is
      itself a key, correcting twice corrects once. */
  lemma CorrigirIdempotente(v: Value, fuzzy: Dicionario)
    requires forall j :: 0 <= j < |fuzzy| ==> Procurar(fuzzy, fuzzy[j].1).None?
    ensures Corrigir(Corrigir(v, fuzzy), fuzzy) == Corrigir(v, fuzzy)
  {
    if v.Str? && Procurar(fuzzy, v.s).Some? {
      var j :| 0 <= j < |fuzzy| && fuzzy[j] == (v.s, Procurar(fuzzy, v.s).value);
    }
  }

  // ---------------------------------------------------------------------------
  // The final cleanup
  // ---------------------------------------------------------------------------

  const Pontas: set<char> := {';', '+', ' '}

  function EspacoSimples(c: char): bool { !IsSpace(c) || c == ' ' }

  /** `.str.replace(r'\s+', ' ').str.strip(';+ ').str.slice(0, 100)`. A
      name comes out at most 100 characters long, with plain spaces only,
      starting with neither ';', '+' nor a space, and a prefix of the
      trimmed text; a cell that is not text comes out missing. */
  function LimpezaFinal(v: Value): (r: Value)
    ensures !v.Str? ==> r == Null
    ensures v.Str? ==> r.Str? && |r.s| <= 100 && OnlyPlainSpaces(r.s) && (|r.s| == 0 || r.s[0] !in Pontas)
    ensures v.Str? ==> |r.s| <= |StripSet(Collapse(v.s), Pontas)| && r.s == StripSet(Collapse(v.s), Pontas)[..|r.s|]
    ensures v.Str? ==> var t := StripSet(Collapse(v.s), Pontas); |r.s| == if |t| <= 100 then |t| else 100
  {
    if !v.Str? then Null
    else
      var c := Collapse(v.s);
      CollapseSimples(v.s);
      var t := StripSet(c, Pontas);
      StripSetKeeps(c, Pontas, EspacoSimples);
      var n := if |t| <= 100 then |t| else 100;
      Str(t[..n])
  }

  /** Collapsing leaves no whitespace but plain spaces. */
  lemma CollapseSimples(s: string)
    ensures AllChars(Collapse(s), EspacoSimples)
  {
    CollapseShape(s);
    JoinSpaceNormalized(Split(s));
    var l, j, t := LeadPad(s), JoinSpace(Split(s)), TrailPad(s);
    var c := l + j + t;
    forall k | 0 <= k < |c| ensures EspacoSimples(c[k]) {
      if k < |l| { assert c[k] == ' '; }
      else if k < |l| + |j| { assert c[k] == j[k - |l|]; }
      else { assert c[k] == ' '; }
    }
  }

  /** Trimming keeps any property of every character. */
  lemma StripSetKeeps(s: string, cs: set<char>, p: char -> bool)
    requires AllChars(s, p)
    ensures AllChars(StripSet(s, cs), p)
  {
    var a, b := Produto.StripSetTrecho(s, cs);
    var t := StripSet(s, cs);
    forall k | 0 <= k < |t| ensures p(t[k]) { assert t[k] == s[a + k]; }
  }

  /** A cleaned name of at most 100 characters has clean ends at both
      sides. */
  lemma LimpezaFinalCurta(s: string)
    requires |StripSet(Collapse(s), Pontas)| <= 100
    ensures var r := LimpezaFinal(Str(s)).s; |r| == 0 || r[|r| - 1] !in Pontas
  {
  }

  /** The cut comes after the trimming, so it can leave a space at the
      end: 99 letters, a space and a letter come out as the 99 letters and
      the space. */
  lemma CorteDeixaEspaco(s: string)
    requires |s| == 101 && s[99] == ' ' && forall k :: 0 <= k < |s| && k != 99 ==> s[k] == 'A'
    ensures LimpezaFinal(Str(s)).s == s[..100]
  {
    assert forall k :: 0 <= k < |s| ==> !IsSpace(s[k]) || k == 99;
    CollapseSemRuns(s);
    assert StripSet(s, Pontas) == s by {
      assert TrimLeftSet(s, Pontas) == s;
      assert TrimRightSet(s, Pontas) == s;
    }
  }

  /** Text whose whitespace is single plain spaces between other
      characters is its own whitespace collapse. */
  lemma {:induction false} CollapseSemRuns(s: string)
    requires forall k :: 0 <= k < |s| && IsSpace(s[k]) ==> s[k] == ' ' && 0 < k < |s| - 1 && !IsSpace(s[k + 1])
    ensures Collapse(s) == s
    decreases |s|
  {
    if |s| > 0 {
      var n := WordLen(s);
      WordLenFacts(s);
      var rest := s[n..];
      if |rest| > 0 {
        assert IsSpace(rest[0]) && rest[0] == ' ';
        var u := rest[1..];
        assert TrimLeftSp(rest) == u by {
          assert !IsSpace(s[n + 1]);
          assert rest[1..] == u && |u| > 0 && !IsSpace(u[0]);
        }
        forall k | 0 <= k < |u| && IsSpace(u[k]) ensures u[k] == ' ' && 0 < k < |u| - 1 && !IsSpace(u[k + 1]) {
          assert u[k] == s[n + 1 + k];
          if k + 1 < |u| { assert u[k + 1] == s[n + 2 + k]; }
        }
        CollapseSemRuns(u);
        assert Collapse(rest) == " " + u;
        assert rest == " " + u;
      }
      assert s == s[..n] + rest;
    }
  }

  // ---------------------------------------------------------------------------
  // The cascade
  // ---------------------------------------------------------------------------

  /** What the stage is given: the master set of registered product
      names, the letter and permitted-term sets, the abbreviation mapping,
      the chemical terms, the business rules and the fuzzy dictionary. */
  datatype Recursos = Recursos(mestre: set<string>, letras: set<string>, permitidos: set<string>,
                               abrev: Dicionario, quimicos: set<string>, regras: RegrasNegocio,
                               fuzzy: Dicionario)

  /** `isin(set_produtos_master)`: text that is a registered name. */
  predicate NoMestre(v: Value, mestre: set<string>) { v.Str? && v.s in mestre }

  /** One stage under its mask: a name already in the master set stays,
      any other takes the stage's value. */
  function Congelar(mestre: set<string>, atual: Value, novo: Value): (r: Value)
    ensures NoMestre(atual, mestre) ==> r == atual
    ensures !NoMestre(atual, mestre) ==> r == novo
  {
    if NoMestre(atual, mestre) then atual else novo
  }

  /** Stage `k` (0 to 5) on a name: override by description, isolated
      letters, abbreviations, chemical reordering, business rules, fuzzy
      dictionary. From the letter stage on the result is text. */
  function Estagio(k: nat, v: Value, desc: Value, rec: Recursos, repr: Value -> string): (r: Value)
    requires k < 6
    ensures k == 1 ==> r.Str?
    ensures k >= 1 && v.Str? ==> r.Str?
  {
    if k == 0 then AplicarOverride(desc, v, rec.regras.override, repr)
    else if k == 1 then LimparLetras(v, rec.letras, rec.permitidos)
    else if k == 2 then Expandir(v, rec.abrev)
    else if k == 3 then Reestruturar(v, rec.quimicos)
    else if k == 4 then AplicarRegrasNegocio(v, rec.regras)
    else Corrigir(v, rec.fuzzy)
  }

  /** The name after the first `n` stages, each under its mask. Every
      stage reads only its own row, so the frame's cascade is this function
      applied row by row. After the letter stage the name is text. */
  function Depois(n: nat, nome: Value, desc: Value, rec: Recursos, repr: Value -> string): (r: Value)
    requires n <= 6
    ensures n >= 2 ==> r.Str?
  {
    if n == 0 then nome
    else
      var v := Depois(n - 1, nome, desc, rec, repr);
      Congelar(rec.mestre, v, Estagio(n - 1, v, desc, rec, repr))
  }

  /** The refined name before the final cleanup: the value after the last
      stage. A name in the master set passes through every stage
      untouched, and the result is always text. */
  function Cascata(nome: Value, desc: Value, rec: Recursos, repr: Value -> string): (r: Value)
    ensures NoMestre(nome, rec.mestre) ==> r == nome
    ensures r.Str?
  {
    var r := Depois(6, nome, desc, rec, repr);
    if NoMestre(nome, rec.mestre) then CongeladoAteOFim(nome, desc, rec, repr, 0); r else r
  }

  /** Matches are frozen: once a stage leaves a name in the master set,
      every later stage keeps it, so the cascade ends with it. */
  lemma CongeladoAteOFim(nome: Value, desc: Value, rec: Recursos, repr: Value -> string, k: nat)
    requires k <= 6 && NoMestre(Depois(k, nome, desc, rec, repr), rec.mestre)
    ensures Depois(6, nome, desc, rec, repr) == Depois(k, nome, desc, rec, repr)
  {
    CongeladoAte(nome, desc, rec, repr, k, 6);
  }

  /** The same up to any later stage `n`. */
  lemma {:induction false} CongeladoAte(nome: Value, desc: Value, rec: Recursos, repr: Value -> string, k: nat, n: nat)
    requires k <= n <= 6 && NoMestre(Depois(k, nome, desc, rec, repr), rec.mestre)
    ensures Depois(n, nome, desc, rec, repr) == Depois(k, nome, desc, rec, repr)
    decreases n - k
  {
    if k < n {
      CongeladoUmPasso(nome, desc, rec, repr, k);
      CongeladoAte(nome, desc, rec, repr, k + 1, n);
    }
  }

  /** One stage keeps a name that is in the master set. */
  lemma CongeladoUmPasso(nome: Value, desc: Value, rec: Recursos, repr: Value -> string, k: nat)
    requires k < 6 && NoMestre(Depois(k, nome, desc, rec, repr), rec.mestre)
    ensures Depois(k + 1, nome, desc, rec, repr) == Depois(k, nome, desc, rec, repr)
  {
    var v := Depois(k, nome, desc, rec, repr);
    assert Depois(k + 1, nome, desc, rec, repr) == Congelar(rec.mestre, v, Estagio(k, v, desc, rec, repr));
  }

  // ---------------------------------------------------------------------------
  // verificar_matches
  // ---------------------------------------------------------------------------

  function CasaMestre(col: string, mestre: set<string>): Row -> bool {
    (row: Row) => NoMestre(Get(row, col), mestre)
  }

  /** The match percentage of `verificar_matches`: 0 on a frame without
      rows, otherwise the share of rows whose name is in the master set,
      between 0 and 100, and 100 exactly when every row matches. */
  function Percentual(t: Table, col: string, mestre: set<string>): (p: real)
    ensures |t.rows| == 0 ==> p == 0.0
    ensures 0.0 <= p <= 100.0
    ensures |t.rows| > 0 ==> (p == 100.0 <==> forall i :: 0 <= i < |t.rows| ==> NoMestre(Get(t.rows[i], col), mestre))
    ensures p == 0.0 <==> forall i :: 0 <= i < |t.rows| ==> !NoMestre(Get(t.rows[i], col), mestre)
  {
    var c := Count(t.rows, CasaMestre(col, mestre));
    CountBounds(t.rows, CasaMestre(col, mestre));
    CountTodos(t.rows, CasaMestre(col, mestre));
    if |t.rows| == 0 then 0.0
    else
      var n := |t.rows|;
      Fracao(c, n);
      (c as real / n as real) * 100.0
  }

  /** A count reaches the length exactly when every element passes. */
  lemma {:induction false} CountTodos<T>(s: seq<T>, p: T -> bool)
    ensures Count(s, p) == |s| <==> forall i :: 0 <= i < |s| ==> p(s[i])
  {
    if |s| > 0 {
      CountTodos(s[1..], p);
      CountBounds(s[1..], p);
      assert forall i :: 1 <= i < |s| ==> s[1..][i - 1] == s[i];
    }
  }

  lemma Fracao(c: nat, n: nat)
    requires 0 < n && c <= n
    ensures 0.0 <= (c as real / n as real) * 100.0 <= 100.0
    ensures (c as real / n as real) * 100.0 == 100.0 <==> c == n
    ensures (c as real / n as real) * 100.0 == 0.0 <==> c == 0
  {
    var q := c as real / n as real;
    assert q * (n as real) == c as real;
    assert q <= 1.0;
    if q * 100.0 == 100.0 {
      assert q == 1.0;
      assert c as real == n as real;
    }
  }

  // ---------------------------------------------------------------------------
  // executar_refinamento_nomes
  // ---------------------------------------------------------------------------

  function NaoDeletar(row: Row): bool { Get(row, Np) != Str(Deletar) }

  function EhDeletar(row: Row): bool { Get(row, Np) == Str(Deletar) }

  function ColunaLimpa(rec: Recursos, repr: Value -> string): Row -> Value {
    (row: Row) => LimpezaFinal(Cascata(Get(row, Np), Get(row, Desc), rec, repr))
  }

  /** Some kept row reaches the override stage, which reads the
      description. */
  predicate LeDescricao(t: Table, mestre: set<string>) {
    exists i :: 0 <= i < |t.rows| && NaoDeletar(t.rows[i]) && !NoMestre(Get(t.rows[i], Np), mestre)
  }

  /** The refined frame: the rows not named DELETAR, in order, each with
      NOME_PRODUTO_LIMPO set to the cleaned result of the cascade. */
  function Refinar(t: Table, rec: Recursos, repr: Value -> string): (r: Table)
    requires WellFormed(t)
    ensures WellFormed(r) && ColSet(r.cols) == ColSet(t.cols) + {Limpo}
    ensures var k := Filter(t.rows, NaoDeletar);
            |r.rows| == |k| && forall i :: 0 <= i < |k| ==> r.rows[i] == k[i][Limpo := ColunaLimpa(rec, repr)(k[i])]
  {
    var f := FilterRows(t, NaoDeletar);
    var r := SetCol(f, Limpo, ColunaLimpa(rec, repr));
    assert ColSet(r.cols) == ColSet(t.cols) + {Limpo};
    r
  }

  /** `executar_refinamento_nomes` with its resources given. A frame
      without NOME_PRODUTO is a `KeyError`, and so is one without the
      description column when some kept row reaches the override stage.
      Otherwise the rows named DELETAR are dropped, the others keep their
      order and cells, and NOME_PRODUTO_LIMPO holds the cleaned result of
      the cascade on each row's name. */
  function ExecutarRefinamento(t: Table, rec: Recursos, repr: Value -> string): (r: Result<Table>)
    requires WellFormed(t)
    ensures Np !in t.cols ==> r == Err(KeyError(Np))
    ensures Np in t.cols && Desc !in t.cols && LeDescricao(t, rec.mestre) ==> r == Err(KeyError(Desc))
    ensures r.Ok? <==> Np in t.cols && (Desc in t.cols || !LeDescricao(t, rec.mestre))
    ensures r.Ok? ==> r.value == Refinar(t, rec, repr)
  {
    if Np !in t.cols then Err(KeyError(Np))
    else if Desc !in t.cols && LeDescricao(t, rec.mestre) then Err(KeyError(Desc))
    else Ok(Refinar(t, rec, repr))
  }

  /** No DELETAR row survives. */
  lemma RefinamentoSemDeletar(t: Table, rec: Recursos, repr: Value -> string, i: nat)
    requires WellFormed(t) && i < |Refinar(t, rec, repr).rows|
    ensures Get(Refinar(t, rec, repr).rows[i], Np) != Str(Deletar)
  {
    var k := Filter(t.rows, NaoDeletar);
    assert NaoDeletar(k[i]);
    assert Np != Limpo;
  }

  /** Exactly the DELETAR rows go. */
  lemma RefinamentoContagem(t: Table, rec: Recursos, repr: Value -> string)
    requires WellFormed(t)
    ensures |Refinar(t, rec, repr).rows| == |t.rows| - Count(t.rows, EhDeletar)
  {
    FiltroContagem(t.rows);
  }

  lemma {:induction false} FiltroContagem(s: seq<Row>)
    ensures |Filter(s, NaoDeletar)| == |s| - Count(s, EhDeletar)
  {
    if |s| > 0 {
      FiltroContagem(s[1..]);
    }
  }

  /** A row whose extracted name is a registered product only goes through
      the final cleanup. */
  lemma RegistradoSoLimpo(t: Table, rec: Recursos, repr: Value -> string, i: nat)
    requires WellFormed(t) && i < |Refinar(t, rec, repr).rows|
    requires NoMestre(Get(Refinar(t, rec, repr).rows[i], Np), rec.mestre)
    ensures var row := Refinar(t, rec, repr).rows[i];
            Get(row, Limpo) == LimpezaFinal(Get(row, Np))
  {
    var k := Filter(t.rows, NaoDeletar);
    assert Np != Limpo;
  }
}
