/** The weighted fuzzy matcher of the fifteenth NFe stage
    (nfe_etapa15_matching_hibrido.py): text clean-up, an inverted index over
    the master's product and active-ingredient names, a Jaccard pre-filter,
    and a weighted score over name, laboratory and quantities. The rapidfuzz
    scorers are parameters; floating point is modelled by `real`. */
module MatchingHibrido {
  import opened Wrappers
  import opened Text
  import opened Seqs
  import opened Scan
  import opened Ordem
  import opened Ordenacao
  import opened Frame

  // ---------------------------------------------------------------------------
  // Weights and thresholds (nfe_etapa15_matching_hibrido.py:47-51, 392-404)
  // ---------------------------------------------------------------------------

  const PesoNome: real := 0.60
  const PesoLab: real := 0.10
  const PesoNum: real := 0.30
  const Tolerancia: real := 0.06
  const LimiarJaccard: real := 0.175
  const Bonus: real := 0.15
  const LimiarBonus: real := 98.0
  const Neutro: real := 0.5

  function Abs(x: real): real { if x < 0.0 then -x else x }
  function Max(a: real, b: real): real { if a >= b then a else b }

  // ---------------------------------------------------------------------------
  // clean_text
  // ---------------------------------------------------------------------------

  /** A character `[^\w\s]` does not delete. */
  predicate Mantido(c: char) { IsWordChar(c) || IsSpace(c) }

  predicate TodosMantidos(s: string) { forall i :: 0 <= i < |s| ==> Mantido(s[i]) }

  /** `re.sub(r'[^\w\s]', '', s)`. */
  function SoPalavras(s: string): (r: string)
    ensures TodosMantidos(r)
    ensures IsUpperText(s) ==> IsUpperText(r)
    ensures TodosMantidos(s) ==> r == s
  {
    if |s| == 0 then ""
    else (if Mantido(s[0]) then [s[0]] else "") + SoPalavras(s[1..])
  }

  /** `clean_text`: upper case, punctuation removed, stripped; "" for a
      missing value. */
  function LimparTexto(v: Value): (r: string)
    ensures !v.Str? ==> r == ""
    ensures TodosMantidos(r) && IsUpperText(r)
    ensures |r| == 0 || (!IsSpace(r[0]) && !IsSpace(r[|r| - 1]))
  {
    if !v.Str? then ""
    else
      var u := SoPalavras(Upper(v.s));
      UpperIsUpper(v.s);
      StripFatia(u);
      Strip(u)
  }

  /** `strip()` keeps a slice of its argument. */
  lemma StripFatia(s: string)
    ensures TodosMantidos(s) ==> TodosMantidos(Strip(s))
    ensures IsUpperText(s) ==> IsUpperText(Strip(s))
  {
    TrimLeftSuffix(s);
    TrimRightPrefix(TrimLeftSp(s));
  }

  /** Text with neither leading nor trailing whitespace is its own strip. */
  lemma StripFixo(s: string)
    requires |s| == 0 || (!IsSpace(s[0]) && !IsSpace(s[|s| - 1]))
    ensures Strip(s) == s
  {
  }

  /** Cleaning cleaned text changes nothing. */
  lemma LimparIdempotente(v: Value)
    ensures LimparTexto(Str(LimparTexto(v))) == LimparTexto(v)
  {
    var r := LimparTexto(v);
    assert Upper(r) == r;
    StripFixo(r);
  }

  // ---------------------------------------------------------------------------
  // remove_stopwords
  // ---------------------------------------------------------------------------

  function NaoStop(stop: set<string>): string -> bool { (w: string) => w !in stop }

  /** `remove_stopwords`: the words not in `stop`, joined by single spaces;
      "" for a missing value. */
  function SemStopwords(v: Value, stop: set<string>): (r: string)
    ensures !v.Str? ==> r == ""
    ensures v.Str? ==> Normalized(r)
  {
    if !v.Str? then ""
    else
      var ws := Filter(Split(v.s), NaoStop(stop));
      JoinSpaceNormalized(ws);
      JoinSpace(ws)
  }

  /** The words of the result are the non-stopword words of the input, in
      their original order. */
  lemma StopwordsPalavras(t: string, stop: set<string>)
    ensures Split(SemStopwords(Str(t), stop)) == Filter(Split(t), NaoStop(stop))
  {
    SplitJoin(Filter(Split(t), NaoStop(stop)));
  }

  /** Removing stopwords twice removes them once. */
  lemma StopwordsIdempotente(t: string, stop: set<string>)
    ensures SemStopwords(Str(SemStopwords(Str(t), stop)), stop) == SemStopwords(Str(t), stop)
  {
    StopwordsPalavras(t, stop);
    FilterIdempotent(Split(t), NaoStop(stop));
  }

  // ---------------------------------------------------------------------------
  // apply_synonyms
  // ---------------------------------------------------------------------------

  datatype Sinonimo = Sinonimo(chave: string, valor: string)

  /** Sort key of `sorted(synonym_map, key=len, reverse=True)`. */
  function PorComprimento(p: Sinonimo): Chave { Chave("", -|p.chave|, 0) }

  function Constante(v: string): string -> string { (t: string) => v }

  /** One `re.sub(r'\b' + re.escape(key) + r'\b', value, text, flags=re.IGNORECASE)`. */
  function Substituir(t: string, p: Sinonimo): string {
    Sub(t, WholeWords([p.chave], true), Constante(p.valor))
  }

  function AplicarEmOrdem(t: string, ps: seq<Sinonimo>): string
    decreases |ps|
  {
    if |ps| == 0 then t else AplicarEmOrdem(Substituir(t, ps[0]), ps[1..])
  }

  /** The keys in the order the source applies them: every key once,
      longest first, keys of equal length in dictionary order. */
  function OrdemSinonimos(ps: seq<Sinonimo>): (r: seq<Sinonimo>)
    ensures multiset(r) == multiset(ps)
    ensures forall i, j :: 0 <= i < j < |r| ==> |r[i].chave| >= |r[j].chave|
  {
    var r := Ordenar(ps, PorComprimento);
    forall i, j | 0 <= i < j < |r| ensures |r[i].chave| >= |r[j].chave| {
      assert !Menor(PorComprimento(r[j]), PorComprimento(r[i]));
      StrLtIrreflexive("");
    }
    r
  }

  /** Keys of the same length keep their dictionary order. */
  lemma OrdemSinonimosEstavel(ps: seq<Sinonimo>, n: nat)
    ensures ComChave(OrdemSinonimos(ps), PorComprimento, Chave("", 0 - n, 0)) == ComChave(ps, PorComprimento, Chave("", 0 - n, 0))
  {
    OrdenarEstavel(ps, PorComprimento, Chave("", 0 - n, 0));
  }

  /** `apply_synonyms`; "" for a missing value. */
  function AplicarSinonimos(v: Value, ps: seq<Sinonimo>): (r: string)
    ensures !v.Str? ==> r == ""
    ensures |ps| == 0 && v.Str? ==> r == v.s
  {
    if !v.Str? then "" else AplicarEmOrdem(v.s, OrdemSinonimos(ps))
  }

  /** No key occurs in `t` as a whole word, in any case. */
  predicate SemOcorrencia(t: string, ps: seq<Sinonimo>) {
    forall k, j :: 0 <= k < |ps| && 0 <= j < |t| ==> !WholeWordAt(t, j, ps[k].chave, true)
  }

  lemma {:induction false} EmOrdemSemOcorrencia(t: string, ps: seq<Sinonimo>)
    requires SemOcorrencia(t, ps)
    ensures AplicarEmOrdem(t, ps) == t
    decreases |ps|
  {
    if |ps| > 0 {
      var m := WholeWords([ps[0].chave], true);
      forall j | 0 <= j < |t| ensures !MatchesAt(t, j, m) {
        assert !WholeWordAt(t, j, ps[0].chave, true);
        assert m(t, j) == FirstKeyLen([ps[0].chave], t, j, true);
      }
      SubNoMatch(t, m, Constante(ps[0].valor));
      assert SemOcorrencia(t, ps[1..]) by {
        forall k, j | 0 <= k < |ps[1..]| && 0 <= j < |t| ensures !WholeWordAt(t, j, ps[1..][k].chave, true) {
          assert ps[1..][k] == ps[k + 1];
        }
      }
      EmOrdemSemOcorrencia(t, ps[1..]);
    }
  }

  /** Text in which no key occurs as a whole word is returned unchanged. */
  lemma SinonimosAusentes(t: string, ps: seq<Sinonimo>)
    requires SemOcorrencia(t, ps)
    ensures AplicarSinonimos(Str(t), ps) == t
  {
    var r := OrdemSinonimos(ps);
    forall k, j | 0 <= k < |r| && 0 <= j < |t| ensures !WholeWordAt(t, j, r[k].chave, true) {
      assert r[k] in multiset(ps);
      var k' :| 0 <= k' < |ps| && ps[k'] == r[k];
    }
    EmOrdemSemOcorrencia(t, r);
  }

  // ---------------------------------------------------------------------------
  // build_inverted_index
  // ---------------------------------------------------------------------------

  /** The distinct words of `t` longer than two characters. */
  function Termos(t: string): set<string> { set w | w in Split(t) && |w| > 2 }

  function TermosDe(v: Value): set<string> { if v.Str? then Termos(v.s) else {} }

  type Indice = map<string, seq<nat>>

  /** `index.get(w, [])`. */
  function Postagens(ix: Indice, w: string): seq<nat> { if w in ix then ix[w] else [] }

  /** `setdefault(w, []).append(i)` for every word of `ws`. */
  function Anexar(ix: Indice, ws: set<string>, i: nat): Indice {
    map w | w in ix.Keys + ws :: Postagens(ix, w) + (if w in ws then [i] else [])
  }

  /** `build_inverted_index` over the first `|s|` rows. */
  function ConstruirIndice(s: seq<Value>): Indice
    decreases |s|
  {
    if |s| == 0 then map[]
    else Anexar(ConstruirIndice(s[..|s| - 1]), TermosDe(s[|s| - 1]), |s| - 1)
  }

  predicate Crescente(p: seq<nat>) { forall a, b :: 0 <= a < b < |p| ==> p[a] < p[b] }

  /** Indexing one more row appends its position to the postings of its
      words and changes no other postings. */
  lemma PostagensPasso(s: seq<Value>, w: string)
    requires |s| > 0
    ensures Postagens(ConstruirIndice(s), w)
         == Postagens(ConstruirIndice(s[..|s| - 1]), w) + (if w in TermosDe(s[|s| - 1]) then [|s| - 1] else [])
  {
  }

  lemma CrescenteAnexo(p: seq<nat>, x: nat)
    requires Crescente(p) && forall a :: 0 <= a < |p| ==> p[a] < x
    ensures Crescente(p + [x])
  {
    var q := p + [x];
    forall a, b | 0 <= a < b < |q| ensures q[a] < q[b] {
      assert q[a] == p[a];
      if b < |p| { assert q[b] == p[b]; }
    }
  }

  lemma {:induction false} PostagensExatas(s: seq<Value>, w: string)
    ensures forall i :: i in Postagens(ConstruirIndice(s), w) <==> 0 <= i < |s| && w in TermosDe(s[i])
    ensures Crescente(Postagens(ConstruirIndice(s), w))
    decreases |s|
  {
    if |s| > 0 {
      var t := s[..|s| - 1];
      PostagensExatas(t, w);
      PostagensPasso(s, w);
      ExatasPasso(s, t, w, Postagens(ConstruirIndice(t), w), Postagens(ConstruirIndice(s), w));
    }
  }

  /** The step of `PostagensExatas`, on the postings alone. */
  lemma ExatasPasso(s: seq<Value>, t: seq<Value>, w: string, p: seq<nat>, q: seq<nat>)
    requires |s| > 0 && t == s[..|s| - 1]
    requires forall i :: i in p <==> 0 <= i < |t| && w in TermosDe(t[i])
    requires Crescente(p)
    requires q == p + (if w in TermosDe(s[|s| - 1]) then [|s| - 1] else [])
    ensures forall i :: i in q <==> 0 <= i < |s| && w in TermosDe(s[i])
    ensures Crescente(q)
  {
    var n := |s| - 1;
    if w in TermosDe(s[n]) {
      forall a | 0 <= a < |p| ensures p[a] < n {
        assert p[a] in p;
      }
      CrescenteAnexo(p, n);
    }
    forall i ensures i in q <==> 0 <= i < |s| && w in TermosDe(s[i]) {
      if 0 <= i < n {
        assert t[i] == s[i];
      }
    }
  }

  /** Every row holding a word (longer than two characters) is listed once
      under it, in row order, and nothing else is listed. */
  lemma IndiceExato(s: seq<Value>, w: string)
    ensures forall i :: i in Postagens(ConstruirIndice(s), w) <==> 0 <= i < |s| && w in TermosDe(s[i])
    ensures forall a, b :: 0 <= a < b < |Postagens(ConstruirIndice(s), w)| ==> Postagens(ConstruirIndice(s), w)[a] < Postagens(ConstruirIndice(s), w)[b]
    ensures w in ConstruirIndice(s) <==> exists i :: 0 <= i < |s| && w in TermosDe(s[i])
  {
    PostagensExatas(s, w);
    ChavesIndice(s, w);
  }

  lemma {:induction false} ChavesIndice(s: seq<Value>, w: string)
    ensures w in ConstruirIndice(s) ==> |ConstruirIndice(s)[w]| > 0
    ensures w in ConstruirIndice(s) <==> exists i :: 0 <= i < |s| && w in TermosDe(s[i])
    decreases |s|
  {
    if |s| > 0 {
      var t := s[..|s| - 1];
      ChavesIndice(t, w);
      assert forall i :: 0 <= i < |t| ==> t[i] == s[i];
      if w in ConstruirIndice(t) {
        var i :| 0 <= i < |t| && w in TermosDe(t[i]);
        assert w in TermosDe(s[i]);
      }
    }
  }

  // ---------------------------------------------------------------------------
  // calculate_numeric_score
  // ---------------------------------------------------------------------------

  /** `calculate_numeric_score`: 1 when both values are 0, 0 when exactly one
      is, otherwise 1 iff the relative difference is within `tol`. */
  function PontuacaoNumerica(a: real, b: real, tol: real): (r: real)
    ensures r == 0.0 || r == 1.0
    ensures a == 0.0 && b == 0.0 ==> r == 1.0
    ensures (a == 0.0) != (b == 0.0) ==> r == 0.0
    ensures a > 0.0 && b > 0.0 ==> (r == 1.0 <==> Abs(a - b) <= tol * Max(a, b))
  {
    if a == 0.0 && b == 0.0 then 1.0
    else if a == 0.0 || b == 0.0 then 0.0
    else
      assert Max(a, b) != 0.0;
      assert Max(a, b) > 0.0 ==> (Abs(a - b) / Max(a, b) <= tol <==> Abs(a - b) <= tol * Max(a, b)) by {
        if Max(a, b) > 0.0 { DivisaoLimite(Abs(a - b), Max(a, b), tol); }
      }
      if Abs(a - b) / Max(a, b) <= tol then 1.0 else 0.0
  }

  lemma DivisaoLimite(x: real, m: real, t: real)
    requires m > 0.0
    ensures x / m <= t <==> x <= t * m
  {
    assert x == (x / m) * m;
  }

  /** The score does not depend on the order of the values. */
  lemma PontuacaoSimetrica(a: real, b: real, tol: real)
    ensures PontuacaoNumerica(a, b, tol) == PontuacaoNumerica(b, a, tol)
  {
    assert Abs(a - b) == Abs(b - a);
    assert Max(a, b) == Max(b, a);
  }

  // ---------------------------------------------------------------------------
  // find_best_match
  // ---------------------------------------------------------------------------

  datatype Quantidades = Quantidades(mg: real, ml: real, ui: real, unidades: real)

  function Campos(q: Quantidades): seq<real> { [q.mg, q.ml, q.ui, q.unidades] }

  /** A prepared master row: cleaned product, active ingredient and
      laboratory, and the four quantities. */
  datatype Mestre = Mestre(produto: string, principio: string, laboratorio: string, quant: Quantidades)

  /** A prepared input row: the six grouping keys of `executar_matching`. */
  datatype Entrada = Entrada(produto: string, laboratorio: string, quant: Quantidades)

  /** rapidfuzz's `token_set_ratio`, `token_sort_ratio` and `QRatio`. */
  datatype Pontuadores = Pontuadores(
    tokenSet: (string, string) -> real,
    tokenSort: (string, string) -> real,
    qRatio: (string, string) -> real)

  /** rapidfuzz scores lie in [0, 100]. */
  ghost predicate Limitados(p: Pontuadores) {
    forall a, b :: 0.0 <= p.tokenSet(a, b) <= 100.0 && 0.0 <= p.tokenSort(a, b) <= 100.0 && 0.0 <= p.qRatio(a, b) <= 100.0
  }

  /** `SYNONYM_MAP` and `PHARMA_STOPWORDS`. */
  datatype Lexico = Lexico(sinonimos: seq<Sinonimo>, stopwords: set<string>)

  /** The per-field scores of the fields the input quantifies (> 0), in field
      order. */
  function NotasCampos(e: seq<real>, c: seq<real>): (r: seq<real>)
    requires |e| == |c|
    ensures |r| <= |e|
    ensures forall k :: 0 <= k < |r| ==> r[k] == 0.0 || r[k] == 1.0
  {
    if |e| == 0 then []
    else (if e[0] > 0.0 then [PontuacaoNumerica(e[0], c[0], Tolerancia)] else []) + NotasCampos(e[1..], c[1..])
  }

  function Soma(xs: seq<real>): real {
    if |xs| == 0 then 0.0 else xs[0] + Soma(xs[1..])
  }

  lemma {:induction false} SomaLimitada(xs: seq<real>)
    requires forall k :: 0 <= k < |xs| ==> xs[k] == 0.0 || xs[k] == 1.0
    ensures 0.0 <= Soma(xs) <= |xs| as real
    ensures Soma(xs) == |xs| as real <==> forall k :: 0 <= k < |xs| ==> xs[k] == 1.0
    decreases |xs|
  {
    if |xs| > 0 {
      SomaLimitada(xs[1..]);
      assert forall k :: 1 <= k < |xs| ==> xs[k] == xs[1..][k - 1];
    }
  }

  /** The average numeric score: the mean over the quantified fields, 0.5
      when the input quantifies none. */
  function NotaNumerica(e: Quantidades, c: Quantidades): (r: real)
    ensures 0.0 <= r <= 1.0
    ensures |NotasCampos(Campos(e), Campos(c))| == 0 ==> r == Neutro
  {
    var ns := NotasCampos(Campos(e), Campos(c));
    if |ns| == 0 then Neutro
    else
      SomaLimitada(ns);
      Fracao(Soma(ns), |ns| as real);
      Soma(ns) / |ns| as real
  }

  lemma Fracao(a: real, n: real)
    requires 0.0 <= a <= n && n > 0.0
    ensures 0.0 <= a / n <= 1.0
  {
    assert a / n * n == a;
  }

  /** Every field the input quantifies is within tolerance of the
      candidate's. */
  predicate Dentro(e: seq<real>, c: seq<real>)
    requires |e| == |c|
  {
    forall k :: 0 <= k < |e| && e[k] > 0.0 ==> PontuacaoNumerica(e[k], c[k], Tolerancia) == 1.0
  }

  predicate Uns(xs: seq<real>) { forall k :: 0 <= k < |xs| ==> xs[k] == 1.0 }

  lemma UnsConcat(h: seq<real>, t: seq<real>)
    ensures Uns(h + t) <==> Uns(h) && Uns(t)
  {
    if Uns(h) && Uns(t) {
      forall k | 0 <= k < |h + t| ensures (h + t)[k] == 1.0 {
        if k >= |h| { assert (h + t)[k] == t[k - |h|]; }
      }
    }
    if Uns(h + t) {
      forall k | 0 <= k < |h| ensures h[k] == 1.0 { assert (h + t)[k] == h[k]; }
      forall k | 0 <= k < |t| ensures t[k] == 1.0 { assert (h + t)[k + |h|] == t[k]; }
    }
  }

  lemma DentroCons(e: seq<real>, c: seq<real>)
    requires |e| == |c| && |e| > 0
    ensures Dentro(e, c) <==> (e[0] > 0.0 ==> PontuacaoNumerica(e[0], c[0], Tolerancia) == 1.0) && Dentro(e[1..], c[1..])
  {
    assert forall k :: 1 <= k < |e| ==> e[k] == e[1..][k - 1] && c[k] == c[1..][k - 1];
    if (e[0] > 0.0 ==> PontuacaoNumerica(e[0], c[0], Tolerancia) == 1.0) && Dentro(e[1..], c[1..]) {
      forall k | 0 <= k < |e| && e[k] > 0.0 ensures PontuacaoNumerica(e[k], c[k], Tolerancia) == 1.0 {
        if k > 0 { assert e[1..][k - 1] > 0.0; }
      }
    }
  }

  /** The per-field scores are all 1 exactly when every quantified field is
      within tolerance. */
  lemma {:induction false} NotasCamposTodas(e: seq<real>, c: seq<real>)
    requires |e| == |c|
    ensures Uns(NotasCampos(e, c)) <==> Dentro(e, c)
    decreases |e|
  {
    if |e| > 0 {
      NotasCamposTodas(e[1..], c[1..]);
      var h: seq<real> := if e[0] > 0.0 then [PontuacaoNumerica(e[0], c[0], Tolerancia)] else [];
      assert NotasCampos(e, c) == h + NotasCampos(e[1..], c[1..]);
      UnsConcat(h, NotasCampos(e[1..], c[1..]));
      DentroCons(e, c);
    }
  }

  /** With at least one quantified field, the numeric score is 1 exactly when
      every quantified field is within tolerance. */
  lemma NotaNumericaPlena(e: Quantidades, c: Quantidades)
    requires |NotasCampos(Campos(e), Campos(c))| > 0
    ensures NotaNumerica(e, c) == 1.0 <==> Dentro(Campos(e), Campos(c))
  {
    MediaUm(NotasCampos(Campos(e), Campos(c)));
    NotasCamposTodas(Campos(e), Campos(c));
  }

  /** The mean of 0/1 scores is 1 exactly when every score is 1. */
  lemma MediaUm(ns: seq<real>)
    requires |ns| > 0
    requires forall k :: 0 <= k < |ns| ==> ns[k] == 0.0 || ns[k] == 1.0
    ensures Soma(ns) / |ns| as real == 1.0 <==> Uns(ns)
  {
    SomaLimitada(ns);
    var n := |ns| as real;
    assert Soma(ns) == (Soma(ns) / n) * n;
  }

  /** The laboratory score: the scaled token-set ratio, 0.5 when the input
      names no laboratory. */
  function NotaLab(lab: string, m: Mestre, p: Pontuadores): real {
    if lab != "" then p.tokenSet(lab, m.laboratorio) / 100.0 else Neutro
  }

  /** The name score: 40% of the best token-set ratio against the product or
      the active ingredient, 60% of the best token-sort ratio of the texts
      without stopwords. */
  function NotaNome(q: string, m: Mestre, lex: Lexico, p: Pontuadores): real {
    var qe := SemStopwords(Str(q), lex.stopwords);
    var base := Max(p.tokenSet(q, m.produto), p.tokenSet(q, m.principio));
    var esp := Max(p.tokenSort(qe, SemStopwords(Str(m.produto), lex.stopwords)),
                   p.tokenSort(qe, SemStopwords(Str(m.principio), lex.stopwords)));
    (base * 0.4 + esp * 0.6) / 100.0
  }

  function BonusPrecisao(q: string, m: Mestre, p: Pontuadores): real {
    if p.qRatio(q, m.produto) > LimiarBonus then Bonus else 0.0
  }

  /** `total_score` of a candidate for the query `q`. */
  function Total(q: string, e: Entrada, m: Mestre, lex: Lexico, p: Pontuadores): (r: real)
    ensures Limitados(p) ==> 0.0 <= r <= 1.0 + Bonus
  {
    NotaNome(q, m, lex, p) * PesoNome + NotaLab(e.laboratorio, m, p) * PesoLab
      + NotaNumerica(e.quant, m.quant) * PesoNum + BonusPrecisao(q, m, p)
  }

  /** `len(s & q) / len(s | q)`, 0 when both are empty. */
  function Jaccard(s: set<string>, q: set<string>): real {
    if |s| > 0 || |q| > 0 then |s * q| as real / |s + q| as real else 0.0
  }

  /** The candidate pool: every row listed under a query word in either
      index. */
  function Pool(ws: set<string>, ip: Indice, ia: Indice): set<nat> {
    set w, i | w in ws && i in Postagens(ip, w) + Postagens(ia, w) :: i
  }

  predicate PassaJaccard(m: Mestre, ws: set<string>) {
    Jaccard(Termos(m.produto), ws) > LimiarJaccard
  }

  /** The order `list(candidate_indices)` gives the elements of a set of row
      positions: CPython's set iteration order, which depends on the hashes
      and the insertion history and is left as a parameter. */
  type Iteracao = set<nat> -> seq<nat>

  /** An iteration order lists every element of the set once, and nothing
      else. */
  ghost predicate Enumera(ordem: Iteracao) {
    forall pool: set<nat> :: NoDup(ordem(pool)) && forall i :: i in ordem(pool) <==> i in pool
  }

  /** A master row in the pool that passes the Jaccard pre-filter. */
  function Aceita(m: seq<Mestre>, pool: set<nat>, ws: set<string>): nat -> bool {
    (i: nat) => i < |m| && i in pool && PassaJaccard(m[i], ws)
  }

  /** `candidates[candidates['jaccard_sim'] > JACCARD_PRE_FILTER_THRESHOLD]`
      over the candidates listed in `lista`, whose order is kept. */
  function Filtrados(m: seq<Mestre>, pool: set<nat>, ws: set<string>, lista: seq<nat>): (r: seq<nat>)
    ensures forall k :: 0 <= k < |r| ==> r[k] < |m| && r[k] in pool && PassaJaccard(m[r[k]], ws)
    ensures forall i :: i in lista && i < |m| && i in pool && PassaJaccard(m[i], ws) ==> i in r
  {
    Filter(lista, Aceita(m, pool, ws))
  }

  /** Listed in the iteration order of the pool, a row is kept exactly when
      it is in the pool and passes the pre-filter. */
  lemma FiltradosExatos(m: seq<Mestre>, pool: set<nat>, ws: set<string>, ordem: Iteracao, i: nat)
    requires Enumera(ordem)
    ensures i in Filtrados(m, pool, ws, ordem(pool)) <==> i < |m| && i in pool && PassaJaccard(m[i], ws)
  {
    var l := ordem(pool);
    assert i in pool ==> i in l;
    if i in pool && i < |m| && PassaJaccard(m[i], ws) {
      var a :| 0 <= a < |l| && l[a] == i;
      assert Aceita(m, pool, ws)(l[a]);
    }
    if i in Filtrados(m, pool, ws, l) {
      var r := Filtrados(m, pool, ws, l);
      var k :| 0 <= k < |r| && r[k] == i;
    }
  }

  /** `idxmax`: the position of the first maximum. */
  function PrimeiroMaximo(ts: seq<real>): (k: nat)
    requires |ts| > 0
    ensures k < |ts|
    ensures forall j :: 0 <= j < |ts| ==> ts[j] <= ts[k]
    ensures forall j :: 0 <= j < k ==> ts[j] < ts[k]
  {
    if |ts| == 1 then 0
    else
      var k := PrimeiroMaximo(ts[..|ts| - 1]);
      assert forall j :: 0 <= j < |ts| - 1 ==> ts[..|ts| - 1][j] == ts[j];
      if ts[|ts| - 1] > ts[k] then |ts| - 1 else k
  }

  datatype Status = EntradaVazia | SemCandidatosIndice | SemCandidatosJaccard | Encontrado

  datatype Resultado = Resultado(indice: Option<nat>, nota: real, status: Status)

  /** The query text: the cleaned input product after synonyms. */
  function Consulta(e: Entrada, lex: Lexico): string { AplicarSinonimos(Str(e.produto), lex.sinonimos) }

  function PoolDe(e: Entrada, ip: Indice, ia: Indice, lex: Lexico): set<nat> {
    Pool(Termos(Consulta(e, lex)), ip, ia)
  }

  /** The pool rows passing the pre-filter, in the pool's iteration order. */
  function Aprovados(e: Entrada, m: seq<Mestre>, ip: Indice, ia: Indice, lex: Lexico, ordem: Iteracao): seq<nat> {
    var pool := PoolDe(e, ip, ia, lex);
    Filtrados(m, pool, Termos(Consulta(e, lex)), ordem(pool))
  }

  function Notas(e: Entrada, m: seq<Mestre>, fs: seq<nat>, lex: Lexico, p: Pontuadores): (ts: seq<real>)
    requires forall k :: 0 <= k < |fs| ==> fs[k] < |m|
    ensures |ts| == |fs|
    ensures forall k :: 0 <= k < |fs| ==> ts[k] == Total(Consulta(e, lex), e, m[fs[k]], lex, p)
  {
    seq(|fs|, k requires 0 <= k < |fs| => Total(Consulta(e, lex), e, m[fs[k]], lex, p))
  }

  /** `find_best_match`, with `ordem` the iteration order of the candidate
      set. */
  function MelhorMatch(e: Entrada, m: seq<Mestre>, ip: Indice, ia: Indice, lex: Lexico, p: Pontuadores,
                       ordem: Iteracao): (r: Resultado)
    ensures r.status == EntradaVazia <==> Consulta(e, lex) == ""
    ensures r.status == SemCandidatosIndice <==> Consulta(e, lex) != "" && PoolDe(e, ip, ia, lex) == {}
    ensures r.status == SemCandidatosJaccard <==>
      Consulta(e, lex) != "" && PoolDe(e, ip, ia, lex) != {} && |Aprovados(e, m, ip, ia, lex, ordem)| == 0
    ensures r.indice.Some? <==> r.status == Encontrado
    ensures r.status != Encontrado ==> r.nota == 0.0
    ensures r.indice.Some? ==>
      (r.indice.value < |m| && r.indice.value in PoolDe(e, ip, ia, lex)
       && PassaJaccard(m[r.indice.value], Termos(Consulta(e, lex)))
       && r.indice.value in Aprovados(e, m, ip, ia, lex, ordem)
       && r.nota == Total(Consulta(e, lex), e, m[r.indice.value], lex, p))
  {
    var q := Consulta(e, lex);
    if q == "" then Resultado(None, 0.0, EntradaVazia)
    else if PoolDe(e, ip, ia, lex) == {} then Resultado(None, 0.0, SemCandidatosIndice)
    else
      var fs := Aprovados(e, m, ip, ia, lex, ordem);
      if |fs| == 0 then Resultado(None, 0.0, SemCandidatosJaccard)
      else
        var ts := Notas(e, m, fs, lex, p);
        var k := PrimeiroMaximo(ts);
        Resultado(Some(fs[k]), ts[k], Encontrado)
  }

  /** The winner scores at least as much as every candidate passing the
      pre-filter, and strictly more than every one listed before it in the
      candidate set's iteration order: ties go to the first listed. */
  lemma MelhorMatchMaximo(e: Entrada, m: seq<Mestre>, ip: Indice, ia: Indice, lex: Lexico, p: Pontuadores,
                          ordem: Iteracao, r: Resultado, j: nat)
    requires Enumera(ordem)
    requires MelhorMatch(e, m, ip, ia, lex, p, ordem) == r && r.indice.Some?
    requires j < |m| && j in PoolDe(e, ip, ia, lex) && PassaJaccard(m[j], Termos(Consulta(e, lex)))
    ensures Total(Consulta(e, lex), e, m[j], lex, p) <= r.nota
    ensures var fs := Aprovados(e, m, ip, ia, lex, ordem);
            forall a :: 0 <= a < Posicao(fs, r.indice.value) ==> Total(Consulta(e, lex), e, m[fs[a]], lex, p) < r.nota
  {
    var pool := PoolDe(e, ip, ia, lex);
    var q := Consulta(e, lex);
    var fs := Aprovados(e, m, ip, ia, lex, ordem);
    MelhorMatchEncontrado(e, m, ip, ia, lex, p, ordem, r);
    FiltradosExatos(m, pool, Termos(q), ordem, j);
    FilterNoDup(ordem(pool), Aceita(m, pool, Termos(q)));
    var nota := (i: nat) => if i < |m| then Total(q, e, m[i], lex, p) else 0.0;
    PrimeiroMaximoCandidatos(fs, Notas(e, m, fs, lex, p), nota, j, r.indice.value, r.nota);
  }

  /** Over candidates listed without repetition, the candidate at the first
      maximum of their scores scores at least as much as every listed
      candidate, and more than every one listed before it. */
  lemma PrimeiroMaximoCandidatos(fs: seq<nat>, ts: seq<real>, nota: nat -> real, j: nat, w: nat, v: real)
    requires NoDup(fs) && |ts| == |fs| && |fs| > 0
    requires forall k :: 0 <= k < |fs| ==> ts[k] == nota(fs[k])
    requires j in fs
    requires w == fs[PrimeiroMaximo(ts)] && v == ts[PrimeiroMaximo(ts)]
    ensures nota(j) <= v
    ensures forall b :: 0 <= b < Posicao(fs, w) ==> nota(fs[b]) < v
  {
    var a :| 0 <= a < |fs| && fs[a] == j;
    PrimeiroMaximoNaLista(fs, ts, a);
  }

  /** A found match is the first maximum of the approved candidates' scores. */
  lemma MelhorMatchEncontrado(e: Entrada, m: seq<Mestre>, ip: Indice, ia: Indice, lex: Lexico, p: Pontuadores,
                              ordem: Iteracao, r: Resultado)
    requires MelhorMatch(e, m, ip, ia, lex, p, ordem) == r && r.indice.Some?
    ensures var fs := Aprovados(e, m, ip, ia, lex, ordem);
            |fs| > 0 && (forall k :: 0 <= k < |fs| ==> fs[k] < |m|)
            && r.indice.value == fs[PrimeiroMaximo(Notas(e, m, fs, lex, p))]
            && r.nota == Notas(e, m, fs, lex, p)[PrimeiroMaximo(Notas(e, m, fs, lex, p))]
  {
  }

  /** Over candidates listed without repetition, the first maximum of their
      scores is at least every score and above every score listed before
      it, and that is its position in the list. */
  lemma PrimeiroMaximoNaLista(fs: seq<nat>, ts: seq<real>, a: nat)
    requires NoDup(fs) && |ts| == |fs| && a < |fs|
    ensures var k := PrimeiroMaximo(ts);
            ts[a] <= ts[k] && Posicao(fs, fs[k]) == k && forall b :: 0 <= b < k ==> ts[b] < ts[k]
  {
    PosicaoUnica(fs, PrimeiroMaximo(ts));
  }

  /** In a list without repetitions an element's position is where it
      stands. */
  lemma PosicaoUnica(s: seq<nat>, k: nat)
    requires NoDup(s) && k < |s|
    ensures Posicao(s, s[k]) == k
  {
    var x := Posicao(s, s[k]);
    assert s[x] == s[k];
  }

  /** Every candidate passing the pre-filter is in the pool: the pool is the
      union of the query words' postings. */
  lemma PoolUniao(ws: set<string>, ip: Indice, ia: Indice, i: nat)
    ensures i in Pool(ws, ip, ia) <==> exists w :: w in ws && (i in Postagens(ip, w) || i in Postagens(ia, w))
  {
    if exists w :: w in ws && (i in Postagens(ip, w) || i in Postagens(ia, w)) {
      var w :| w in ws && (i in Postagens(ip, w) || i in Postagens(ia, w));
      assert i in Postagens(ip, w) + Postagens(ia, w);
    }
  }

  // ---------------------------------------------------------------------------
  // executar_matching
  // ---------------------------------------------------------------------------

  function Produtos(m: seq<Mestre>): (r: seq<Value>)
    ensures |r| == |m|
  {
    seq(|m|, i requires 0 <= i < |m| => Str(m[i].produto))
  }

  function Principios(m: seq<Mestre>): (r: seq<Value>)
    ensures |r| == |m|
  {
    seq(|m|, i requires 0 <= i < |m| => Str(m[i].principio))
  }

  /** An output row: the input keys, the match result and the matched master
      row (when there is one). */
  datatype Linha = Linha(entrada: Entrada, resultado: Resultado, casado: Option<Mestre>)

  /** The position of `x` in `s`. */
  function Posicao<T(==)>(s: seq<T>, x: T): (k: nat)
    requires x in s
    ensures k < |s| && s[k] == x
  {
    if s[0] == x then 0 else 1 + Posicao(s[1..], x)
  }

  function Anexo(m: seq<Mestre>, r: Resultado): Option<Mestre> {
    if r.indice.Some? && r.indice.value < |m| then Some(m[r.indice.value]) else None
  }

  /** `executar_matching`: every distinct combination of the six keys is
      matched once; the results are joined back to every input row and then
      to the master row they name. */
  function ExecutarMatching(es: seq<Entrada>, m: seq<Mestre>, lex: Lexico, p: Pontuadores, ordem: Iteracao): (r: seq<Linha>)
    ensures |r| == |es|
    ensures forall i :: 0 <= i < |es| ==> r[i].entrada == es[i]
  {
    var ip := ConstruirIndice(Produtos(m));
    var ia := ConstruirIndice(Principios(m));
    var carga := Distinct(es);
    var res := seq(|carga|, j requires 0 <= j < |carga| => MelhorMatch(carga[j], m, ip, ia, lex, p, ordem));
    seq(|es|, i requires 0 <= i < |es| =>
      var rr := res[Posicao(carga, es[i])];
      Linha(es[i], rr, Anexo(m, rr)))
  }

  /** Scoring the distinct combinations once and broadcasting gives every row
      the result of matching that row on its own. */
  lemma DifusaoCorreta(es: seq<Entrada>, m: seq<Mestre>, lex: Lexico, p: Pontuadores, ordem: Iteracao, i: nat)
    requires i < |es|
    ensures ExecutarMatching(es, m, lex, p, ordem)[i].resultado
         == MelhorMatch(es[i], m, ConstruirIndice(Produtos(m)), ConstruirIndice(Principios(m)), lex, p, ordem)
  {
  }

  /** A matched row carries the master row its index names, which lies in the
      master. */
  lemma CasadoDoMestre(es: seq<Entrada>, m: seq<Mestre>, lex: Lexico, p: Pontuadores, ordem: Iteracao, i: nat)
    requires i < |es|
    ensures ExecutarMatching(es, m, lex, p, ordem)[i].resultado.indice.Some? ==>
      var k := ExecutarMatching(es, m, lex, p, ordem)[i].resultado.indice.value;
      k < |m| && ExecutarMatching(es, m, lex, p, ordem)[i].casado == Some(m[k])
  {
  }
}
