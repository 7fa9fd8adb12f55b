/** Product-name extraction (`pipelines/nfe/src/nfe_extracao_nomes.py`):
    each description is cleaned, then named in two passes. The first pass
    looks for the leftmost whole-word occurrence of a key of the product
    dictionary and maps the text it found through the dictionary; rows it
    leaves unnamed get the rule-based name: the description's words after
    the leading ignored terms, up to the first stop term or word with a
    digit, a lone E/F/K/T letter closing the name. The dictionary and the
    two term sets are loaded from JSON files, which is input the model
    takes as a parameter. */
module ExtracaoNomes {
  import opened Wrappers
  import opened Text
  import opened Scan
  import opened Frame
  import Busca

  const Nome := "NOME_PRODUTO"
  const Limpa := "descricao_limpa"

  // ---------------------------------------------------------------------------
  // preprocessar_descricoes
  // ---------------------------------------------------------------------------

  /** `str.removeprefix(p)`. */
  function SemPrefixo(s: string, p: string): (r: string)
    ensures StartsWith(s, p) ==> p + r == s
    ensures !StartsWith(s, p) ==> r == s
  {
    if StartsWith(s, p) then
      assert s == s[..|p|] + s[|p|..];
      s[|p|..]
    else s
  }

  /** `\b(ID|ITEM)\b`, case-sensitive (the text is already upper case). */
  function Rotulos(): Matcher { WholeWords(["ID", "ITEM"], false) }

  function Maiusculo(c: char): bool { UpperChar(c) == c }

  /** The cleaning of one description: strip, upper case, the whole words
      ID and ITEM deleted, one leading "C 1 " removed, whitespace runs made
      single spaces and the ends trimmed. The result is upper case with
      single spaces between its words. */
  function Preprocessar(s: string): (r: string)
    ensures Normalized(r) && IsUpperText(r)
  {
    var u := Upper(Strip(s));
    UpperIsUpper(Strip(s));
    var d := Delete(u, Rotulos());
    DeleteKeeps(u, Rotulos(), Maiusculo);
    var p := SemPrefixo(d, "C 1 ");
    assert AllChars(p, Maiusculo) by {
      if StartsWith(d, "C 1 ") {
        forall i | 0 <= i < |p| ensures Maiusculo(p[i]) { assert p[i] == d[i + 4]; }
      }
    }
    NormalizeSpacesKeeps(p, Maiusculo);
    NormalizeSpaces(p)
  }

  /** Normalised text is its own `strip()`. */
  lemma StripNormalized(s: string)
    requires Normalized(s)
    ensures Strip(s) == s
  {
    assert TrimLeftSp(s) == s;
    assert TrimRightSp(s) == s;
  }

  /** The cleaning removes only what it promises: text that is already upper
      case and normalised, holds neither whole word ID nor ITEM and does not
      start with "C 1 " comes back as it is. */
  lemma PreprocessarFixo(s: string)
    requires Normalized(s) && IsUpperText(s) && !StartsWith(s, "C 1 ")
    requires forall j :: 0 <= j < |s| ==> !MatchesAt(s, j, Rotulos())
    ensures Preprocessar(s) == s
  {
    StripNormalized(s);
    assert Upper(s) == s;
    SubNoMatch(s, Rotulos(), Nothing);
    NormalizedFixed(s);
  }

  /** The removed prefix goes only once: a description starting with
      "C 1 C 1 " keeps the second "C 1 ". */
  lemma PrefixoUmaVez(w: string)
    requires IsWord(w) && IsUpperText(w) && forall j :: 0 <= j < |w| ==> IsWordChar(w[j])
    requires forall j :: 0 <= j < |w| ==> !MatchesAt(w, j, Rotulos())
    ensures Preprocessar("C 1 C 1 " + w) == "C 1 " + w
  {
    var s := "C 1 C 1 " + w;
    var t := "C 1 " + w;
    PrefixoNormal("C 1 C 1 ", w);
    PrefixoNormal("C 1 ", w);
    forall j | 0 <= j < |s| ensures !MatchesAt(s, j, Rotulos()) {
      RotuloNaoCasa(s, w, j);
    }
    PreprocessarLimpo(s);
    PrefixoDuplo(w);
    NormalizedFixed(t);
  }

  /** On text that is already clean only the prefix rule acts. */
  lemma PreprocessarLimpo(s: string)
    requires Normalized(s) && IsUpperText(s)
    requires forall j :: 0 <= j < |s| ==> !MatchesAt(s, j, Rotulos())
    ensures Preprocessar(s) == NormalizeSpaces(SemPrefixo(s, "C 1 "))
  {
    StripNormalized(s);
    assert Upper(s) == s;
    SubNoMatch(s, Rotulos(), Nothing);
  }

  lemma PrefixoDuplo(w: string)
    ensures SemPrefixo("C 1 C 1 " + w, "C 1 ") == "C 1 " + w
  {
    var s := "C 1 C 1 " + w;
    assert s[..4] == "C 1 ";
  }

  /** A normalised upper-case prefix ending in one space, followed by an
      upper-case word, is normalised upper-case text. */
  lemma PrefixoNormal(pre: string, w: string)
    requires |pre| >= 2 && pre[|pre| - 1] == ' ' && Normalized(pre[..|pre| - 1]) && IsUpperText(pre)
    requires IsWord(w) && IsUpperText(w)
    ensures Normalized(pre + w) && IsUpperText(pre + w)
  {
    var s := pre + w;
    var n := |pre|;
    forall i | 0 <= i < |s| ensures (IsSpace(s[i]) ==> s[i] == ' ') && UpperChar(s[i]) == s[i] {
      if i >= n { assert s[i] == w[i - n]; }
      else if i < n - 1 { assert s[i] == pre[..n - 1][i]; }
    }
    forall i | 0 <= i < |s| - 1 ensures !(s[i] == ' ' && s[i + 1] == ' ') {
      if i >= n { assert s[i] == w[i - n]; }
      else if i == n - 1 { assert s[i + 1] == w[0]; }
      else if i == n - 2 { assert s[i] == pre[..n - 1][n - 2]; }
      else { assert s[i] == pre[..n - 1][i] && s[i + 1] == pre[..n - 1][i + 1]; }
    }
    assert s[0] == pre[..n - 1][0];
    assert s[|s| - 1] == w[|w| - 1];
  }

  /** Neither ID nor ITEM occurs as a whole word in "C 1 C 1 " + w when it
      does not occur in w. */
  lemma RotuloNaoCasa(s: string, w: string, j: nat)
    requires s == "C 1 C 1 " + w && |w| > 0 && j < |s|
    requires forall k :: 0 <= k < |w| ==> IsWordChar(w[k])
    requires forall k :: 0 <= k < |w| ==> !MatchesAt(w, k, Rotulos())
    ensures !MatchesAt(s, j, Rotulos())
  {
    if j >= 8 {
      var k := j - 8;
      var keys := ["ID", "ITEM"];
      assert !MatchesAt(w, k, Rotulos());
      forall q | 0 <= q < |keys| ensures !WholeWordAt(s, j, keys[q], false) {
        PalavraDeslocada(s, "C 1 C 1 ", w, j, keys[q]);
      }
        } else {
      assert s[j] == "C 1 C 1 "[j];
      OutraLetra(s, j, "ID");
      OutraLetra(s, j, "ITEM");
    }
  }

  /** A word cannot start where a different letter stands. */
  lemma OutraLetra(s: string, j: nat, key: string)
    requires |key| > 0 && j < |s| && s[j] != key[0]
    ensures !WholeWordAt(s, j, key, false)
  {
    if j + |key| <= |s| {
      assert s[j..j + |key|][0] == s[j];
    }
  }

  /** A whole word found past a prefix that ends in a non-word character is
      a whole word of the text after the prefix. */
  lemma PalavraDeslocada(s: string, pre: string, w: string, j: nat, key: string)
    requires s == pre + w && |pre| > 0 && !IsWordChar(pre[|pre| - 1]) && |pre| <= j
    ensures WholeWordAt(s, j, key, false) ==> WholeWordAt(w, j - |pre|, key, false)
  {
    var k := j - |pre|;
    if WholeWordAt(s, j, key, false) {
      assert s[j..j + |key|] == w[k..k + |key|];
      assert WordAt(s, j - 1) == WordAt(w, k - 1);
      assert WordAt(s, j) == WordAt(w, k);
      assert WordAt(s, j + |key| - 1) == WordAt(w, k + |key| - 1);
      assert WordAt(s, j + |key|) == WordAt(w, k + |key|);
    }
  }

  // ---------------------------------------------------------------------------
  // extrair_nome_logica
  // ---------------------------------------------------------------------------

  /** Python's `str.isdigit()` on the Latin-1 range: the ASCII digits and
      the superscripts one, two and three. */
  predicate DigitoPy(c: char) { IsDigit(c) || c == '¹' || c == '²' || c == '³' }

  predicate TemDigitoPy(w: string) { exists i :: 0 <= i < |w| && DigitoPy(w[i]) }

  /** The separators `[/\\;,.:]` that may follow the special letter. */
  predicate Separador(c: char) { c in {'/', '\\', ';', ',', '.', ':'} }

  /** `^[E-FKT](?:[/\\;,.:]*)$` with IGNORECASE: one of the letters E, F, K,
      T in either case, followed only by separators. */
  predicate LetraEspecial(w: string) {
    |w| > 0 && w[0] in {'E', 'F', 'K', 'T', 'e', 'f', 'k', 't'}
    && forall i :: 1 <= i < |w| ==> Separador(w[i])
  }

  /** The words a name may not hold: a stop term or a word with a digit. */
  predicate Barra(w: string, parada: set<string>) { w in parada || TemDigitoPy(w) }

  /** The leading ignored terms popped off: what remains is a suffix of the
      words, everything popped is an ignored term, and what remains does
      not start with one. */
  function PularIgnorados(ws: seq<string>, ignorados: set<string>): (r: seq<string>)
    ensures |r| <= |ws| && r == ws[|ws| - |r|..]
    ensures forall j :: 0 <= j < |ws| - |r| ==> ws[j] in ignorados
    ensures r == [] || r[0] !in ignorados
  {
    if ws != [] && ws[0] in ignorados then PularIgnorados(ws[1..], ignorados) else ws
  }

  /** The name loop over the remaining words. */
  function Tomar(ws: seq<string>, parada: set<string>): (m: seq<string>)
    ensures |m| <= |ws|
  {
    if ws == [] || Barra(ws[0], parada) then []
    else if LetraEspecial(ws[0]) then [ws[0][..1]]
    else [ws[0]] + Tomar(ws[1..], parada)
  }

  /** The name words, described position by position: every word but the
      last is the word at its place, none of them a stop term, a word with
      a digit or a special letter; the last is its word or, for a special
      letter, that word's first character; and the loop stops only at the
      end of the words, at a stop term or word with a digit, or after a
      special letter. */
  predicate NomeDe(ws: seq<string>, parada: set<string>, m: seq<string>) {
    && |m| <= |ws|
    && (forall j :: 0 <= j < |m| ==> !Barra(ws[j], parada))
    && (forall j :: 0 <= j < |m| - 1 ==> m[j] == ws[j] && !LetraEspecial(ws[j]))
    && (|m| > 0 ==> var u := |m| - 1;
          if LetraEspecial(ws[u]) then m[u] == ws[u][..1] else m[u] == ws[u])
    && (|m| < |ws| ==> Barra(ws[|m|], parada) || (|m| > 0 && LetraEspecial(ws[|m| - 1])))
  }

  /** The loop computes exactly the name the positional description gives. */
  lemma {:induction false} TomarNomeDe(ws: seq<string>, parada: set<string>)
    ensures NomeDe(ws, parada, Tomar(ws, parada))
    decreases |ws|
  {
    if ws != [] && !Barra(ws[0], parada) && !LetraEspecial(ws[0]) {
      var t := Tomar(ws[1..], parada);
      TomarNomeDe(ws[1..], parada);
      var m := [ws[0]] + t;
      assert Tomar(ws, parada) == m;
      forall j | 1 <= j < |m| ensures m[j] == t[j - 1] && ws[j] == ws[1..][j - 1] { }
    }
  }

  /** The positional description fixes the name: at most one word list
      meets it. */
  lemma {:induction false} NomeDeUnico(ws: seq<string>, parada: set<string>, m: seq<string>)
    requires NomeDe(ws, parada, m)
    ensures m == Tomar(ws, parada)
    decreases |ws|
  {
    if ws == [] || Barra(ws[0], parada) {
    } else if LetraEspecial(ws[0]) {
      assert |m| >= 1;
    } else {
      assert |m| >= 1;
      assert m[0] == ws[0];
      var t := m[1..];
      forall j | 0 <= j < |t| ensures !Barra(ws[1..][j], parada) { assert ws[1..][j] == ws[j + 1]; }
      forall j | 0 <= j < |t| - 1 ensures t[j] == ws[1..][j] && !LetraEspecial(ws[1..][j]) {
        assert ws[1..][j] == ws[j + 1];
      }
      if |t| < |ws| - 1 {
        assert ws[1..][|t|] == ws[|m|];
        if |t| == 0 { assert !LetraEspecial(ws[0]); }
      }
      if |t| > 0 { assert ws[1..][|t| - 1] == ws[|m| - 1]; }
      assert NomeDe(ws[1..], parada, t);
      NomeDeUnico(ws[1..], parada, t);
      assert m == [ws[0]] + t;
    }
  }

  /** Every name word is a word: the first character of a word is one. */
  lemma TomarPalavras(ws: seq<string>, parada: set<string>)
    requires forall k :: 0 <= k < |ws| ==> IsWord(ws[k])
    ensures forall k :: 0 <= k < |Tomar(ws, parada)| ==> IsWord(Tomar(ws, parada)[k])
  {
    TomarNomeDe(ws, parada);
  }

  /** The words of the description left once the leading ignored terms are
      gone. */
  function Restantes(s: string, ignorados: set<string>): seq<string> {
    PularIgnorados(Split(s), ignorados)
  }

  /** `extrair_nome_logica`: a value that is not text, or empty text, gives
      the empty name; otherwise the name words joined by single spaces.
      The name is normalised, and its words are the loop's words over what
      remains after the ignored terms. */
  function ExtrairNomeLogica(v: Value, ignorados: set<string>, parada: set<string>): (r: string)
    ensures !v.Str? || v.s == "" ==> r == ""
    ensures Normalized(r)
    ensures v.Str? ==> Split(r) == Tomar(Restantes(v.s, ignorados), parada)
  {
    if !v.Str? || v.s == "" then ""
    else
      var ws := Restantes(v.s, ignorados);
      RestantesPalavras(v.s, ignorados);
      var m := Tomar(ws, parada);
      TomarPalavras(ws, parada);
      JoinSpaceNormalized(m);
      SplitJoin(m);
      JoinSpace(m)
  }

  /** What remains after the ignored terms is a list of words. */
  lemma RestantesPalavras(s: string, ignorados: set<string>)
    ensures forall k :: 0 <= k < |Restantes(s, ignorados)| ==> IsWord(Restantes(s, ignorados)[k])
  {
    var ws := Restantes(s, ignorados);
    var all := Split(s);
    forall k | 0 <= k < |ws| ensures IsWord(ws[k]) { assert ws[k] == all[|all| - |ws| + k]; }
  }

  /** The rule-based name holds no digit: words with a digit end it, and a
      special letter is never a digit. */
  lemma NomeLogicaSemDigito(v: Value, ignorados: set<string>, parada: set<string>)
    ensures forall i :: 0 <= i < |ExtrairNomeLogica(v, ignorados, parada)| ==> !DigitoPy(ExtrairNomeLogica(v, ignorados, parada)[i])
  {
    if v.Str? && v.s != "" {
      var ws := Restantes(v.s, ignorados);
      TomarSemDigito(ws, parada);
      JoinSpaceSemDigito(Tomar(ws, parada));
    }
  }

  /** No name word holds a digit. */
  lemma TomarSemDigito(ws: seq<string>, parada: set<string>)
    ensures forall k :: 0 <= k < |Tomar(ws, parada)| ==> !TemDigitoPy(Tomar(ws, parada)[k])
  {
    var m := Tomar(ws, parada);
    TomarNomeDe(ws, parada);
    forall k | 0 <= k < |m| ensures !TemDigitoPy(m[k]) {
      if k < |m| - 1 || !LetraEspecial(ws[k]) {
        assert m[k] == ws[k] && !Barra(ws[k], parada);
      } else {
        assert m[k] == ws[k][..1];
      }
    }
  }

  lemma {:induction false} JoinSpaceSemDigito(m: seq<string>)
    requires forall k :: 0 <= k < |m| ==> !TemDigitoPy(m[k])
    ensures forall i :: 0 <= i < |JoinSpace(m)| ==> !DigitoPy(JoinSpace(m)[i])
    decreases |m|
  {
    if |m| > 1 {
      JoinSpaceSemDigito(m[1..]);
      var rest := JoinSpace(m[1..]);
      var s := m[0] + " " + rest;
      assert JoinSpace(m) == s;
      forall i | 0 <= i < |s| ensures !DigitoPy(s[i]) {
        if i < |m[0]| { assert s[i] == m[0][i]; }
        else if i > |m[0]| { assert s[i] == rest[i - |m[0]| - 1]; }
      }
    }
  }

  /** A description made only of ignored terms is given the empty name. */
  lemma SoIgnorados(s: string, ignorados: set<string>, parada: set<string>)
    requires forall k :: 0 <= k < |Split(s)| ==> Split(s)[k] in ignorados
    ensures ExtrairNomeLogica(Str(s), ignorados, parada) == ""
  {
  }

  // ---------------------------------------------------------------------------
  // The dictionary pass
  // ---------------------------------------------------------------------------

  /** What the stage is given: the product dictionary (exact key to name),
      its keys in the dictionary's order (the order of the regex's
      alternatives), the two term sets, and whether the product regex was
      compiled (`carregar_recursos` compiles it exactly when the
      dictionary is non-empty). */
  datatype Recursos = Recursos(produtos: map<string, string>, chaves: seq<string>,
                               ignorados: set<string>, parada: set<string>, comRegex: bool)

  /** The product regex `\b(k1|k2|...)\b` with IGNORECASE at a position:
      the text it matched. */
  function Chave(chaves: seq<string>): Busca.Achador<string> {
    (s: string, k: nat) =>
      var n := FirstKeyLen(chaves, s, k, true);
      if n > 0 && k + n <= |s| then Some(Busca.Achado(k + n, s[k..k + n])) else None
  }

  /** `str.extract(regex)` followed by `.map(produtos)`: the text of the
      leftmost key occurrence, as written in the description, looked up
      exactly in the dictionary. Without a compiled regex the pass does
      nothing. */
  function Rapido(s: string, rec: Recursos): (r: Option<string>)
    ensures !rec.comRegex ==> r.None?
    ensures r.Some? ==> exists k :: (0 <= k < |s| && Busca.Casa(s, k, Chave(rec.chaves))
              && (forall j :: 0 <= j < k ==> !Busca.Casa(s, j, Chave(rec.chaves)))
              && Chave(rec.chaves)(s, k).value.valor in rec.produtos
              && r.value == rec.produtos[Chave(rec.chaves)(s, k).value.valor])
  {
    if !rec.comRegex then None
    else match Busca.Procurar(s, 0, Chave(rec.chaves))
      case None => None
      case Some(k) =>
        var achado := Chave(rec.chaves)(s, k).value.valor;
        if achado in rec.produtos then Some(rec.produtos[achado]) else None
  }

  /** A key found as a whole word is only resolved when the text found is
      itself a key: the search ignores case but the lookup does not, so a
      lower-case key never resolves in upper-cased text. */
  lemma ChaveMinusculaNaoResolve(s: string, rec: Recursos)
    requires IsUpperText(s)
    requires forall k :: k in rec.produtos ==> !IsUpperText(k)
    ensures Rapido(s, rec).None?
  {
  }

  /** The name of one cleaned description: the dictionary's when the first
      pass resolves it, the rule-based one otherwise. */
  function NomeProduto(s: string, rec: Recursos): (r: string)
    ensures Rapido(s, rec).Some? ==> r == Rapido(s, rec).value
    ensures Rapido(s, rec).None? ==> r == ExtrairNomeLogica(Str(s), rec.ignorados, rec.parada)
  {
    match Rapido(s, rec)
    case Some(n) => n
    case None => ExtrairNomeLogica(Str(s), rec.ignorados, rec.parada)
  }

  /** Without a compiled regex every row is named by the rules, so its name
      carries no digit. */
  lemma SemRegexSoRegras(s: string, rec: Recursos)
    requires !rec.comRegex
    ensures NomeProduto(s, rec) == ExtrairNomeLogica(Str(s), rec.ignorados, rec.parada)
    ensures forall i :: 0 <= i < |NomeProduto(s, rec)| ==> !DigitoPy(NomeProduto(s, rec)[i])
  {
    NomeLogicaSemDigito(Str(s), rec.ignorados, rec.parada);
  }

  // ---------------------------------------------------------------------------
  // executar_extracao_nomes
  // ---------------------------------------------------------------------------

  function ColunaNome(col: string, rec: Recursos, repr: Value -> string): Row -> Value {
    (row: Row) => Str(NomeProduto(Preprocessar(Texto(Get(row, col), repr)), rec))
  }

  /** `executar_extracao_nomes` with its resources given: a frame without
      the description column comes back as it is; otherwise NOME_PRODUTO
      holds, for every row, the name of the cleaned description (text
      always, never missing), the helper column is gone, and every other
      cell stays. */
  function ExecutarExtracaoNomes(t: Table, col: string, rec: Recursos, repr: Value -> string): (r: Table)
    requires WellFormed(t)
    ensures WellFormed(r) && |r.rows| == |t.rows|
    ensures col !in t.cols ==> r == t
    ensures col in t.cols ==> forall c :: c in r.cols <==> (c in t.cols || c == Nome) && c != Limpa
    ensures col in t.cols ==> forall i :: 0 <= i < |t.rows| ==>
              Get(r.rows[i], Nome) == Str(NomeProduto(Preprocessar(Texto(Get(t.rows[i], col), repr)), rec))
    ensures forall i, c :: 0 <= i < |t.rows| && c != Nome && c != Limpa ==> Get(r.rows[i], c) == Get(t.rows[i], c)
  {
    if col !in t.cols then t
    else
      var n := SetCol(t, Nome, ColunaNome(col, rec, repr));
      var r := DropCols(n, (c: string) => c == Limpa);
      DropGet(n, (c: string) => c == Limpa);
      r
  }

  /** Every row of the result is named, and a row the dictionary pass
      leaves open is named by the rules. */
  lemma ExtracaoSemNulos(t: Table, col: string, rec: Recursos, repr: Value -> string, i: nat)
    requires WellFormed(t) && col in t.cols && i < |t.rows|
    ensures Get(ExecutarExtracaoNomes(t, col, rec, repr).rows[i], Nome).Str?
    ensures var s := Preprocessar(Texto(Get(t.rows[i], col), repr));
            Rapido(s, rec).None? ==>
              Get(ExecutarExtracaoNomes(t, col, rec, repr).rows[i], Nome).s == ExtrairNomeLogica(Str(s), rec.ignorados, rec.parada)
  {
  }
}
