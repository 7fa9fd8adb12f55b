/** Invoice description cleanup (`src/nfe_limpeza.py`): spaces are put at
    the boundaries between digits, letters and symbols, special characters
    and a leading item number are removed, the substitution table is
    applied, an unwanted first word is dropped and the text is upper-cased;
    the quantity column becomes an integer. The substitution table itself
    is a parameter. */
module NfeLimpeza {
  import opened Wrappers
  import opened Text
  import opened Scan
  import opened Frame

  const Descricao := "descricao_produto"
  const Quantidade := "quantidade"

  // ---------------------------------------------------------------------------
  // Spaces at class boundaries
  // ---------------------------------------------------------------------------

  /** Two character classes without a common character. */
  predicate Disjuntas(a: char -> bool, b: char -> bool) {
    forall c: char :: a(c) ==> !b(c)
  }

  /** The reference definition: one space at every boundary where a
      character of `a` is directly followed by one of `b`. */
  function Espacar(s: string, a: char -> bool, b: char -> bool): (r: string)
    ensures |s| > 0 ==> |r| > 0 && r[0] == s[0]
    decreases |s|
  {
    if |s| < 2 then s
    else [s[0]] + (if a(s[0]) && b(s[1]) then " " else "") + Espacar(s[1..], a, b)
  }

  /** No character of `a` is directly followed by one of `b`. */
  predicate SemFronteira(s: string, a: char -> bool, b: char -> bool) {
    forall i :: 0 <= i < |s| - 1 ==> !(a(s[i]) && b(s[i + 1]))
  }

  /** The pattern `(A)(B)` at `i`. */
  function Par(a: char -> bool, b: char -> bool): Matcher {
    (s: string, i: nat) => if i + 1 < |s| && a(s[i]) && b(s[i + 1]) then 2 else 0
  }

  /** The replacement `\1 \2`. */
  function Separar(m: string): string {
    if |m| == 2 then [m[0], ' ', m[1]] else m
  }

  /** `re.sub(r'(A)(B)', r'\1 \2', s)`: matches consume both characters,
      yet for disjoint classes no boundary is missed, since the second
      character of a match cannot start the next one. */
  function EspacarRe(s: string, a: char -> bool, b: char -> bool): (r: string)
    ensures Disjuntas(a, b) ==> r == Espacar(s, a, b)
  {
    if Disjuntas(a, b) then
      SubFromPar(s, 0, a, b);
      Sub(s, Par(a, b), Separar)
    else Sub(s, Par(a, b), Separar)
  }

  lemma {:induction false} SubFromPar(s: string, i: nat, a: char -> bool, b: char -> bool)
    requires i <= |s| && Disjuntas(a, b)
    ensures SubFrom(s, i, Par(a, b), Separar) == Espacar(s[i..], a, b)
    decreases |s| - i
  {
    if i < |s| {
      var t := s[i..];
      assert t[1..] == s[i + 1..];
      if i + 1 < |s| && a(s[i]) && b(s[i + 1]) {
        SubFromPar(s, i + 2, a, b);
        ParCasa(s, i, a, b);
        assert t[0] == s[i] && t[1] == s[i + 1];
        EspacarComEspaco(t, a, b);
        EspacarSemEspaco(t[1..], a, b);
        assert t[1..][1..] == s[i + 2..];
      } else {
        SubFromPar(s, i + 1, a, b);
        ParNaoCasa(s, i, a, b);
        EspacarSemEspaco(t, a, b);
      }
    }
  }

  /** A match of `(A)(B)` becomes the two characters with a space between. */
  lemma ParCasa(s: string, i: nat, a: char -> bool, b: char -> bool)
    requires i + 1 < |s| && a(s[i]) && b(s[i + 1])
    ensures SubFrom(s, i, Par(a, b), Separar) == [s[i], ' ', s[i + 1]] + SubFrom(s, i + 2, Par(a, b), Separar)
  {
    assert Par(a, b)(s, i) == 2;
    assert s[i..i + 2] == [s[i], s[i + 1]];
  }

  /** Where `(A)(B)` does not match, the character is copied. */
  lemma ParNaoCasa(s: string, i: nat, a: char -> bool, b: char -> bool)
    requires i < |s| && !(i + 1 < |s| && a(s[i]) && b(s[i + 1]))
    ensures SubFrom(s, i, Par(a, b), Separar) == [s[i]] + SubFrom(s, i + 1, Par(a, b), Separar)
  {
    assert Par(a, b)(s, i) == 0;
  }

  lemma EspacarComEspaco(t: string, a: char -> bool, b: char -> bool)
    requires |t| >= 2 && a(t[0]) && b(t[1])
    ensures Espacar(t, a, b) == [t[0], ' '] + Espacar(t[1..], a, b)
  {
  }

  lemma EspacarSemEspaco(t: string, a: char -> bool, b: char -> bool)
    requires |t| >= 1 && !(|t| >= 2 && a(t[0]) && b(t[1]))
    ensures Espacar(t, a, b) == [t[0]] + Espacar(t[1..], a, b)
  {
    if |t| == 1 {
      assert t[1..] == "" && t == [t[0]];
    }
  }

  /** After spacing, no boundary between the two classes is left, as long
      as neither class holds the space. */
  lemma {:induction false} EspacarSemFronteira(s: string, a: char -> bool, b: char -> bool)
    requires !a(' ') && !b(' ')
    ensures SemFronteira(Espacar(s, a, b), a, b)
    decreases |s|
  {
    if |s| >= 2 {
      EspacarSemFronteira(s[1..], a, b);
      var t := Espacar(s[1..], a, b);
      var sp := if a(s[0]) && b(s[1]) then " " else "";
      var r := [s[0]] + sp + t;
      assert r == Espacar(s, a, b);
      forall i | 0 <= i < |r| - 1 ensures !(a(r[i]) && b(r[i + 1])) {
        if i >= |sp| + 1 {
          assert r[i] == t[i - |sp| - 1] && r[i + 1] == t[i - |sp|];
        }
      }
    }
  }

  /** Spacing for one pair of classes keeps the absence of boundaries of
      any other pair that does not involve the space: it only inserts
      spaces, and only between a character of `a` and one of `b`. */
  lemma {:induction false} EspacarMantem(s: string, a: char -> bool, b: char -> bool, c: char -> bool, d: char -> bool)
    requires !c(' ') && !d(' ') && SemFronteira(s, c, d)
    ensures SemFronteira(Espacar(s, a, b), c, d)
    decreases |s|
  {
    if |s| >= 2 {
      EspacarMantem(s[1..], a, b, c, d);
      var t := Espacar(s[1..], a, b);
      var sp := if a(s[0]) && b(s[1]) then " " else "";
      var r := [s[0]] + sp + t;
      assert r == Espacar(s, a, b);
      forall i | 0 <= i < |r| - 1 ensures !(c(r[i]) && d(r[i + 1])) {
        if i >= |sp| + 1 {
          assert r[i] == t[i - |sp| - 1] && r[i + 1] == t[i - |sp|];
        }
      }
    }
  }

  /** Spacing only inserts spaces: without its spaces the text is the
      input without its spaces. */
  lemma {:induction false} EspacarSoEspacos(s: string, a: char -> bool, b: char -> bool)
    ensures RemoveChar(Espacar(s, a, b), ' ') == RemoveChar(s, ' ')
    decreases |s|
  {
    if |s| >= 2 {
      EspacarSoEspacos(s[1..], a, b);
      var sp := if a(s[0]) && b(s[1]) then " " else "";
      var t := Espacar(s[1..], a, b);
      RemoveCharAppend([s[0]] + sp, t, ' ');
      SemEspacoExtra(s[0], sp);
      RemoveCharAppend([s[0]], s[1..], ' ');
      assert [s[0]] + s[1..] == s;
    }
  }

  lemma SemEspacoExtra(x: char, sp: string)
    requires sp == "" || sp == " "
    ensures RemoveChar([x] + sp, ' ') == RemoveChar([x], ' ')
  {
    RemoveCharAppend([x], sp, ' ');
  }

  /** Text without a boundary between the classes is left as it is. */
  lemma {:induction false} EspacarFixo(s: string, a: char -> bool, b: char -> bool)
    requires SemFronteira(s, a, b)
    ensures Espacar(s, a, b) == s
    decreases |s|
  {
    if |s| >= 2 {
      assert SemFronteira(s[1..], a, b) by {
        forall i | 0 <= i < |s| - 2 ensures !(a(s[1..][i]) && b(s[1..][i + 1])) {
          assert s[1..][i] == s[i + 1] && s[1..][i + 1] == s[i + 2];
        }
      }
      EspacarFixo(s[1..], a, b);
      assert !(a(s[0]) && b(s[1]));
      assert [s[0]] + s[1..] == s;
    }
  }

  // ---------------------------------------------------------------------------
  // PADROES_ESPACO
  // ---------------------------------------------------------------------------

  /** `[^\w\s]`. */
  function Simbolo(c: char): bool { !IsWordChar(c) && !IsSpace(c) }

  /** `[+;.,\-/\\]`. */
  function Pontuacao(c: char): bool { c in "+;.,-/\\" }

  /** The eight spacing patterns, in their order: digit/letter,
      letter/digit, letter/symbol, symbol/letter, digit/symbol,
      symbol/digit, then letter/punctuation and punctuation/letter. */
  function Espacamento(s: string): string {
    var p1 := EspacarRe(s, IsDigit, IsAsciiLetter);
    var p2 := EspacarRe(p1, IsAsciiLetter, IsDigit);
    var p3 := EspacarRe(p2, IsAsciiLetter, Simbolo);
    var p4 := EspacarRe(p3, Simbolo, IsAsciiLetter);
    var p5 := EspacarRe(p4, IsDigit, Simbolo);
    var p6 := EspacarRe(p5, Simbolo, IsDigit);
    var p7 := EspacarRe(p6, IsAsciiLetter, Pontuacao);
    EspacarRe(p7, Pontuacao, IsAsciiLetter)
  }

  /** No two of digit, letter and symbol touch once the spacing patterns
      ran. */
  predicate Espacado(s: string) {
    SemFronteira(s, IsDigit, IsAsciiLetter) && SemFronteira(s, IsAsciiLetter, IsDigit)
    && SemFronteira(s, IsAsciiLetter, Simbolo) && SemFronteira(s, Simbolo, IsAsciiLetter)
    && SemFronteira(s, IsDigit, Simbolo) && SemFronteira(s, Simbolo, IsDigit)
  }

  /** After the first six patterns no digit, letter or symbol touches a
      character of another of those classes, and the last two patterns
      change nothing: their punctuation is made of symbols. */
  lemma EspacamentoSeparado(s: string)
    ensures Espacado(Espacamento(s))
    ensures Espacamento(s) == Seis(s)
  {
    var p6 := Seis(s);
    EspacamentoRe(s);
    SeisEspacado(s);
    PontuacaoFixa(p6);
  }

  /** With disjoint classes every pattern is the reference spacing. */
  lemma EspacamentoRe(s: string)
    ensures Espacamento(s) == Espacar(Espacar(Seis(s), IsAsciiLetter, Pontuacao), Pontuacao, IsAsciiLetter)
  {
    ClassesDisjuntas();
  }

  /** Text without letter/symbol boundaries has no letter/punctuation
      boundaries, so the last two patterns leave it alone. */
  lemma PontuacaoFixa(p6: string)
    requires SemFronteira(p6, IsAsciiLetter, Simbolo) && SemFronteira(p6, Simbolo, IsAsciiLetter)
    ensures Espacar(Espacar(p6, IsAsciiLetter, Pontuacao), Pontuacao, IsAsciiLetter) == p6
  {
    PontuacaoSimbolo(p6);
    EspacarFixo(p6, IsAsciiLetter, Pontuacao);
    EspacarFixo(p6, Pontuacao, IsAsciiLetter);
  }

  lemma PontuacaoSimbolo(p6: string)
    requires SemFronteira(p6, IsAsciiLetter, Simbolo) && SemFronteira(p6, Simbolo, IsAsciiLetter)
    ensures SemFronteira(p6, IsAsciiLetter, Pontuacao) && SemFronteira(p6, Pontuacao, IsAsciiLetter)
  {
    forall i | 0 <= i < |p6| ensures Pontuacao(p6[i]) ==> Simbolo(p6[i]) {
      if Pontuacao(p6[i]) {
        assert p6[i] in "+;.,-/\\";
      }
    }
  }

  lemma SeisEspacado(s: string)
    ensures Espacado(Seis(s))
  {
    var p1 := Espacar(s, IsDigit, IsAsciiLetter);
    var p2 := Espacar(p1, IsAsciiLetter, IsDigit);
    var p3 := Espacar(p2, IsAsciiLetter, Simbolo);
    var p4 := Espacar(p3, Simbolo, IsAsciiLetter);
    var p5 := Espacar(p4, IsDigit, Simbolo);
    var p6 := Espacar(p5, Simbolo, IsDigit);
    assert p6 == Seis(s);
    EspacarSemFronteira(s, IsDigit, IsAsciiLetter);
    EspacarSemFronteira(p1, IsAsciiLetter, IsDigit);
    EspacarSemFronteira(p2, IsAsciiLetter, Simbolo);
    EspacarSemFronteira(p3, Simbolo, IsAsciiLetter);
    EspacarSemFronteira(p4, IsDigit, Simbolo);
    EspacarSemFronteira(p5, Simbolo, IsDigit);
    Depois1(p1, p2, p3, p4, p5, p6);
    Depois2(p2, p3, p4, p5, p6);
    Depois3(p3, p4, p5, p6);
    EspacarMantem(p4, IsDigit, Simbolo, Simbolo, IsAsciiLetter);
    EspacarMantem(p5, Simbolo, IsDigit, Simbolo, IsAsciiLetter);
    EspacarMantem(p5, Simbolo, IsDigit, IsDigit, Simbolo);
  }

  lemma ClassesDisjuntas()
    ensures Disjuntas(IsDigit, IsAsciiLetter) && Disjuntas(IsAsciiLetter, IsDigit)
    ensures Disjuntas(IsAsciiLetter, Simbolo) && Disjuntas(Simbolo, IsAsciiLetter)
    ensures Disjuntas(IsDigit, Simbolo) && Disjuntas(Simbolo, IsDigit)
    ensures Disjuntas(IsAsciiLetter, Pontuacao) && Disjuntas(Pontuacao, IsAsciiLetter)
  {
  }

  /** The first six patterns. */
  function Seis(s: string): string {
    var p1 := Espacar(s, IsDigit, IsAsciiLetter);
    var p2 := Espacar(p1, IsAsciiLetter, IsDigit);
    var p3 := Espacar(p2, IsAsciiLetter, Simbolo);
    var p4 := Espacar(p3, Simbolo, IsAsciiLetter);
    var p5 := Espacar(p4, IsDigit, Simbolo);
    Espacar(p5, Simbolo, IsDigit)
  }

  /** The digit/letter boundaries stay absent through the later passes. */
  lemma Depois1(p1: string, p2: string, p3: string, p4: string, p5: string, p6: string)
    requires SemFronteira(p1, IsDigit, IsAsciiLetter)
    requires p2 == Espacar(p1, IsAsciiLetter, IsDigit) && p3 == Espacar(p2, IsAsciiLetter, Simbolo)
    requires p4 == Espacar(p3, Simbolo, IsAsciiLetter) && p5 == Espacar(p4, IsDigit, Simbolo)
    requires p6 == Espacar(p5, Simbolo, IsDigit)
    ensures SemFronteira(p6, IsDigit, IsAsciiLetter)
  {
    EspacarMantem(p1, IsAsciiLetter, IsDigit, IsDigit, IsAsciiLetter);
    EspacarMantem(p2, IsAsciiLetter, Simbolo, IsDigit, IsAsciiLetter);
    EspacarMantem(p3, Simbolo, IsAsciiLetter, IsDigit, IsAsciiLetter);
    EspacarMantem(p4, IsDigit, Simbolo, IsDigit, IsAsciiLetter);
    EspacarMantem(p5, Simbolo, IsDigit, IsDigit, IsAsciiLetter);
  }

  /** The letter/digit boundaries stay absent through the later passes. */
  lemma Depois2(p2: string, p3: string, p4: string, p5: string, p6: string)
    requires SemFronteira(p2, IsAsciiLetter, IsDigit)
    requires p3 == Espacar(p2, IsAsciiLetter, Simbolo) && p4 == Espacar(p3, Simbolo, IsAsciiLetter)
    requires p5 == Espacar(p4, IsDigit, Simbolo) && p6 == Espacar(p5, Simbolo, IsDigit)
    ensures SemFronteira(p6, IsAsciiLetter, IsDigit)
  {
    EspacarMantem(p2, IsAsciiLetter, Simbolo, IsAsciiLetter, IsDigit);
    EspacarMantem(p3, Simbolo, IsAsciiLetter, IsAsciiLetter, IsDigit);
    EspacarMantem(p4, IsDigit, Simbolo, IsAsciiLetter, IsDigit);
    EspacarMantem(p5, Simbolo, IsDigit, IsAsciiLetter, IsDigit);
  }

  /** The letter/symbol boundaries stay absent through the later passes. */
  lemma Depois3(p3: string, p4: string, p5: string, p6: string)
    requires SemFronteira(p3, IsAsciiLetter, Simbolo)
    requires p4 == Espacar(p3, Simbolo, IsAsciiLetter) && p5 == Espacar(p4, IsDigit, Simbolo)
    requires p6 == Espacar(p5, Simbolo, IsDigit)
    ensures SemFronteira(p6, IsAsciiLetter, Simbolo)
  {
    EspacarMantem(p3, Simbolo, IsAsciiLetter, IsAsciiLetter, Simbolo);
    EspacarMantem(p4, IsDigit, Simbolo, IsAsciiLetter, Simbolo);
    EspacarMantem(p5, Simbolo, IsDigit, IsAsciiLetter, Simbolo);
  }

  // ---------------------------------------------------------------------------
  // REMOVER_ESPECIAIS
  // ---------------------------------------------------------------------------

  /** The single characters of `REMOVER_ESPECIAIS`. */
  predicate Especial(c: char) { c in "\"#$'()*-@." }

  function NaoEspecial(c: char): bool { !Especial(c) }

  /** `\(N\)|["#\$\'\(\)\*\-@\.]` at `i`: the marker "(N)" is tried
      first, so its letter goes with its parentheses. */
  function Especiais(s: string, i: nat): nat {
    if i + 3 <= |s| && s[i..i + 3] == "(N)" then 3
    else if i < |s| && Especial(s[i]) then 1
    else 0
  }

  /** Step 3: the specials deleted, whitespace runs made single spaces and
      the ends trimmed. No special character is left. */
  function SemEspeciais(s: string): (r: string)
    ensures Normalized(r) && AllChars(r, NaoEspecial)
  {
    var d := Delete(s, Especiais);
    EspeciaisApagados(s);
    NormalizeSpacesKeeps(d, NaoEspecial);
    NormalizeSpaces(d)
  }

  /** Every special character is the start of a match, so none survives
      the deletion. */
  lemma EspeciaisApagados(s: string)
    ensures AllChars(Delete(s, Especiais), NaoEspecial)
  {
    forall j | 0 <= j < |s| && !MatchesAt(s, j, Especiais) ensures NaoEspecial(s[j]) {
    }
    DeleteFromUnmatched(s, 0, Especiais, NaoEspecial);
  }

  /** Normalised text without special characters is left as it is. */
  lemma SemEspeciaisFixo(s: string)
    requires Normalized(s) && AllChars(s, NaoEspecial)
    ensures SemEspeciais(s) == s
  {
    forall j | 0 <= j < |s| ensures !MatchesAt(s, j, Especiais) {
      if j + 3 <= |s| {
        assert s[j..j + 3][0] == s[j];
      }
    }
    SubNoMatch(s, Especiais, Nothing);
    NormalizedFixed(s);
  }

  /** The marker "(N)" goes as a whole, letter included, while a lone "N"
      stays. */
  lemma MarcaN()
    ensures Delete("A(N)", Especiais) == "A"
    ensures Delete("AN", Especiais) == "AN"
  {
    var s := "A(N)";
    assert s[1..4] == "(N)";
    assert Especiais(s, 1) == 3;
    assert SubFrom(s, 4, Especiais, Nothing) == "";
    assert SubFrom(s, 1, Especiais, Nothing) == "";
    assert !MatchesAt(s, 0, Especiais);
    var t := "AN";
    assert !MatchesAt(t, 1, Especiais) && !MatchesAt(t, 0, Especiais);
    assert SubFrom(t, 1, Especiais, Nothing) == "N";
  }

  // ---------------------------------------------------------------------------
  // The leading item number
  // ---------------------------------------------------------------------------

  function Mais(c: char): bool { c == '+' }

  /** The length of the match of `^\+*\d+\s+`, 0 when there is none. Each
      run is greedy, and since '+', digits and whitespace are disjoint no
      backtracking could make a failed match succeed. */
  function NumeroInicial(s: string): (n: nat)
    ensures n <= |s|
    ensures n > 0 ==> n == |s| || !IsSpace(s[n])
  {
    var p := CharRun(s, 0, Mais);
    var d := CharRun(s, p, IsDigit);
    var w := SpaceRun(s, p + d);
    if d > 0 && w > 0 then p + d + w else 0
  }

  /** Step 4: `str.replace(r'^\+*\d+\s+', '')`. */
  function RemoverNumeroInicial(s: string): (r: string)
    ensures Normalized(s) ==> Normalized(r)
  {
    var n := NumeroInicial(s);
    if Normalized(s) then NormalizedSuffix(s, n); s[n..] else s[n..]
  }

  /** An item number: '+' signs then digits, with at least one digit and
      no '+' after a digit. */
  predicate NumeroItem(w: string) {
    |w| > 0 && IsDigit(w[|w| - 1])
    && (forall k :: 0 <= k < |w| ==> w[k] == '+' || IsDigit(w[k]))
    && (forall k :: 0 < k < |w| ==> !(IsDigit(w[k - 1]) && w[k] == '+'))
  }

  /** On normalised text the step removes exactly the first word, and does
      so if and only if that word is an item number followed by more
      words. */
  lemma NumeroInicialPalavra(s: string)
    requires Normalized(s)
    ensures var ws := Split(s);
            (NumeroInicial(s) > 0 <==> |ws| >= 2 && NumeroItem(ws[0]))
            && (NumeroInicial(s) > 0 ==> Split(RemoverNumeroInicial(s)) == ws[1..])
            && (NumeroInicial(s) == 0 ==> RemoverNumeroInicial(s) == s)
  {
    if |s| > 0 {
      var n := WordLen(s);
      WordLenFacts(s);
      if n == |s| {
        SplitWord(s);
        NumeroSemEspaco(s);
      } else {
        var rest := NormalizedTail(s);
        SplitWordTail(s, rest);
        NumeroPrimeiraPalavra(s);
        if NumeroInicial(s) > 0 {
          assert RemoverNumeroInicial(s) == rest;
        }
      }
    }
  }

  /** A single word holds no match: the pattern needs whitespace. */
  lemma NumeroSemEspaco(s: string)
    requires forall i :: 0 <= i < |s| ==> !IsSpace(s[i])
    ensures NumeroInicial(s) == 0
  {
    var p := CharRun(s, 0, Mais);
    var d := CharRun(s, p, IsDigit);
    assert SpaceRun(s, p + d) == 0;
  }

  /** On text whose first word is followed by a single space, the pattern
      matches exactly when that word is an item number, and then it spans
      the word and the space. */
  lemma NumeroPrimeiraPalavra(s: string)
    requires |s| > 0 && WordLen(s) + 1 < |s| && s[WordLen(s)] == ' ' && !IsSpace(s[WordLen(s) + 1])
    ensures NumeroInicial(s) > 0 <==> NumeroItem(s[..WordLen(s)])
    ensures NumeroInicial(s) > 0 ==> NumeroInicial(s) == WordLen(s) + 1
  {
    var n := WordLen(s);
    WordLenFacts(s);
    var p := CharRun(s, 0, Mais);
    var d := CharRun(s, p, IsDigit);
    if NumeroInicial(s) > 0 {
      RunsPalavra(s, n, p, d);
      NumeroDasRuns(s, n, p);
    } else if NumeroItem(s[..n]) {
      NumeroItemCorre(s, n, p, d);
    }
  }

  /** A match of the two runs ends where the first word ends. */
  lemma RunsPalavra(s: string, n: nat, p: nat, d: nat)
    requires n + 1 < |s| && n == WordLen(s) && IsSpace(s[n]) && !IsSpace(s[n + 1])
    requires forall k :: 0 <= k < n ==> !IsSpace(s[k])
    requires p == CharRun(s, 0, Mais) && d == CharRun(s, p, IsDigit) && NumeroInicial(s) > 0
    ensures d > 0 && p + d == n && NumeroInicial(s) == n + 1
  {
    assert !IsDigit(s[n]) && !Mais(s[n]);
    assert IsSpace(s[p + d]);
    assert SpaceRun(s, n + 1) == 0;
  }

  /** Characters read by the runs form an item number. */
  lemma NumeroDasRuns(s: string, n: nat, p: nat)
    requires 0 < n <= |s| && p == CharRun(s, 0, Mais) && p + CharRun(s, p, IsDigit) == n && p < n
    ensures NumeroItem(s[..n])
  {
    var w := s[..n];
    forall k | 0 <= k < n ensures w[k] == '+' || IsDigit(w[k]) {
      assert w[k] == s[k];
    }
    forall k | 0 < k < n ensures !(IsDigit(w[k - 1]) && w[k] == '+') {
      assert w[k] == s[k] && w[k - 1] == s[k - 1];
    }
    assert w[n - 1] == s[n - 1];
  }

  /** An item number as the first word is matched by the two runs. */
  lemma NumeroItemCorre(s: string, n: nat, p: nat, d: nat)
    requires 0 < n < |s| && NumeroItem(s[..n]) && IsSpace(s[n])
    requires p == CharRun(s, 0, Mais) && d == CharRun(s, p, IsDigit)
    ensures d > 0 && p + d == n && NumeroInicial(s) > 0
  {
    var w := s[..n];
    forall k | 0 <= k < n ensures s[k] == '+' || IsDigit(s[k]) {
      assert w[k] == s[k];
    }
    forall k | 0 < k < n ensures !(IsDigit(s[k - 1]) && s[k] == '+') {
      assert w[k] == s[k] && w[k - 1] == s[k - 1];
    }
    assert !Mais(s[n - 1]) by { assert w[n - 1] == s[n - 1]; }
    assert !IsDigit(s[n]);
    assert IsDigit(s[p]);
    forall k | p <= k < n ensures IsDigit(s[k]) {
      DigitosSeguem(s, p, n, k);
    }
  }

  /** After the first digit of an item number only digits follow. */
  lemma {:induction false} DigitosSeguem(s: string, p: nat, n: nat, k: nat)
    requires p <= k < n <= |s| && IsDigit(s[p])
    requires forall j :: 0 <= j < n ==> s[j] == '+' || IsDigit(s[j])
    requires forall j :: 0 < j < n ==> !(IsDigit(s[j - 1]) && s[j] == '+')
    ensures IsDigit(s[k])
    decreases k - p
  {
    if k > p {
      DigitosSeguem(s, p, n, k - 1);
    }
  }


  // ---------------------------------------------------------------------------
  // The two spacing helpers
  // ---------------------------------------------------------------------------

  /** `espacamento_num_letra`: `re.sub(r'(?<=\d)(?=[A-Za-z])', ' ', texto)`
      puts a space at every empty position between a digit and a letter,
      which is the reference spacing itself; anything but text is returned
      as it is. Afterwards no digit touches a letter, and only spaces were
      added. */
  function EspacoNumLetra(v: Value): (r: Value)
    ensures !v.Str? ==> r == v
    ensures v.Str? ==> r.Str? && SemFronteira(r.s, IsDigit, IsAsciiLetter)
                       && RemoveChar(r.s, ' ') == RemoveChar(v.s, ' ')
  {
    if v.Str? then
      EspacarSemFronteira(v.s, IsDigit, IsAsciiLetter);
      EspacarSoEspacos(v.s, IsDigit, IsAsciiLetter);
      Str(Espacar(v.s, IsDigit, IsAsciiLetter))
    else v
  }

  /** `adicionar_espaco_letra_num`: `re.sub(r'([a-zA-Z])(\d)', r'\1 \2', ...)`;
      anything but text is returned as it is. Afterwards no letter touches
      a digit, and only spaces were added. */
  function EspacoLetraNum(v: Value): (r: Value)
    ensures !v.Str? ==> r == v
    ensures v.Str? ==> r.Str? && SemFronteira(r.s, IsAsciiLetter, IsDigit)
                       && RemoveChar(r.s, ' ') == RemoveChar(v.s, ' ')
  {
    if v.Str? then
      ClassesDisjuntas();
      EspacarSemFronteira(v.s, IsAsciiLetter, IsDigit);
      EspacarSoEspacos(v.s, IsAsciiLetter, IsDigit);
      Str(EspacarRe(v.s, IsAsciiLetter, IsDigit))
    else v
  }

  /** Text that is already spaced is left as it is by both helpers. */
  lemma EspacosFixos(s: string)
    requires SemFronteira(s, IsDigit, IsAsciiLetter) && SemFronteira(s, IsAsciiLetter, IsDigit)
    ensures EspacoNumLetra(Str(s)) == Str(s) && EspacoLetraNum(Str(s)) == Str(s)
  {
    EspacarFixo(s, IsDigit, IsAsciiLetter);
    EspacarFixo(s, IsAsciiLetter, IsDigit);
    ClassesDisjuntas();
  }

  /** Both helpers in the order of step 6: the letter/digit pass keeps the
      digit/letter boundaries the first pass removed. */
  lemma EspacosSeparados(s: string)
    ensures var r := EspacoLetraNum(EspacoNumLetra(Str(s)));
            r.Str? && SemFronteira(r.s, IsDigit, IsAsciiLetter) && SemFronteira(r.s, IsAsciiLetter, IsDigit)
  {
    var a := EspacoNumLetra(Str(s)).s;
    ClassesDisjuntas();
    EspacarMantem(a, IsAsciiLetter, IsDigit, IsDigit, IsAsciiLetter);
  }

  // ---------------------------------------------------------------------------
  // processar_primeira_palavra
  // ---------------------------------------------------------------------------

  /** `PALAVRAS_PARA_REMOVER`. */
  const Indesejadas: set<string> := {"G", ":", ",", "1", "2", "3", "4", "5", "6", "7", "8", "9", "0", "ITEM", "BR", "CATMAT"}

  /** Whether the first word goes: there is one and its upper case is
      unwanted. */
  predicate Descartar(ws: seq<string>) { |ws| > 0 && Upper(ws[0]) in Indesejadas }

  /** `processar_primeira_palavra` on one description: the stripped text is
      split into words and joined back by single spaces, without its first
      word when that one is unwanted. The words of the result are those
      words, the first one dropped exactly when it is unwanted. */
  function PrimeiraPalavra(s: string): (r: string)
    ensures Normalized(r)
    ensures var ws := Split(Strip(s));
            Split(r) == if Descartar(ws) then ws[1..] else ws
  {
    var ws := Split(Strip(s));
    var fica := if Descartar(ws) then ws[1..] else ws;
    JoinSpaceNormalized(fica);
    SplitJoin(fica);
    JoinSpace(fica)
  }

  /** Normalised text whose first word is wanted comes back unchanged. */
  lemma PrimeiraPalavraFixa(s: string)
    requires Normalized(s) && !Descartar(Split(s))
    ensures PrimeiraPalavra(s) == s
  {
    StripEnds(s);
    JoinSplitNormalized(s);
  }

  /** At most one word is ever removed: the rest of the words survive in
      their order. */
  lemma PrimeiraPalavraUma(s: string)
    ensures var ws := Split(Strip(s));
            var vs := Split(PrimeiraPalavra(s));
            |vs| >= |ws| - 1 && vs == ws[|ws| - |vs|..]
  {
  }

  // ---------------------------------------------------------------------------
  // limpar_descricoes
  // ---------------------------------------------------------------------------

  /** Steps 2 to 8 of `limpar_descricoes` on one description, `subs` being
      the substitution table applied in its order. The result is normalised
      and upper case. */
  function LimparTexto(s: string, subs: string -> string): (r: string)
    ensures Normalized(r) && IsUpperText(r)
  {
    var a := Espacamento(s);
    var b := SemEspeciais(a);
    var c := RemoverNumeroInicial(b);
    var d := subs(c);
    var e := EspacoNumLetra(Str(d)).s;
    var f := EspacoLetraNum(Str(e)).s;
    var g := PrimeiraPalavra(f);
    StripEnds(g);
    UpperNormalized(g);
    UpperIsUpper(g);
    Upper(Strip(g))
  }

  /** `.astype(int)` of a float: truncation toward zero. */
  function Truncar(x: real): (r: int)
    ensures x >= 0.0 ==> 0 <= r && r as real <= x < r as real + 1.0
    ensures x < 0.0 ==> r <= 0 && r as real - 1.0 < x <= r as real
  {
    if x >= 0.0 then x.Floor else -((-x).Floor)
  }

  /** A whole number is its own truncation. */
  lemma TruncarInteiro(n: int)
    ensures Truncar(n as real) == n
  {
  }

  /** One quantity cell: its text with ',' made '.', parsed by
      `to_numeric` (the parameter `parse`), 0 when that fails, truncated
      toward zero. */
  function QuantidadeLimpa(v: Value, repr: Value -> string, parse: string -> Option<real>): (r: int)
    ensures var p := parse(ReplaceChar(Texto(v, repr), ',', '.'));
            (p.None? ==> r == 0)
            && (p.Some? && p.value >= 0.0 ==> 0 <= r && r as real <= p.value < r as real + 1.0)
            && (p.Some? && p.value < 0.0 ==> r <= 0 && r as real - 1.0 < p.value <= r as real)
  {
    match parse(ReplaceChar(Texto(v, repr), ',', '.'))
    case None => 0
    case Some(x) => Truncar(x)
  }

  /** A decimal comma and a decimal point read the same. */
  lemma QuantidadeVirgula(s: string, repr: Value -> string, parse: string -> Option<real>)
    ensures QuantidadeLimpa(Str(s), repr, parse) == QuantidadeLimpa(Str(ReplaceChar(s, ',', '.')), repr, parse)
  {
    var a := ReplaceChar(s, ',', '.');
    assert ReplaceChar(a, ',', '.') == a;
  }

  function ColunaDescricao(repr: Value -> string, subs: string -> string): Row -> Value {
    (r: Row) => Str(LimparTexto(Texto(Get(r, Descricao), repr), subs))
  }

  function ColunaQuantidade(repr: Value -> string, parse: string -> Option<real>): Row -> Value {
    (r: Row) => Num(QuantidadeLimpa(Get(r, Quantidade), repr, parse) as real)
  }

  /** Steps 1 to 9: every description cleaned, every other cell kept. */
  function LimparColunaDescricao(t: Table, repr: Value -> string, subs: string -> string): (r: Table)
    requires WellFormed(t) && Descricao in t.cols
    ensures WellFormed(r) && r.cols == t.cols && |r.rows| == |t.rows|
    ensures forall i :: 0 <= i < |t.rows| ==>
              Get(r.rows[i], Descricao) == Str(LimparTexto(Texto(Get(t.rows[i], Descricao), repr), subs))
    ensures forall i, c :: 0 <= i < |t.rows| && c != Descricao ==> Get(r.rows[i], c) == Get(t.rows[i], c)
  {
    SetCol(t, Descricao, ColunaDescricao(repr, subs))
  }

  /** Step 10: with the quantity column, every quantity made a whole
      number; without it, the frame as it is. */
  function LimparColunaQuantidade(t: Table, repr: Value -> string, parse: string -> Option<real>): (r: Table)
    requires WellFormed(t)
    ensures WellFormed(r) && r.cols == t.cols && |r.rows| == |t.rows|
    ensures Quantidade in t.cols ==> forall i :: 0 <= i < |t.rows| ==>
              Get(r.rows[i], Quantidade) == Num(QuantidadeLimpa(Get(t.rows[i], Quantidade), repr, parse) as real)
    ensures forall i, c :: 0 <= i < |t.rows| && c != Quantidade ==> Get(r.rows[i], c) == Get(t.rows[i], c)
    ensures Quantidade !in t.cols ==> r == t
  {
    if Quantidade in t.cols then SetCol(t, Quantidade, ColunaQuantidade(repr, parse)) else t
  }

  /** `limpar_descricoes` without its printout, on a copy of the frame: a
      frame without the description column raises `KeyError`; otherwise
      every description is cleaned into normalised upper-case text, the
      quantity column (when present) becomes whole numbers, and every
      other cell stays. */
  function LimparDescricoes(t: Table, repr: Value -> string, subs: string -> string,
                            parse: string -> Option<real>): (r: Result<Table>)
    requires WellFormed(t)
    ensures r.Err? <==> Descricao !in t.cols
    ensures r.Ok? ==> WellFormed(r.value) && r.value.cols == t.cols && |r.value.rows| == |t.rows|
    ensures r.Ok? ==> forall i :: 0 <= i < |t.rows| ==>
              var d := Get(r.value.rows[i], Descricao);
              d.Str? && Normalized(d.s) && IsUpperText(d.s)
              && d.s == LimparTexto(Texto(Get(t.rows[i], Descricao), repr), subs)
    ensures r.Ok? && Quantidade in t.cols ==> forall i :: 0 <= i < |t.rows| ==>
              Get(r.value.rows[i], Quantidade) == Num(QuantidadeLimpa(Get(t.rows[i], Quantidade), repr, parse) as real)
    ensures r.Ok? ==> forall i, c :: 0 <= i < |t.rows| && c != Descricao && c != Quantidade ==>
              Get(r.value.rows[i], c) == Get(t.rows[i], c)
  {
    if Descricao !in t.cols then Err(KeyError(Descricao))
    else Ok(LimparColunaQuantidade(LimparColunaDescricao(t, repr, subs), repr, parse))
  }
}
