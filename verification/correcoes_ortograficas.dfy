/** Spelling and chemistry corrections of substance names
    (`src/modules/correcoes_ortograficas.py`): after the correction
    dictionaries, the spacing around '+' and the whitespace are normalised;
    the components of a combination are then deduplicated and put in
    case-insensitive alphabetical order, unless a blocking word occurs; the
    rows of the government-priced medical procedure are dropped. */
module CorrecoesOrtograficas {
  import opened Wrappers
  import opened Seqs
  import opened Text
  import opened Scan
  import opened Frame
  import opened Ordem
  import opened Ordenacao
  import opened Produto

  // ---------------------------------------------------------------------------
  // corrigir_descricoes: the final normalisation
  // ---------------------------------------------------------------------------

  function EhMais(c: char): bool { c == '+' }

  /** `\+{2,}`. */
  function MaisRepetidos(s: string, i: nat): nat {
    var n := CharRun(s, i, EhMais);
    if n >= 2 then n else 0
  }

  function UmMais(m: string): string { "+" }

  /** `\s{2,}`: a run of two or more whitespace characters; a single one is
      left as it is. */
  function EspacosDuplos(s: string, i: nat): nat {
    var n := SpaceRun(s, i);
    if n >= 2 then n else 0
  }

  function UmEspaco(m: string): string { " " }

  /** No two whitespace characters in a row. */
  predicate SemEspacoDuplo(s: string) {
    forall k :: 0 <= k < |s| - 1 ==> !(IsSpace(s[k]) && IsSpace(s[k + 1]))
  }

  /** No whitespace at either end. */
  predicate Aparado(s: string) {
    |s| == 0 || (!IsSpace(s[0]) && !IsSpace(s[|s| - 1]))
  }

  /** Every '+' has a plain space or an end of the text on each side. */
  predicate MaisEspacado(s: string) {
    forall k :: 0 <= k < |s| && s[k] == '+' ==> (k == 0 || s[k - 1] == ' ') && (k == |s| - 1 || s[k + 1] == ' ')
  }

  /** The normalisation at the end of `corrigir_descricoes`: `\s*\+\s*`
      becomes " + ", runs of '+' become one, runs of two or more whitespace
      characters become one space, and the ends are stripped. The result has
      no whitespace at its ends, no two whitespace characters in a row, a
      plain space or an end beside every '+' (so no "++"), and the same
      characters other than whitespace as the input, in order. */
  function NormalizarMais(s: string): (r: string)
    ensures Aparado(r) && SemEspacoDuplo(r) && MaisEspacado(r)
    ensures forall k :: 0 <= k < |r| - 1 ==> !(r[k] == '+' && r[k + 1] == '+')
    ensures NaoEspacos(r) == NaoEspacos(s)
  {
    var x := Sub(s, MaisAt, Mais);
    SubMaisCercado(s, 0);
    SubMaisConteudo(s, 0);
    assert s[0..] == s;
    MaisUnicos(x);
    var z := Sub(x, EspacosDuplos, UmEspaco);
    EncolherSemDuplo(x, 0);
    EncolherMaisEspacado(x, 0);
    EncolherConteudo(x, 0);
    assert x[0..] == x;
    StripEspacado(z);
    Strip(Sub(Sub(x, MaisRepetidos, UmMais), EspacosDuplos, UmEspaco))
  }

  // ---------------------------------------------------------------------------
  // Lemmas of the normalisation
  // ---------------------------------------------------------------------------

  /** After the spacing of '+', no two '+' are adjacent, so `\+{2,}`
      matches nowhere. */
  lemma MaisUnicos(x: string)
    requires Cercado(x)
    ensures Sub(x, MaisRepetidos, UmMais) == x
  {
    forall j | 0 <= j < |x| ensures !MatchesAt(x, j, MaisRepetidos) {
      if x[j] == '+' {
        assert x[j + 1] == ' ';
        assert CharRun(x, j + 1, EhMais) == 0;
      }
    }
    SubNoMatch(x, MaisRepetidos, UmMais);
  }

  /** One step of the whitespace substitution. */
  lemma EncolherPasso(s: string, i: nat)
    requires i < |s|
    ensures var n := SpaceRun(s, i);
            SubFrom(s, i, EspacosDuplos, UmEspaco)
            == if n >= 2 then " " + SubFrom(s, i + n, EspacosDuplos, UmEspaco)
               else [s[i]] + SubFrom(s, i + 1, EspacosDuplos, UmEspaco)
  {
  }

  /** The first character written from position `i`. */
  lemma EncolherPrimeiro(s: string, i: nat)
    requires i < |s|
    ensures var o := SubFrom(s, i, EspacosDuplos, UmEspaco);
            |o| > 0 && o[0] == (if SpaceRun(s, i) >= 2 then ' ' else s[i])
  {
    EncolherPasso(s, i);
  }

  /** One step of the whitespace substitution in shape: the character `c`
      written first, the position `j` after what it reads, and the first
      character the next step writes. */
  lemma EncolherSeguinte(s: string, i: nat) returns (j: nat, c: char)
    requires i < |s|
    ensures var n := SpaceRun(s, i);
            j == (if n >= 2 then i + n else i + 1) && c == (if n >= 2 then ' ' else s[i])
    ensures i < j <= |s|
    ensures SubFrom(s, i, EspacosDuplos, UmEspaco) == [c] + SubFrom(s, j, EspacosDuplos, UmEspaco)
    ensures j == |s| ==> SubFrom(s, j, EspacosDuplos, UmEspaco) == ""
    ensures j < |s| ==> var rest := SubFrom(s, j, EspacosDuplos, UmEspaco);
                        |rest| > 0 && rest[0] == (if SpaceRun(s, j) >= 2 then ' ' else s[j])
  {
    var n := SpaceRun(s, i);
    EncolherPasso(s, i);
    j := if n >= 2 then i + n else i + 1;
    c := if n >= 2 then ' ' else s[i];
    if j < |s| {
      EncolherPrimeiro(s, j);
    }
  }

  /** Where the written text goes on after the first character: past the
      whole whitespace run, so at a character that is not whitespace. */
  lemma {:induction false} EncolherSemDuplo(s: string, i: nat)
    ensures SemEspacoDuplo(SubFrom(s, i, EspacosDuplos, UmEspaco))
    decreases |s| - i
  {
    if i < |s| {
      var j, c := EncolherSeguinte(s, i);
      EncolherSemDuplo(s, j);
      SemDuploPasso(s, i, j, c, SubFrom(s, j, EspacosDuplos, UmEspaco));
    }
  }

  lemma SemDuploPasso(s: string, i: nat, j: nat, c: char, rest: string)
    requires i < |s|
    requires var n := SpaceRun(s, i);
             j == (if n >= 2 then i + n else i + 1) && c == (if n >= 2 then ' ' else s[i])
    requires j < |s| ==> |rest| > 0 && rest[0] == (if SpaceRun(s, j) >= 2 then ' ' else s[j])
    requires j >= |s| ==> rest == ""
    requires SemEspacoDuplo(rest)
    ensures SemEspacoDuplo([c] + rest)
  {
    var o := [c] + rest;
    if |rest| > 0 && IsSpace(c) {
      assert j < |s| && !IsSpace(s[j]);
    }
    forall k | 0 <= k < |o| - 1 ensures !(IsSpace(o[k]) && IsSpace(o[k + 1])) {
      if k > 0 {
        assert o[k] == rest[k - 1] && o[k + 1] == rest[k];
      }
    }
  }

  /** With a plain space on both sides of every '+' of the input, every
      '+' written has a plain space or an end on each side. */
  lemma {:induction false} EncolherMaisEspacado(s: string, i: nat)
    requires Cercado(s)
    ensures MaisEspacado(SubFrom(s, i, EspacosDuplos, UmEspaco))
    decreases |s| - i
  {
    if i < |s| {
      var j, c := EncolherSeguinte(s, i);
      var rest := SubFrom(s, j, EspacosDuplos, UmEspaco);
      EncolherMaisEspacado(s, j);
      VizinhosPasso(s, i, j, c, rest);
      MaisEspacadoCons(c, rest);
    }
  }

  /** A '+' on either side of the seam between the character written and
      what follows has a plain space on the other. */
  lemma VizinhosPasso(s: string, i: nat, j: nat, c: char, rest: string)
    requires Cercado(s) && i < |s|
    requires var n := SpaceRun(s, i);
             j == (if n >= 2 then i + n else i + 1) && c == (if n >= 2 then ' ' else s[i])
    requires j < |s| ==> |rest| > 0 && rest[0] == (if SpaceRun(s, j) >= 2 then ' ' else s[j])
    requires j >= |s| ==> rest == ""
    ensures |rest| > 0 && rest[0] == '+' ==> c == ' '
    ensures c == '+' ==> |rest| > 0 && rest[0] == ' '
  {
    if |rest| > 0 && rest[0] == '+' {
      assert s[j] == '+';
      assert s[j - 1] == ' ';
    }
    if c == '+' {
      assert j == i + 1 && s[j] == ' ';
    }
  }

  lemma MaisEspacadoCons(c: char, rest: string)
    requires MaisEspacado(rest)
    requires |rest| > 0 && rest[0] == '+' ==> c == ' '
    requires c == '+' ==> |rest| > 0 && rest[0] == ' '
    ensures MaisEspacado([c] + rest)
  {
    var o := [c] + rest;
    forall k | 0 <= k < |o| && o[k] == '+'
      ensures (k == 0 || o[k - 1] == ' ') && (k == |o| - 1 || o[k + 1] == ' ')
    {
      if k > 0 {
        assert o[k] == rest[k - 1] && o[k - 1] == if k > 1 then rest[k - 2] else c;
        if k < |o| - 1 {
          assert o[k + 1] == rest[k];
        }
      }
    }
  }

  /** The substitution only rewrites whitespace. */
  lemma {:induction false} EncolherConteudo(s: string, i: nat)
    requires i <= |s|
    ensures NaoEspacos(SubFrom(s, i, EspacosDuplos, UmEspaco)) == NaoEspacos(s[i..])
    decreases |s| - i
  {
    if i < |s| {
      var n := SpaceRun(s, i);
      var j := if n >= 2 then i + n else i + 1;
      var h: string := if n >= 2 then " " else [s[i]];
      var rest := SubFrom(s, j, EspacosDuplos, UmEspaco);
      EncolherPasso(s, i);
      EncolherConteudo(s, j);
      if n >= 2 {
        CabecaBranca(s, i, n);
      } else {
        assert s[i..j] == [s[i]];
      }
      ConteudoPasso(s, i, j, h, SubFrom(s, i, EspacosDuplos, UmEspaco), rest);
    }
  }

  lemma ConteudoPasso(s: string, i: nat, j: nat, h: string, o: string, rest: string)
    requires i <= j <= |s| && o == h + rest
    requires NaoEspacos(h) == NaoEspacos(s[i..j]) && NaoEspacos(rest) == NaoEspacos(s[j..])
    ensures NaoEspacos(o) == NaoEspacos(s[i..])
  {
    assert s[i..] == s[i..j] + s[j..];
    NaoEspacosAppend(s[i..j], s[j..]);
    NaoEspacosAppend(h, rest);
  }

  /** A whitespace run holds no character other than whitespace. */
  lemma CabecaBranca(s: string, i: nat, n: nat)
    requires i + n <= |s| && forall k :: i <= k < i + n ==> IsSpace(s[k])
    ensures NaoEspacos(s[i..i + n]) == "" && NaoEspacos(" ") == ""
  {
    var t := s[i..i + n];
    assert forall k :: 0 <= k < |t| ==> t[k] == s[i + k];
    NaoEspacosBranco(t);
    NaoEspacosBranco(" ");
  }

  /** Stripping keeps both properties and the characters other than
      whitespace. */
  lemma StripEspacado(z: string)
    requires SemEspacoDuplo(z) && MaisEspacado(z)
    ensures SemEspacoDuplo(Strip(z)) && MaisEspacado(Strip(z)) && NaoEspacos(Strip(z)) == NaoEspacos(z)
  {
    var a, b := StripTrecho(z);
    TrechoSemDuplo(z, a, b);
    TrechoMaisEspacado(z, a, b);
    TrimLeftConteudo(z);
    TrimRightConteudo(TrimLeftSp(z));
  }

  lemma TrechoSemDuplo(s: string, a: nat, b: nat)
    requires SemEspacoDuplo(s) && a <= b <= |s|
    ensures SemEspacoDuplo(s[a..b])
  {
    var t := s[a..b];
    forall k | 0 <= k < |t| - 1 ensures !(IsSpace(t[k]) && IsSpace(t[k + 1])) {
      assert t[k] == s[a + k] && t[k + 1] == s[a + k + 1];
    }
  }

  lemma TrechoMaisEspacado(s: string, a: nat, b: nat)
    requires MaisEspacado(s) && a <= b <= |s|
    ensures MaisEspacado(s[a..b])
  {
    var t := s[a..b];
    forall k | 0 <= k < |t| && t[k] == '+'
      ensures (k == 0 || t[k - 1] == ' ') && (k == |t| - 1 || t[k + 1] == ' ')
    {
      assert t[k] == s[a + k];
      if k > 0 {
        assert t[k - 1] == s[a + k - 1];
      }
      if k < |t| - 1 {
        assert t[k + 1] == s[a + k + 1];
      }
    }
  }

  // ---------------------------------------------------------------------------
  // padronizar_combinacoes
  // ---------------------------------------------------------------------------

  /** `BLOQUEIOS_ORDENACAO`. */
  const Bloqueios: seq<string> := ["FURP", "LQFEX", "ISOFARMA", "FRACAO"]

  /** A blocking word occurs in the upper-cased text. */
  predicate Bloqueado(s: string) {
    exists k :: 0 <= k < |Bloqueios| && Contains(Upper(s), Bloqueios[k])
  }

  function SemMais(c: char): bool { c != '+' }

  /** A component: non-empty, stripped and without '+'. */
  predicate Parte(x: string) {
    x != "" && Aparado(x) && AllChars(x, SemMais)
  }

  /** `[p.strip() for p in pecas if p.strip()]`. */
  function Limpas(ps: seq<string>): (r: seq<string>)
    ensures (forall k :: 0 <= k < |ps| ==> AllChars(ps[k], SemMais)) ==> forall k :: 0 <= k < |r| ==> Parte(r[k])
  {
    if |ps| == 0 then []
    else
      var x := Strip(ps[0]);
      StripSemMais(ps[0]);
      (if x != "" then [x] else []) + Limpas(ps[1..])
  }

  lemma StripSemMais(x: string)
    ensures AllChars(x, SemMais) ==> AllChars(Strip(x), SemMais)
  {
    if AllChars(x, SemMais) {
      StripKeeps(x, SemMais);
    }
  }

  /** The stripped non-empty pieces of the text between the '+' signs. */
  function Partes(s: string): (r: seq<string>)
    ensures forall k :: 0 <= k < |r| ==> Parte(r[k])
  {
    var ps := SplitOn(s, '+');
    assert forall k :: 0 <= k < |ps| ==> AllChars(ps[k], SemMais);
    Limpas(ps)
  }

  /** The sort key `x.lower()`. */
  function ChaveMinuscula(x: string): Chave { Chave(Lower(x), 0, 0) }

  /** `sorted(set(partes), key=lambda x: x.lower())`. Python leaves parts
      equal up to case in the iteration order of the set; here that order
      is the order of the parts themselves. The result is sorted by the
      lower-cased parts, has no repetition and holds the same parts. */
  function Combinacao(ps: seq<string>): (r: seq<string>)
    ensures OrdenadaPor(r, ChaveMinuscula) && NoDup(r)
    ensures forall x :: x in r <==> x in ps
  {
    var u := SortedSet(ps);
    OrdemSemRepeticao(u);
    OrdenarElementos(u, ChaveMinuscula);
    MultisetNoDup(u, Ordenar(u, ChaveMinuscula));
    assert forall x :: x in u <==> x in Elems(u);
    assert forall x :: x in ps <==> x in Elems(ps);
    Ordenar(u, ChaveMinuscula)
  }

  lemma OrdemSemRepeticao(u: seq<string>)
    requires Sorted(u)
    ensures NoDup(u)
  {
    forall i, j | 0 <= i < j < |u| ensures u[i] != u[j] {
      StrLtIrreflexive(u[i]);
    }
  }

  /** `padronizar_combinacoes` on text: blocked text and text with fewer
      than two parts come back unchanged; otherwise the ordered distinct
      parts joined by " + ". */
  function PadronizarTexto(s: string): (r: string)
    ensures Bloqueado(s) || |Partes(s)| <= 1 ==> r == s
    ensures !Bloqueado(s) && |Partes(s)| > 1 ==>
              exists cs :: r == Join(cs, " + ") && OrdenadaPor(cs, ChaveMinuscula) && NoDup(cs)
                           && (forall x :: x in cs <==> x in Partes(s))
  {
    if Bloqueado(s) then s
    else
      var ps := Partes(s);
      if |ps| > 1 then Join(Combinacao(ps), " + ") else s
  }

  /** `padronizar_combinacoes` on a cell: a missing value is returned as it
      is; a number or flag is returned as it is when its rendering holds a
      blocking word, and otherwise fails, having no `split`. */
  function PadronizarCombinacoes(v: Value, repr: Value -> string): (r: Result<Value>)
    ensures v == Null ==> r == Ok(Null)
    ensures v.Str? ==> r == Ok(Str(PadronizarTexto(v.s)))
    ensures (v.Num? || v.Flag?) ==> (r.Err? <==> !Bloqueado(repr(v))) && (r.Ok? ==> r.value == v)
  {
    if v.Null? then Ok(v)
    else if v.Str? then Ok(Str(PadronizarTexto(v.s)))
    else if Bloqueado(repr(v)) then Ok(v)
    else Err(AttributeError("split"))
  }

  // ---------------------------------------------------------------------------
  // Idempotence of padronizar_combinacoes
  // ---------------------------------------------------------------------------

  /** Applying the ordering to its own result changes nothing: the result
      splits back into the ordered parts, those are already in order, and
      it holds no blocking word the input did not hold. */
  lemma PadronizarIdempotente(s: string)
    ensures PadronizarTexto(PadronizarTexto(s)) == PadronizarTexto(s)
  {
    if !Bloqueado(s) && |Partes(s)| > 1 {
      var cs := Combinacao(Partes(s));
      CombinacaoDePartes(s);
      PartesJuncao(cs);
      JuncaoNaoBloqueada(s, cs);
      CombinacaoFixa(Partes(s));
      PadronizarFixo(Join(cs, " + "), cs);
    }
  }

  /** The ordered distinct parts of a text with parts are parts of it, and
      there is at least one. */
  lemma CombinacaoDePartes(s: string)
    requires |Partes(s)| > 0
    ensures var cs := Combinacao(Partes(s));
            |cs| > 0 && (forall k :: 0 <= k < |cs| ==> cs[k] in Partes(s) && Parte(cs[k]))
  {
    CombinacaoDe(Partes(s));
  }

  lemma CombinacaoDe(ps: seq<string>)
    requires |ps| > 0 && forall k :: 0 <= k < |ps| ==> Parte(ps[k])
    ensures var cs := Combinacao(ps);
            |cs| > 0 && (forall k :: 0 <= k < |cs| ==> cs[k] in ps && Parte(cs[k]))
  {
    var cs := Combinacao(ps);
    CombinacaoMembros(ps);
    forall k | 0 <= k < |cs| ensures Parte(cs[k]) {
      ParteMembro(ps, cs[k]);
    }
  }

  lemma CombinacaoMembros(ps: seq<string>)
    requires |ps| > 0
    ensures |Combinacao(ps)| > 0 && forall k :: 0 <= k < |Combinacao(ps)| ==> Combinacao(ps)[k] in ps
  {
    assert ps[0] in Combinacao(ps);
  }

  lemma ParteMembro(ps: seq<string>, x: string)
    requires x in ps && forall k :: 0 <= k < |ps| ==> Parte(ps[k])
    ensures Parte(x)
  {
  }

  /** A text that is not blocked and whose parts are their own ordering is
      left as it is. */
  lemma PadronizarFixo(t: string, cs: seq<string>)
    requires t == Join(cs, " + ") && Partes(t) == cs && !Bloqueado(t) && Combinacao(cs) == cs
    ensures PadronizarTexto(t) == t
  {
  }

  /** The ordered distinct parts are their own ordering. */
  lemma CombinacaoFixa(ps: seq<string>)
    ensures Combinacao(Combinacao(ps)) == Combinacao(ps)
  {
    var cs := Combinacao(ps);
    assert Elems(cs) == Elems(ps) by {
      assert forall x :: x in cs <==> x in Elems(cs);
      assert forall x :: x in ps <==> x in Elems(ps);
    }
    SortedSetCanonical(cs, ps);
  }

  /** Joined parts split back into themselves. */
  lemma PartesJuncao(cs: seq<string>)
    requires |cs| > 0 && forall k :: 0 <= k < |cs| ==> Parte(cs[k])
    ensures Partes(Join(cs, " + ")) == cs
  {
    LimpasJuncao("", cs);
    assert "" + Join(cs, " + ") == Join(cs, " + ");
  }

  lemma {:induction false} LimpasJuncao(lead: string, cs: seq<string>)
    requires lead == "" || lead == " "
    requires |cs| > 0 && forall k :: 0 <= k < |cs| ==> Parte(cs[k])
    ensures Limpas(SplitOn(lead + Join(cs, " + "), '+')) == cs
    decreases |cs|
  {
    if |cs| == 1 {
      LimpasJuncaoUm(lead, cs);
    } else {
      LimpasJuncao(" ", cs[1..]);
      LimpasJuncaoPasso(lead, cs);
    }
  }

  lemma LimpasJuncaoUm(lead: string, cs: seq<string>)
    requires lead == "" || lead == " "
    requires |cs| == 1 && Parte(cs[0])
    ensures Limpas(SplitOn(lead + Join(cs, " + "), '+')) == cs
  {
    var x := cs[0];
    SemMaisFora(lead, x);
    StripEmVolta(lead, x, "");
    assert lead + Join(cs, " + ") == lead + x + "";
    SplitOnNoSep(lead + x + "", '+');
    LimpasCons(lead + x + "", []);
  }

  lemma LimpasJuncaoPasso(lead: string, cs: seq<string>)
    requires lead == "" || lead == " "
    requires |cs| > 1 && Parte(cs[0])
    requires Limpas(SplitOn(" " + Join(cs[1..], " + "), '+')) == cs[1..]
    ensures Limpas(SplitOn(lead + Join(cs, " + "), '+')) == cs
  {
    var x := cs[0];
    var rest := " " + Join(cs[1..], " + ");
    var w := lead + x + " ";
    SemMaisFora(lead, x);
    StripEmVolta(lead, x, " ");
    JuncaoPasso(lead, cs);
    SplitOnWordSep(w, rest, '+');
    LimpasCons(w, SplitOn(rest, '+'));
    assert cs == [x] + cs[1..];
  }

  lemma SemMaisFora(lead: string, x: string)
    requires lead == "" || lead == " "
    requires Parte(x)
    ensures '+' !in lead + x + "" && '+' !in lead + x + " "
  {
    assert forall i :: 0 <= i < |x| ==> SemMais(x[i]);
  }

  lemma JuncaoPasso(lead: string, cs: seq<string>)
    requires |cs| > 1
    ensures lead + Join(cs, " + ") == (lead + cs[0] + " ") + ['+'] + (" " + Join(cs[1..], " + "))
  {
  }

  lemma LimpasCons(x: string, ps: seq<string>)
    requires Strip(x) != ""
    ensures Limpas([x] + ps) == [Strip(x)] + Limpas(ps)
  {
    assert ([x] + ps)[1..] == ps;
  }

  /** A stripped non-empty text with at most a space on either side strips
      back to itself. */
  lemma StripEmVolta(lead: string, x: string, trail: string)
    requires lead == "" || lead == " "
    requires trail == "" || trail == " "
    requires x != "" && Aparado(x)
    ensures Strip(lead + x + trail) == x
  {
    assert lead + x + trail == lead + (x + trail);
    TrimLeftEmVolta(lead, x + trail);
    TrimRightEmVolta(x, trail);
  }

  lemma TrimLeftEmVolta(lead: string, y: string)
    requires lead == "" || lead == " "
    requires y != "" && !IsSpace(y[0])
    ensures TrimLeftSp(lead + y) == y
  {
    if lead == " " {
      assert (lead + y)[1..] == y;
    } else {
      assert lead + y == y;
    }
  }

  lemma TrimRightEmVolta(x: string, trail: string)
    requires trail == "" || trail == " "
    requires x != "" && !IsSpace(x[|x| - 1])
    ensures TrimRightSp(x + trail) == x
  {
    if trail == " " {
      assert (x + trail)[..|x|] == x;
    } else {
      assert x + trail == x;
    }
  }

  /** A word: non-empty, with no space and no '+'. */
  predicate Palavra(w: string) { |w| > 0 && ' ' !in w && '+' !in w }

  lemma BloqueiosPalavras()
    ensures forall b :: 0 <= b < |Bloqueios| ==> Palavra(Bloqueios[b])
  {
  }

  /** The blocking test of the joined parts fails when that of the text
      fails: a blocking word has no space and no '+', so it occurs inside
      one part, and every part is a piece of the text. */
  lemma JuncaoNaoBloqueada(s: string, cs: seq<string>)
    requires !Bloqueado(s) && |cs| > 0
    requires forall k :: 0 <= k < |cs| ==> cs[k] in Partes(s)
    ensures !Bloqueado(Join(cs, " + "))
  {
    PartesContidas(s);
    BloqueiosPalavras();
    forall b | 0 <= b < |Bloqueios| ensures !Contains(Upper(Join(cs, " + ")), Bloqueios[b]) {
      NaoContidoJuncao(s, cs, Bloqueios[b]);
    }
  }

  lemma NaoContidoJuncao(s: string, cs: seq<string>, w: string)
    requires Palavra(w) && !Contains(Upper(s), w) && |cs| > 0
    requires forall k :: 0 <= k < |cs| ==> cs[k] in Partes(s)
    requires forall k :: 0 <= k < |Partes(s)| ==> Contains(s, Partes(s)[k])
    ensures !Contains(Upper(Join(cs, " + ")), w)
  {
    if Contains(Upper(Join(cs, " + ")), w) {
      var k := ContidoJuncao(cs, w);
      assert Contains(s, cs[k]);
      ContemMaiuscula(s, cs[k]);
      ContemTransitivo(Upper(s), Upper(cs[k]), w);
    }
  }

  lemma UpperConcat(a: string, b: string)
    ensures Upper(a + b) == Upper(a) + Upper(b)
  {
  }

  /** An occurrence of a word in `u + " + " + v` lies in `u` or in `v`. */
  lemma ForaDoSeparador(u: string, v: string, b: string, i: nat)
    requires OccursAt(u + " + " + v, b, i) && Palavra(b)
    ensures i + |b| <= |u| || i >= |u| + 3
  {
    var w := u + " + " + v;
    var p := if i < |u| then |u| else i;
    assert w[|u|] == ' ' && w[|u| + 1] == '+' && w[|u| + 2] == ' ';
    assert i <= p < i + |b| ==> w[i..i + |b|][p - i] == w[p];
    assert i <= p < i + |b| ==> b[p - i] == w[p] && b[p - i] in b;
  }

  lemma {:induction false} ContidoJuncao(cs: seq<string>, b: string) returns (k: nat)
    requires |cs| > 0 && Palavra(b)
    requires Contains(Upper(Join(cs, " + ")), b)
    ensures k < |cs| && Contains(Upper(cs[k]), b)
    decreases |cs|
  {
    if |cs| == 1 {
      k := 0;
    } else {
      var u := Upper(cs[0]);
      var v := Upper(Join(cs[1..], " + "));
      UpperJuncao(cs);
      var w := u + " + " + v;
      var i :| 0 <= i <= |w| - |b| && OccursAt(w, b, i);
      ForaDoSeparador(u, v, b, i);
      if i + |b| <= |u| {
        assert w[i..i + |b|] == u[i..i + |b|];
        assert OccursAt(u, b, i);
        k := 0;
      } else {
        var i' := i - |u| - 3;
        assert w[i..i + |b|] == v[i'..i' + |b|];
        assert OccursAt(v, b, i');
        var k' := ContidoJuncao(cs[1..], b);
        k := k' + 1;
      }
    }
  }

  lemma UpperJuncao(cs: seq<string>)
    requires |cs| > 1
    ensures Upper(Join(cs, " + ")) == Upper(cs[0]) + " + " + Upper(Join(cs[1..], " + "))
  {
    var rest := Join(cs[1..], " + ");
    assert Join(cs, " + ") == cs[0] + " + " + rest;
    UpperConcat(cs[0] + " + ", rest);
    UpperConcat(cs[0], " + ");
    assert Upper(" + ") == " + ";
  }

  lemma ContemTransitivo(s: string, t: string, u: string)
    requires Contains(s, t) && Contains(t, u)
    ensures Contains(s, u)
  {
    var i :| 0 <= i <= |s| - |t| && OccursAt(s, t, i);
    var j :| 0 <= j <= |t| - |u| && OccursAt(t, u, j);
    assert s[i..i + |t|] == t;
    assert forall q :: 0 <= q < |u| ==> s[i + j + q] == t[j + q] == u[q];
    assert s[i + j..i + j + |u|] == u;
    assert OccursAt(s, u, i + j);
  }

  lemma ContemMaiuscula(s: string, t: string)
    requires Contains(s, t)
    ensures Contains(Upper(s), Upper(t))
  {
    var i :| 0 <= i <= |s| - |t| && OccursAt(s, t, i);
    assert Upper(s)[i..i + |t|] == Upper(t);
    assert OccursAt(Upper(s), Upper(t), i);
  }

  lemma {:induction false} ElementoDaJuncao(xs: seq<string>, sep: string, k: nat)
    requires k < |xs|
    ensures Contains(Join(xs, sep), xs[k])
    decreases |xs|
  {
    var j := Join(xs, sep);
    if |xs| == 1 {
      assert j == xs[0];
      assert OccursAt(j, xs[0], 0);
    } else {
      var rest := Join(xs[1..], sep);
      assert j == xs[0] + sep + rest;
      if k == 0 {
        assert j[..|xs[0]|] == xs[0];
        assert OccursAt(j, xs[0], 0);
      } else {
        ElementoDaJuncao(xs[1..], sep, k - 1);
        var n := |xs[0]| + |sep|;
        assert j[n..n + |rest|] == rest;
        assert OccursAt(j, rest, n);
        ContemTransitivo(j, rest, xs[k]);
      }
    }
  }

  lemma {:induction false} LimpasContidas(ps: seq<string>, s: string)
    requires forall j :: 0 <= j < |ps| ==> Contains(s, ps[j])
    ensures forall k :: 0 <= k < |Limpas(ps)| ==> Contains(s, Limpas(ps)[k])
    decreases |ps|
  {
    if |ps| > 0 {
      LimpasContidas(ps[1..], s);
      var a, b := StripTrecho(ps[0]);
      assert OccursAt(ps[0], Strip(ps[0]), a);
      ContemTransitivo(s, ps[0], Strip(ps[0]));
    }
  }

  /** Every part is a piece of the text. */
  lemma PartesContidas(s: string)
    ensures forall k :: 0 <= k < |Partes(s)| ==> Contains(s, Partes(s)[k])
  {
    var ps := SplitOn(s, '+');
    JoinSplitOn(s, '+');
    forall j | 0 <= j < |ps| ensures Contains(s, ps[j]) {
      ElementoDaJuncao(ps, ['+'], j);
    }
    LimpasContidas(ps, s);
  }

  // ---------------------------------------------------------------------------
  // The frame
  // ---------------------------------------------------------------------------

  /** The default column list of `processar_correcoes_ortograficas`. */
  const ColunasPadrao: seq<string> := ["PRODUTO", "PRINCÍPIO ATIVO"]

  /** One cell of `corrigir_descricoes`: text goes through the correction
      dictionaries (`corrige`) and then the normalisation of '+' and of the
      whitespace; a cell that is not text comes out missing, as the `.str`
      methods give NaN for it. */
  function CorrigirCelula(v: Value, corrige: string -> string): (r: Value)
    ensures v.Str? <==> r.Str?
    ensures !v.Str? ==> r == Null
    ensures r.Str? ==> Aparado(r.s) && SemEspacoDuplo(r.s) && MaisEspacado(r.s)
                       && NaoEspacos(r.s) == NaoEspacos(corrige(v.s))
  {
    if v.Str? then Str(NormalizarMais(corrige(v.s))) else Null
  }

  function ColunaCorrigida(col: string, corrige: string -> string): Row -> Value {
    (r: Row) => CorrigirCelula(Get(r, col), corrige)
  }

  /** `corrigir_descricoes`: a frame without the column fails (`df[col]`);
      otherwise every cell of the column is corrected and nothing else
      changes. */
  function CorrigirDescricoes(t: Table, col: string, corrige: string -> string): (r: Result<Table>)
    requires WellFormed(t)
    ensures r.Err? <==> col !in t.cols
    ensures r.Ok? ==> WellFormed(r.value) && r.value.cols == t.cols && |r.value.rows| == |t.rows|
    ensures r.Ok? ==> forall i :: 0 <= i < |t.rows| ==>
              Get(r.value.rows[i], col) == CorrigirCelula(Get(t.rows[i], col), corrige)
    ensures r.Ok? ==> forall i, c :: 0 <= i < |t.rows| && c != col ==> Get(r.value.rows[i], c) == Get(t.rows[i], c)
  {
    if col !in t.cols then Err(KeyError(col))
    else Ok(SetCol(t, col, ColunaCorrigida(col, corrige)))
  }

  /** The value `padronizar_combinacoes` leaves in a cell it does not fail
      on. */
  function CelulaPadronizada(v: Value, repr: Value -> string): Value {
    var r := PadronizarCombinacoes(v, repr);
    if r.Ok? then r.value else v
  }

  function ColunaPadronizada(col: string, repr: Value -> string): Row -> Value {
    (r: Row) => CelulaPadronizada(Get(r, col), repr)
  }

  /** A cell on which `padronizar_combinacoes` fails. */
  predicate FalhaEm(t: Table, col: string, repr: Value -> string, i: int) {
    0 <= i < |t.rows| && PadronizarCombinacoes(Get(t.rows[i], col), repr).Err?
  }

  /** `aplicar_padronizacao_combinacoes`: a frame without the column is
      returned as it is; the whole call fails when one cell fails (a number
      or flag without a blocking word); otherwise every cell of the column
      is standardised and nothing else changes. */
  function AplicarPadronizacao(t: Table, col: string, repr: Value -> string): (r: Result<Table>)
    requires WellFormed(t)
    ensures col !in t.cols ==> r == Ok(t)
    ensures col in t.cols ==> (r.Err? <==> exists i :: 0 <= i < |t.rows| && FalhaEm(t, col, repr, i))
    ensures (forall i :: 0 <= i < |t.rows| ==> Get(t.rows[i], col).Null? || Get(t.rows[i], col).Str?) ==> r.Ok?
    ensures r.Ok? ==> WellFormed(r.value) && r.value.cols == t.cols && |r.value.rows| == |t.rows|
    ensures r.Ok? && col in t.cols ==> forall i :: 0 <= i < |t.rows| ==>
              Ok(Get(r.value.rows[i], col)) == PadronizarCombinacoes(Get(t.rows[i], col), repr)
    ensures r.Ok? ==> forall i, c :: 0 <= i < |t.rows| && c != col ==> Get(r.value.rows[i], c) == Get(t.rows[i], c)
  {
    if col !in t.cols then Ok(t)
    else if exists i :: 0 <= i < |t.rows| && FalhaEm(t, col, repr, i) then Err(AttributeError("split"))
    else
      var u := SetCol(t, col, ColunaPadronizada(col, repr));
      assert forall i :: 0 <= i < |t.rows| ==> !FalhaEm(t, col, repr, i);
      assert forall i :: 0 <= i < |t.rows| ==>
               PadronizarCombinacoes(Get(t.rows[i], col), repr) == Ok(CelulaPadronizada(Get(t.rows[i], col), repr)) by {
        forall i | 0 <= i < |t.rows| ensures
          PadronizarCombinacoes(Get(t.rows[i], col), repr) == Ok(CelulaPadronizada(Get(t.rows[i], col), repr))
        {
          assert !FalhaEm(t, col, repr, i);
        }
      }
      assert forall i :: 0 <= i < |t.rows| ==> Get(u.rows[i], col) == CelulaPadronizada(Get(t.rows[i], col), repr);
      Ok(u)
  }

  /** The text `remover_procedimento_medico_tabelado` looks for. */
  const Procedimento := "PROCEDIMENTO MEDICO TABELADO PELO GOVERNO"

  /** The upper-cased text of the cell is the procedure; a missing or
      non-text cell never is. */
  predicate EhProcedimento(r: Row, col: string) {
    var v := Get(r, col);
    v.Str? && Upper(v.s) == Procedimento
  }

  function SemProcedimento(col: string): Row -> bool { (r: Row) => !EhProcedimento(r, col) }

  function ComProcedimento(col: string): Row -> bool { (r: Row) => EhProcedimento(r, col) }

  /** `remover_procedimento_medico_tabelado`: a frame without the column is
      returned as it is; otherwise exactly the rows whose cell is not the
      procedure remain, in their order. */
  function RemoverProcedimento(t: Table, col: string): (r: Table)
    requires WellFormed(t)
    ensures WellFormed(r) && r.cols == t.cols && Subsequence(r.rows, t.rows)
    ensures col !in t.cols ==> r == t
    ensures col in t.cols ==> forall i :: 0 <= i < |r.rows| ==> !EhProcedimento(r.rows[i], col)
    ensures forall i :: 0 <= i < |t.rows| && !EhProcedimento(t.rows[i], col) ==> t.rows[i] in r.rows
    ensures col in t.cols ==> |r.rows| + Count(t.rows, ComProcedimento(col)) == |t.rows|
  {
    if col !in t.cols then
      SubsequenceRefl(t.rows);
      t
    else
      FilterCountNeg(t.rows, SemProcedimento(col), ComProcedimento(col));
      FilterSubsequence(t.rows, SemProcedimento(col));
      FilterRows(t, SemProcedimento(col))
  }

  /** Removing the procedure rows again removes nothing. */
  lemma RemoverProcedimentoIdempotente(t: Table, col: string)
    requires WellFormed(t)
    ensures RemoverProcedimento(RemoverProcedimento(t, col), col) == RemoverProcedimento(t, col)
  {
    FilterIdempotent(t.rows, SemProcedimento(col));
  }

  /** A cell after both steps of one column. */
  function CelulaProcessada(v: Value, corrige: string -> string, repr: Value -> string): Value {
    CelulaPadronizada(CorrigirCelula(v, corrige), repr)
  }

  /** The corrected cells are missing or text, so the standardisation that
      follows cannot fail, and it leaves missing or text. */
  lemma CorrigidaNaoFalha(v: Value, corrige: string -> string, repr: Value -> string)
    ensures PadronizarCombinacoes(CorrigirCelula(v, corrige), repr).Ok?
    ensures var w := CelulaProcessada(v, corrige, repr); w.Null? || w.Str?
  {
  }

  /** One column of the loop of `processar_correcoes_ortograficas`: the
      corrections, then the standardisation, which cannot fail after them. */
  function ProcessarColuna(t: Table, col: string, corrige: string -> string, repr: Value -> string): (r: Table)
    requires WellFormed(t) && col in t.cols
    ensures WellFormed(r) && r.cols == t.cols && |r.rows| == |t.rows|
    ensures forall i :: 0 <= i < |t.rows| ==> Get(r.rows[i], col) == CelulaProcessada(Get(t.rows[i], col), corrige, repr)
    ensures forall i :: 0 <= i < |t.rows| ==> Get(r.rows[i], col).Null? || Get(r.rows[i], col).Str?
    ensures forall i, c :: 0 <= i < |t.rows| && c != col ==> Get(r.rows[i], c) == Get(t.rows[i], c)
  {
    var u := CorrigirDescricoes(t, col, corrige).value;
    forall i | 0 <= i < |u.rows| ensures !FalhaEm(u, col, repr, i) {
      CorrigidaNaoFalha(Get(t.rows[i], col), corrige, repr);
    }
    var r := AplicarPadronizacao(u, col, repr).value;
    forall i | 0 <= i < |t.rows| ensures Get(r.rows[i], col).Null? || Get(r.rows[i], col).Str? {
      CorrigidaNaoFalha(Get(t.rows[i], col), corrige, repr);
    }
    r
  }

  /** The loop over the column list: a listed column the frame lacks is
      skipped; with no column listed twice, every listed column the frame
      has holds its processed cells. Columns that are not listed never
      change, and listed ones end up missing or text. */
  function ProcessarColunas(t: Table, colunas: seq<string>, corrige: string -> string, repr: Value -> string): (r: Table)
    requires WellFormed(t)
    ensures WellFormed(r) && r.cols == t.cols && |r.rows| == |t.rows|
    ensures forall i, c :: 0 <= i < |t.rows| && c !in colunas ==> Get(r.rows[i], c) == Get(t.rows[i], c)
    ensures forall i, c :: 0 <= i < |t.rows| && c in colunas && c in t.cols ==>
              Get(r.rows[i], c).Null? || Get(r.rows[i], c).Str?
    ensures NoDup(colunas) ==> forall i, c :: 0 <= i < |t.rows| && c in colunas && c in t.cols ==>
              Get(r.rows[i], c) == CelulaProcessada(Get(t.rows[i], c), corrige, repr)
    decreases |colunas|
  {
    if |colunas| == 0 then t
    else
      var c0 := colunas[0];
      var u := if c0 in t.cols then ProcessarColuna(t, c0, corrige, repr) else t;
      var r := ProcessarColunas(u, colunas[1..], corrige, repr);
      CabecaDaLista(colunas);
      r
  }

  lemma CabecaDaLista(colunas: seq<string>)
    requires |colunas| > 0
    ensures NoDup(colunas) ==> colunas[0] !in colunas[1..] && NoDup(colunas[1..])
    ensures forall c :: c in colunas <==> c == colunas[0] || c in colunas[1..]
  {
    assert colunas == [colunas[0]] + colunas[1..];
  }

  /** `processar_correcoes_ortograficas` without its messages: every listed
      column is processed; when the product column is listed, the rows of
      the government-priced procedure are then dropped from it. */
  function ProcessarCorrecoes(t: Table, colunas: seq<string>, corrige: string -> string, repr: Value -> string): (r: Table)
    requires WellFormed(t)
    ensures WellFormed(r) && r.cols == t.cols && |r.rows| <= |t.rows|
    ensures var u := ProcessarColunas(t, colunas, corrige, repr);
            Subsequence(r.rows, u.rows)
            && (ColProduto !in colunas ==> r == u)
            && (forall i :: 0 <= i < |u.rows| && !(ColProduto in colunas && EhProcedimento(u.rows[i], ColProduto)) ==>
                  u.rows[i] in r.rows)
    ensures ColProduto in colunas && ColProduto in t.cols ==>
              forall i :: 0 <= i < |r.rows| ==> !EhProcedimento(r.rows[i], ColProduto)
  {
    var u := ProcessarColunas(t, colunas, corrige, repr);
    if ColProduto in colunas then RemoverProcedimento(u, ColProduto)
    else
      SubsequenceRefl(u.rows);
      u
  }
}
