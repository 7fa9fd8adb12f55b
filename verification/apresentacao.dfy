/** Normalisation of the APRESENTACAO text of a product ("CX 2 BL X 10 COMP
    500MG" and the like): spacing between digits and letters, the dosage
    blocks "<numbers> <unit> [<unit>]" rewritten as decimal values with their
    unit, adjacent blocks of a compound substance merged, and "CX a BL X b"
    multiplied out. */
module Apresentacao {
  import opened Wrappers
  import opened Text
  import opened Scan
  import opened Dates
  import opened Frame
  import opened Produto
  import opened ApresentacaoValores

  // ---------------------------------------------------------------------------
  // Spacing helpers
  // ---------------------------------------------------------------------------

  /** `re.sub(r'\s+', ' ', s).strip()`. */
  function CollapseSpaces(s: string): (r: string)
    ensures Normalized(r)
    ensures Split(r) == Split(s)
  {
    NormalizeSpaces(s)
  }

  /** The matcher of `(p)(q)`: a character with property `p` followed by
      one with property `q`. */
  function Fronteira(p: char -> bool, q: char -> bool): Matcher {
    (s: string, i: nat) => if i + 1 < |s| && p(s[i]) && q(s[i + 1]) then 2 else 0
  }

  /** The replacement `\1 \2`: a space between the two characters. */
  function Espacar(m: string): string {
    if |m| == 2 then [m[0], ' ', m[1]] else m
  }

  /** No character with property `p` is followed by one with property `q`. */
  predicate SemPar(s: string, p: char -> bool, q: char -> bool) {
    forall k :: 0 <= k < |s| - 1 ==> !(p(s[k]) && q(s[k + 1]))
  }

  /** `_split_digits_letters`: a space between every digit followed by an
      upper-case letter, then between every upper-case letter followed by a
      digit. Afterwards no digit touches a letter, and only spaces were
      added. */
  function SplitDigitsLetters(s: string): (r: string)
    ensures SemPar(r, Digito, Maiuscula) && SemPar(r, Maiuscula, Digito)
    ensures RemoveChar(r, ' ') == RemoveChar(s, ' ')
  {
    var t := Sub(s, Fronteira(Digito, Maiuscula), Espacar);
    var nada := (c: char) => false;
    Separa(s, 0, Digito, Maiuscula, nada, nada);
    Separa(t, 0, Maiuscula, Digito, Digito, Maiuscula);
    SoEspacos(s, 0, Digito, Maiuscula);
    SoEspacos(t, 0, Maiuscula, Digito);
    assert s[0..] == s && t[0..] == t;
    Sub(t, Fronteira(Maiuscula, Digito), Espacar)
  }

  /** Substitution from `i` starts with the character at `i`: a matched
      pair keeps its first character in front. */
  lemma SubFromPrimeiro(s: string, i: nat, p: char -> bool, q: char -> bool)
    requires i < |s|
    ensures var r := SubFrom(s, i, Fronteira(p, q), Espacar);
            |r| > 0 && r[0] == s[i]
  {
  }

  lemma SemParCons(x: string, t: string, p: char -> bool, q: char -> bool)
    requires |x| > 0 && SemPar(x, p, q) && SemPar(t, p, q)
    requires |t| > 0 ==> !(p(x[|x| - 1]) && q(t[0]))
    ensures SemPar(x + t, p, q)
  {
    var r := x + t;
    forall k | 0 <= k < |r| - 1
      ensures !(p(r[k]) && q(r[k + 1]))
    {
      if k < |x| - 1 {
        assert r[k] == x[k] && r[k + 1] == x[k + 1];
      } else if k == |x| - 1 {
        assert r[k + 1] == t[0];
      } else {
        assert r[k] == t[k - |x|] && r[k + 1] == t[k - |x| + 1];
      }
    }
  }

  /** Spacing the `(p)(q)` pairs leaves none of them, and keeps any pair
      kind `(p2)(q2)` the text did not have absent, as long as a space has
      none of the properties and no character is both `q` and `p`. */
  lemma {:induction false} Separa(s: string, i: nat, p: char -> bool, q: char -> bool, p2: char -> bool, q2: char -> bool)
    requires !p(' ') && !q(' ') && !p2(' ') && !q2(' ')
    requires forall c :: q(c) ==> !p(c)
    requires forall k :: i <= k < |s| - 1 ==> !(p2(s[k]) && q2(s[k + 1]))
    ensures SemPar(SubFrom(s, i, Fronteira(p, q), Espacar), p, q)
    ensures SemPar(SubFrom(s, i, Fronteira(p, q), Espacar), p2, q2)
    decreases |s| - i
  {
    var m := Fronteira(p, q);
    if i < |s| {
      if MatchesAt(s, i, m) {
        var x := [s[i], ' ', s[i + 1]];
        assert s[i..i + 2] == [s[i], s[i + 1]];
        var t := SubFrom(s, i + 2, m, Espacar);
        Separa(s, i + 2, p, q, p2, q2);
        if i + 2 < |s| {
          SubFromPrimeiro(s, i + 2, p, q);
        }
        SemParCons(x, t, p, q);
        SemParCons(x, t, p2, q2);
      } else {
        var t := SubFrom(s, i + 1, m, Espacar);
        Separa(s, i + 1, p, q, p2, q2);
        if i + 1 < |s| {
          SubFromPrimeiro(s, i + 1, p, q);
        }
        SemParCons([s[i]], t, p, q);
        SemParCons([s[i]], t, p2, q2);
      }
    }
  }

  /** Removing a character from a text with one character in front. */
  lemma RemoveCharCons(a: char, t: string, c: char)
    ensures RemoveChar([a] + t, c) == (if a == c then "" else [a]) + RemoveChar(t, c)
  {
    assert ([a] + t)[1..] == t;
  }

  /** A character copied in front of texts equal up to spaces. */
  lemma CopiaNoInicio(a: char, t: string, rest: string)
    requires RemoveChar(t, ' ') == RemoveChar(rest, ' ')
    ensures RemoveChar([a] + t, ' ') == RemoveChar([a] + rest, ' ')
  {
    RemoveCharCons(a, t, ' ');
    RemoveCharCons(a, rest, ' ');
  }

  /** A pair spaced out in front of texts equal up to spaces. */
  lemma EspacoNoPar(a: char, b: char, t: string, rest: string)
    requires RemoveChar(t, ' ') == RemoveChar(rest, ' ')
    ensures RemoveChar([a, ' ', b] + t, ' ') == RemoveChar([a, b] + rest, ' ')
  {
    CopiaNoInicio(b, t, rest);
    RemoveCharCons(' ', [b] + t, ' ');
    CopiaNoInicio(a, [' '] + ([b] + t), [b] + rest);
    Associa3(a, ' ', b, t);
    Associa2(a, b, rest);
  }

  lemma Associa3(a: char, x: char, b: char, t: string)
    ensures [a, x, b] + t == [a] + ([x] + ([b] + t))
  {
  }

  lemma Associa2(a: char, b: char, t: string)
    ensures [a, b] + t == [a] + ([b] + t)
  {
  }

  /** Spacing pairs only inserts spaces. */
  lemma {:induction false} SoEspacos(s: string, i: nat, p: char -> bool, q: char -> bool)
    requires i <= |s|
    ensures RemoveChar(SubFrom(s, i, Fronteira(p, q), Espacar), ' ') == RemoveChar(s[i..], ' ')
    decreases |s| - i
  {
    var m := Fronteira(p, q);
    if i < |s| {
      if MatchesAt(s, i, m) {
        assert s[i..i + 2] == [s[i], s[i + 1]];
        assert SubFrom(s, i, m, Espacar) == [s[i], ' ', s[i + 1]] + SubFrom(s, i + 2, m, Espacar);
        assert s[i..] == [s[i], s[i + 1]] + s[i + 2..];
        SoEspacos(s, i + 2, p, q);
        EspacoNoPar(s[i], s[i + 1], SubFrom(s, i + 2, m, Espacar), s[i + 2..]);
      } else {
        assert SubFrom(s, i, m, Espacar) == [s[i]] + SubFrom(s, i + 1, m, Espacar);
        assert s[i..] == [s[i]] + s[i + 1..];
        SoEspacos(s, i + 1, p, q);
        CopiaNoInicio(s[i], SubFrom(s, i + 1, m, Espacar), s[i + 1..]);
      }
    }
  }

  // ---------------------------------------------------------------------------
  // Units and block rendering
  // ---------------------------------------------------------------------------

  /** The units PADRAO_BLOCO recognises. */
  const UnidadesBase: seq<string> := ["MG", "G", "MCG", "ML", "L", "UI", "MEQ", "MMOL", "%"]

  /** `_join_unit`: "U1/U2" when there is a second unit, else "U1". */
  function JoinUnit(u1: string, u2: Option<string>): string {
    if u2.Some? && u2.value != "" then u1 + "/" + u2.value else u1
  }

  /** The joined unit splits back into the units it was made of. */
  lemma JoinUnitSepara(u1: string, u2: Option<string>)
    requires '/' !in u1 && (u2.Some? ==> '/' !in u2.value)
    ensures SplitOn(JoinUnit(u1, u2), '/') == (if u2.Some? && u2.value != "" then [u1, u2.value] else [u1])
  {
    if u2.Some? && u2.value != "" {
      SplitOnWordSep(u1, u2.value, '/');
      SplitOnNoSep(u2.value, '/');
      assert u1 + "/" + u2.value == u1 + ['/'] + u2.value;
    } else {
      SplitOnNoSep(u1, '/');
    }
  }

  /** How a block is written back: one value as "v U", several as
      "(v1 + v2 + ...) U". The unit always comes last after one space;
      a single value comes first, otherwise the values are in parentheses. */
  function Render(vals: seq<string>, u: string): (r: string)
    ensures EndsWith(r, " " + u)
    ensures |vals| == 1 ==> StartsWith(r, vals[0]) && |r| == |vals[0]| + 1 + |u|
    ensures |vals| != 1 ==> r[0] == '(' && r[|r| - |u| - 2] == ')'
  {
    var r := if |vals| == 1 then vals[0] + " " + u else "(" + Join(vals, " + ") + ") " + u;
    assert r[|r| - |u| - 1..] == " " + u;
    r
  }

  /** A match of PADRAO_BLOCO, `((?:\d+\s+){1,40})(U1)(?:\s+(U2))?`:
      where it starts and ends in the text, the digit runs of its first
      group and its units. */
  datatype Bloco = Bloco(inicio: nat, fim: nat, nums: seq<string>, u1: string, u2: Option<string>)

  /** The flags of the whole presentation: compound substance, BOLSA and PO
      found in the text. */
  datatype Modo = Modo(composto: bool, bolsa: bool, po: bool)

  function ContextoDe(b: Bloco, m: Modo): Contexto {
    Contexto(b.u1, b.u2, m.composto, m.bolsa, m.po)
  }

  /** `_format_block`: the block's values and its joined unit. */
  function Valores(b: Bloco, m: Modo): seq<string> { ParseValues(b.nums, ContextoDe(b, m)) }

  function Unidade(b: Bloco): string { JoinUnit(b.u1, b.u2) }

  /** A Python slice `s[a:b]`: out-of-range ends are clamped and a reversed
      range is empty. */
  function Fatia(s: string, a: nat, b: nat): (r: string)
    ensures a <= b <= |s| ==> r == s[a..b]
    ensures |r| <= |s|
  {
    var b' := if b <= |s| then b else |s|;
    if a < b' then s[a..b'] else ""
  }

  /** Block `t` joins the group before it, whose unit is `u`: merging is on
      (compound substance), only whitespace separates it from the previous
      block, and its unit is the same. */
  predicate Junta(s: string, ms: seq<Bloco>, t: nat, u: string, composto: bool)
    requires 0 < t < |ms|
  {
    composto && Strip(Fatia(s, ms[t - 1].fim, ms[t].inicio)) == "" && Unidade(ms[t]) == u
  }

  /** The inner `while k_next < len(matches)` loop, for any joining test
      `junta` on block indices below `n`: the group grows from `j` while the
      next block joins it and ends at the first block that does not, so the
      group is maximal. */
  function Estender(n: nat, j: nat, junta: nat -> bool): (r: nat)
    requires j <= n
    ensures j <= r <= n
    ensures forall t :: j <= t < r ==> junta(t)
    ensures r < n ==> !junta(r)
    decreases n - j
  {
    if j < n && junta(j) then Estender(n, j + 1, junta) else j
  }

  /** The joining test of the group whose unit is `u`. */
  function JuntaEm(s: string, ms: seq<Bloco>, u: string, composto: bool): nat -> bool
  {
    t => 0 < t < |ms| && Junta(s, ms, t, u, composto)
  }

  /** How the values of one block are read; `_format_block` in the model
      proper, any function in the lemmas about merging. */
  type Leitura = Bloco -> seq<string>

  /** `values_all`: the values of blocks `k` to `j - 1` in order. */
  function ValoresDe(ms: seq<Bloco>, k: nat, j: nat, vf: Leitura): seq<string>
    requires k <= j <= |ms|
    decreases j - k
  {
    if k == j then [] else vf(ms[k]) + ValoresDe(ms, k + 1, j, vf)
  }

  /** The outer loop of `_merge_adjacent_same_unit` from block `k`, with
      the text copied up to `pos`: the text before the block, the rendering
      of its group, then the rest after the group's last block. */
  function Pecas(s: string, ms: seq<Bloco>, k: nat, pos: nat, composto: bool, vf: Leitura): string
    requires k <= |ms|
    decreases |ms| - k
  {
    if k == |ms| then Fatia(s, pos, |s|)
    else
      var u := Unidade(ms[k]);
      var j := Estender(|ms|, k + 1, JuntaEm(s, ms, u, composto));
      Fatia(s, pos, ms[k].inicio) + Render(ValoresDe(ms, k, j, vf), u) + Pecas(s, ms, j, ms[j - 1].fim, composto, vf)
  }

  /** `_merge_adjacent_same_unit`: every block replaced by its rendering,
      groups of merged blocks rendered once, and whitespace collapsed. */
  function MergeAdjacentSameUnit(s: string, ms: seq<Bloco>, m: Modo): (r: string)
    ensures Normalized(r)
    ensures |ms| == 0 ==> Split(r) == Split(s)
  {
    var vf := (b: Bloco) => Valores(b, m);
    assert |ms| == 0 ==> Pecas(s, ms, 0, 0, m.composto, vf) == Fatia(s, 0, |s|) == s;
    CollapseSpaces(Pecas(s, ms, 0, 0, m.composto, vf))
  }

  /** The reference for the non-compound case: every block rendered on its
      own, the text between blocks kept. */
  function Separadas(s: string, ms: seq<Bloco>, k: nat, pos: nat, vf: Leitura): string
    requires k <= |ms|
    decreases |ms| - k
  {
    if k == |ms| then Fatia(s, pos, |s|)
    else Fatia(s, pos, ms[k].inicio) + Render(vf(ms[k]), Unidade(ms[k])) + Separadas(s, ms, k + 1, ms[k].fim, vf)
  }

  /** Without a compound substance the group of block `k` is the block
      alone. */
  lemma SemCompostoUm(s: string, ms: seq<Bloco>, k: nat, vf: Leitura)
    requires k < |ms|
    ensures Estender(|ms|, k + 1, JuntaEm(s, ms, Unidade(ms[k]), false)) == k + 1
    ensures ValoresDe(ms, k, k + 1, vf) == vf(ms[k])
  {
    var junta := JuntaEm(s, ms, Unidade(ms[k]), false);
    assert k + 1 < |ms| ==> !junta(k + 1);
    assert ValoresDe(ms, k + 1, k + 1, vf) == [];
  }

  /** Without a compound substance no blocks merge: each is rendered on its
      own. */
  lemma {:induction false} SemCompostoSeparadas(s: string, ms: seq<Bloco>, k: nat, pos: nat, vf: Leitura)
    requires k <= |ms|
    ensures Pecas(s, ms, k, pos, false, vf) == Separadas(s, ms, k, pos, vf)
    decreases |ms| - k
  {
    if k < |ms| {
      SemCompostoUm(s, ms, k, vf);
      SemCompostoSeparadas(s, ms, k + 1, ms[k].fim, vf);
    }
  }

  /** With a compound substance, blocks from `k` on that are separated by
      whitespace only and share one unit become one rendering that holds
      all their values. */
  lemma MesclaGrupo(s: string, ms: seq<Bloco>, k: nat, pos: nat, vf: Leitura)
    requires k < |ms|
    requires forall t :: k < t < |ms| ==> Strip(Fatia(s, ms[t - 1].fim, ms[t].inicio)) == ""
    requires forall t :: k < t < |ms| ==> Unidade(ms[t]) == Unidade(ms[k])
    ensures Pecas(s, ms, k, pos, true, vf)
            == Fatia(s, pos, ms[k].inicio) + Render(ValoresDe(ms, k, |ms|, vf), Unidade(ms[k])) + Fatia(s, ms[|ms| - 1].fim, |s|)
  {
    var u := Unidade(ms[k]);
    assert forall t :: k < t < |ms| ==> JuntaEm(s, ms, u, true)(t);
    var j := Estender(|ms|, k + 1, JuntaEm(s, ms, u, true));
    assert j == |ms|;
  }

  // ---------------------------------------------------------------------------
  // normalizar_apresentacao / limpar_apresentacao_final
  // ---------------------------------------------------------------------------

  /** The fixed rule tables of the two normalisers, given as functions:
      the PADRONIZACOES substitutions followed by the deletion of the
      irrelevant terms (`padronizar`), PADRAO_BLOCO's `finditer`
      (`blocos`), the unit-pair and cleaning substitutions after the merge
      up to the final space collapse (`posMescla`), and the substitution
      chain of `limpar_apresentacao_final` before its own space collapse
      (`limpeza`). */
  datatype Regras = Regras(padronizar: string -> string, blocos: string -> seq<Bloco>,
                           posMescla: string -> string, limpeza: string -> string)

  /** `re.sub(r'\bK\b', R, s)`. */
  function TrocaPalavra(s: string, k: string, r: string): string {
    Sub(s, WholeWords([k], false), (m: string) => r)
  }

  /** The joined unit names written with a slash. */
  function UnidadesCompostas(s: string): string {
    TrocaPalavra(TrocaPalavra(TrocaPalavra(TrocaPalavra(s, "MGML", "MG/ML"), "MCGML", "MCG/ML"), "UIML", "UI/ML"), "GML", "G/ML")
  }

  /** `re.search(r'\bK\b', s)` finds something. */
  predicate TemPalavra(s: string, k: string) {
    exists i :: 0 <= i < |s| && WholeWordAt(s, i, k, false)
  }

  /** The text in which the dosage blocks are searched: upper case, digits
      and letters spaced apart, spaces collapsed, the rule tables and the
      joined units applied. */
  function Preparar(s: string, regras: Regras): string {
    UnidadesCompostas(regras.padronizar(CollapseSpaces(SplitDigitsLetters(Upper(s)))))
  }

  /** The modes of the merge, from the prepared text. */
  function ModoDe(s: string, composto: bool): Modo {
    Modo(composto, TemPalavra(s, "BOLSA") || TemPalavra(s, "BOLS"), TemPalavra(s, "PO"))
  }

  /** `normalizar_apresentacao`: anything but non-blank text is returned as
      it is; text without dosage blocks comes back prepared, and text with
      blocks comes back merged with its spaces normalised. */
  function NormalizarApresentacao(v: Value, composto: bool, regras: Regras): (r: Value)
    ensures !v.Str? || Strip(v.s) == "" ==> r == v
    ensures v.Str? && Strip(v.s) != "" ==> r.Str?
    ensures v.Str? && Strip(v.s) != "" && |regras.blocos(Preparar(v.s, regras))| == 0 ==> r == Str(Preparar(v.s, regras))
    ensures v.Str? && Strip(v.s) != "" && |regras.blocos(Preparar(v.s, regras))| > 0 ==> Normalized(r.s)
  {
    if !v.Str? || Strip(v.s) == "" then v
    else
      var s := Preparar(v.s, regras);
      var ms := regras.blocos(s);
      if |ms| == 0 then Str(s)
      else Str(CollapseSpaces(regras.posMescla(MergeAdjacentSameUnit(s, ms, ModoDe(s, composto)))))
  }

  /** `limpar_apresentacao_final`: anything but non-blank text is returned
      as it is; text comes back with single spaces between words and none
      at either end. */
  function LimparApresentacaoFinal(v: Value, regras: Regras): (r: Value)
    ensures !v.Str? || Strip(v.s) == "" ==> r == v
    ensures v.Str? && Strip(v.s) != "" ==> r.Str? && Normalized(r.s)
  {
    if !v.Str? || Strip(v.s) == "" then v
    else Str(CollapseSpaces(regras.limpeza(v.s)))
  }

  /** Final cleaning leaves alone normalised text its substitutions do not
      touch; in particular its own output when they then find nothing more
      to do. */
  lemma LimparFixo(s: string, regras: Regras)
    requires Normalized(s) && Strip(s) != "" && regras.limpeza(s) == s
    ensures LimparApresentacaoFinal(Str(s), regras) == Str(s)
  {
    NormalizedFixed(s);
  }

  // ---------------------------------------------------------------------------
  // expandir_cx_bl
  // ---------------------------------------------------------------------------

  /** Where the two digit groups of `\bCX\s*(\d+)\s*BL\s*X\s*(\d+)\b` (any
      case) fall when it matches at some position: start and length of
      each. Every quantifier is greedy and no shorter choice would let the
      rest match, so the first reading is the only one. */
  datatype Grupos = Grupos(a: nat, na: nat, d: nat, nd: nat)

  /** `\s*(\d+)` from `j`: start and length of the digit group. */
  function DigitosApos(s: string, j: nat): (r: Option<(nat, nat)>)
    ensures r.Some? ==> j <= r.value.0 && r.value.1 > 0 && r.value.0 + r.value.1 <= |s|
    ensures r.Some? ==> AllDigits(s[r.value.0..r.value.0 + r.value.1])
  {
    var a := j + SpaceRun(s, j);
    var n := CharRun(s, a, IsDigit);
    if n == 0 then None
    else
      Some((a, n))
  }

  /** `\s*K` from `j` (any case): where the match of `K` ends. */
  function PalavraApos(s: string, j: nat, k: string): (r: Option<nat>)
    ensures r.Some? ==> j + |k| <= r.value <= |s|
  {
    var b := j + SpaceRun(s, j);
    if TextAt(s, b, k, true) then Some(b + |k|) else None
  }

  function PosicoesCxBl(s: string, i: nat): (r: Option<Grupos>)
    ensures r.Some? ==> i < r.value.a && r.value.a + r.value.na <= r.value.d && r.value.d + r.value.nd <= |s|
    ensures r.Some? ==> r.value.na > 0 && r.value.nd > 0
  {
    if !(Boundary(s, i) && TextAt(s, i, "CX", true)) then None
    else match DigitosApos(s, i + 2)
    case None => None
    case Some(g1) =>
      match PalavraApos(s, g1.0 + g1.1, "BL")
      case None => None
      case Some(b) =>
        match PalavraApos(s, b, "X")
        case None => None
        case Some(c) =>
          match DigitosApos(s, c)
          case None => None
          case Some(g2) =>
            if Boundary(s, g2.0 + g2.1) then Some(Grupos(g1.0, g1.1, g2.0, g2.1)) else None
  }

  /** The matcher: the match runs from `CX` to the end of the second
      group. */
  function CxBl(): Matcher {
    (s: string, i: nat) => match PosicoesCxBl(s, i) case None => 0 case Some(g) => g.d + g.nd - i
  }

  /** `substituir`: "BL X " and the product of the two groups read as
      integers (the groups are read back from the matched text). */
  function MultiplicarCxBl(m: string): string {
    match PosicoesCxBl(m, 0)
    case None => m
    case Some(g) => "BL X " + NatText(Vezes(Grupo(m, g.a, g.na), Grupo(m, g.d, g.nd)))
  }

  function Vezes(x: nat, y: nat): nat { x * y }

  /** `int()` of the digit group of length `n` at `a` (the matcher only
      reports groups made of digits). */
  function Grupo(s: string, a: nat, n: nat): nat
    requires a + n <= |s|
  {
    var t := s[a..a + n];
    if AllDigits(t) then DigitsValue(t) else 0
  }

  /** `expandir_cx_bl`: anything but text is returned as it is; in text
      every "CX a BL X b" becomes "BL X a*b". */
  function ExpandirCxBl(v: Value): (r: Value)
    ensures !v.Str? ==> r == v
    ensures v.Str? ==> r.Str?
    ensures v.Str? && (forall i :: 0 <= i < |v.s| ==> PosicoesCxBl(v.s, i).None?) ==> r == v
  {
    if !v.Str? then v
    else
      if forall i :: 0 <= i < |v.s| ==> PosicoesCxBl(v.s, i).None? then
        assert forall i :: 0 <= i < |v.s| ==> !MatchesAt(v.s, i, CxBl());
        SubNoMatch(v.s, CxBl(), MultiplicarCxBl);
        Str(Sub(v.s, CxBl(), MultiplicarCxBl))
      else Str(Sub(v.s, CxBl(), MultiplicarCxBl))
  }

  /** A run of characters with property `p` that ends the text or is
      followed by one without it has exactly its own length. */
  lemma {:induction false} CharRunTexto(s: string, j: nat, n: nat, p: char -> bool)
    requires j + n <= |s|
    requires forall k :: j <= k < j + n ==> p(s[k])
    requires j + n == |s| || !p(s[j + n])
    ensures CharRun(s, j, p) == n
    decreases n
  {
    if n > 0 {
      CharRunTexto(s, j + 1, n - 1, p);
    }
  }

  /** A single space followed by something else. */
  lemma UmEspaco(s: string, j: nat)
    requires j + 1 < |s| && s[j] == ' ' && !IsSpace(s[j + 1])
    ensures SpaceRun(s, j) == 1
  {
    assert SpaceRun(s, j + 1) == 0;
  }

  /** A space and then the digits `t` ending the text or followed by a
      space: the digit group is `t`. */
  lemma DigitosAposTexto(s: string, j: nat, t: string)
    requires j + 1 + |t| <= |s| && s[j] == ' ' && s[j + 1..j + 1 + |t|] == t
    requires |t| > 0 && AllDigits(t)
    requires j + 1 + |t| == |s| || s[j + 1 + |t|] == ' '
    ensures DigitosApos(s, j) == Some((j + 1, |t|))
  {
    assert s[j + 1] == t[0];
    UmEspaco(s, j);
    assert forall k :: j + 1 <= k < j + 1 + |t| ==> IsDigit(s[k]) by {
      forall k | j + 1 <= k < j + 1 + |t| ensures IsDigit(s[k]) {
        assert s[k] == s[j + 1..j + 1 + |t|][k - j - 1];
      }
    }
    CharRunTexto(s, j + 1, |t|, IsDigit);
  }

  /** A space and then the upper-case word `k`: it ends after `k`. */
  lemma PalavraAposTexto(s: string, j: nat, k: string)
    requires j + 1 + |k| <= |s| && s[j] == ' ' && s[j + 1..j + 1 + |k|] == k
    requires |k| > 0 && !IsSpace(k[0]) && Upper(k) == k
    ensures PalavraApos(s, j, k) == Some(j + 1 + |k|)
  {
    assert s[j + 1] == k[0];
    UmEspaco(s, j);
    assert TextAt(s, j + 1, k, true);
  }

  /** The layout of the text "CX tx BL X ty". */
  lemma LayoutCxBl(tx: string, ty: string) returns (m: string)
    ensures m == "CX " + tx + " BL X " + ty
    ensures |m| == 9 + |tx| + |ty|
    ensures m[0..2] == "CX" && m[2] == ' ' && m[3..3 + |tx|] == tx && m[3 + |tx|] == ' '
    ensures m[4 + |tx|..6 + |tx|] == "BL" && m[6 + |tx|] == ' ' && m[7 + |tx|..8 + |tx|] == "X" && m[8 + |tx|] == ' '
    ensures m[9 + |tx|..9 + |tx| + |ty|] == ty
  {
    var p := |tx|;
    m := "CX " + tx + " BL X " + ty;
    assert m == "CX " + (tx + (" BL X " + ty));
    assert m[3..] == tx + (" BL X " + ty);
    assert m[3..][..p] == tx;
    assert m[3 + p..] == " BL X " + ty;
  }

  /** Any text laid out as "CX", a space, digits `tx`, " BL X ", digits
      `ty` is matched as a whole, with `tx` and `ty` as its groups. */
  lemma PosicoesLayout(m: string, tx: string, ty: string)
    requires |tx| > 0 && |ty| > 0 && AllDigits(tx) && AllDigits(ty)
    requires |m| == 9 + |tx| + |ty|
    requires m[0..2] == "CX" && m[2] == ' ' && m[3..3 + |tx|] == tx && m[3 + |tx|] == ' '
    requires m[4 + |tx|..6 + |tx|] == "BL" && m[6 + |tx|] == ' ' && m[7 + |tx|..8 + |tx|] == "X" && m[8 + |tx|] == ' '
    requires m[9 + |tx|..9 + |tx| + |ty|] == ty
    ensures PosicoesCxBl(m, 0) == Some(Grupos(3, |tx|, 9 + |tx|, |ty|))
  {
    var p := |tx|;
    CabecaCx(m);
    DigitosAposTexto(m, 2, tx);
    PalavraAposTexto(m, 3 + p, "BL");
    PalavraAposTexto(m, 6 + p, "X");
    DigitosAposTexto(m, 8 + p, ty);
    FimDigito(m, 9 + p, ty);
    PosicoesDePassos(m, p, |ty|);
  }

  lemma CabecaCx(m: string)
    requires |m| >= 2 && m[0..2] == "CX"
    ensures Boundary(m, 0) && TextAt(m, 0, "CX", true)
  {
    assert m[0] == m[0..2][0] == 'C';
  }

  lemma FimDigito(m: string, a: nat, t: string)
    requires |t| > 0 && AllDigits(t) && a + |t| == |m| && m[a..a + |t|] == t
    ensures Boundary(m, |m|)
  {
    assert m[|m| - 1] == t[|t| - 1];
  }

  /** The matcher composed from its steps. */
  lemma PosicoesDePassos(m: string, p: nat, q: nat)
    requires Boundary(m, 0) && TextAt(m, 0, "CX", true)
    requires DigitosApos(m, 2) == Some((3, p)) && PalavraApos(m, 3 + p, "BL") == Some(6 + p)
    requires PalavraApos(m, 6 + p, "X") == Some(8 + p) && DigitosApos(m, 8 + p) == Some((9 + p, q))
    requires Boundary(m, 9 + p + q)
    ensures PosicoesCxBl(m, 0) == Some(Grupos(3, p, 9 + p, q))
  {
  }

  /** A match that covers the whole text is replaced as a whole. */
  lemma SubInteira(m: string, mt: Matcher, rep: string -> string)
    requires 0 < |m| && mt(m, 0) == |m|
    ensures Sub(m, mt, rep) == rep(m)
  {
    assert m[0..|m|] == m;
    assert SubFrom(m, |m|, mt, rep) == "";
    assert rep(m) + "" == rep(m);
  }

  /** A group whose text is the digits `t` is read as their value. */
  lemma GrupoTexto(s: string, a: nat, t: string)
    requires a + |t| <= |s| && s[a..a + |t|] == t && AllDigits(t)
    ensures Grupo(s, a, |t|) == DigitsValue(t)
  {
  }

  /** The replacement reads the two groups back. */
  lemma MultiplicarTexto(m: string, tx: string, ty: string)
    requires AllDigits(tx) && AllDigits(ty)
    requires |m| == 9 + |tx| + |ty|
    requires m[3..3 + |tx|] == tx && m[9 + |tx|..9 + |tx| + |ty|] == ty
    requires PosicoesCxBl(m, 0) == Some(Grupos(3, |tx|, 9 + |tx|, |ty|))
    ensures MultiplicarCxBl(m) == "BL X " + NatText(Vezes(DigitsValue(tx), DigitsValue(ty)))
  {
    GrupoTexto(m, 3, tx);
    GrupoTexto(m, 9 + |tx|, ty);
  }

  /** "CX a BL X b" written with any two digit groups becomes "BL X "
      followed by the product of their values. */
  lemma ExpandirTexto(tx: string, ty: string)
    requires |tx| > 0 && |ty| > 0 && AllDigits(tx) && AllDigits(ty)
    ensures ExpandirCxBl(Str("CX " + tx + " BL X " + ty)) == Str("BL X " + NatText(Vezes(DigitsValue(tx), DigitsValue(ty))))
  {
    var m := LayoutCxBl(tx, ty);
    PosicoesLayout(m, tx, ty);
    MultiplicarTexto(m, tx, ty);
    assert CxBl()(m, 0) == |m|;
    SubInteira(m, CxBl(), MultiplicarCxBl);
  }

  /** Round trip of the multiplication: "CX x BL X y" becomes
      "BL X " followed by the digits of x*y. */
  lemma ExpandirCanonico(x: nat, y: nat)
    ensures ExpandirCxBl(Str("CX " + NatText(x) + " BL X " + NatText(y))) == Str("BL X " + NatText(Vezes(x, y)))
  {
    ExpandirTexto(NatText(x), NatText(y));
    NatTextRoundTrip(x);
    NatTextRoundTrip(y);
  }
}
