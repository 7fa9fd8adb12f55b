/** Laboratory names (`src/modules/laboratorio.py`): the LABORATORIO column
    is upper-cased, loses the company-form abbreviations (LTDA, LT, EIRELI,
    EPP, SA and its spellings) and its dots, and has its whitespace
    normalised; the upper-cased original is kept once as a backup. */
module Laboratorio {
  import opened Text
  import opened Scan
  import opened Frame

  const Lab := "LABORATORIO"
  const Original := "LABORATORIO_ORIGINAL"

  // ---------------------------------------------------------------------------
  // The two hand-written SA patterns
  // ---------------------------------------------------------------------------

  /** `\bS\.?A\.?\b` at `i`. Each optional dot is tried first; the closing
      `\b` after a dot needs a word character behind it, and without the
      dot `\b` follows the 'A' whenever a non-word character does. */
  function SAPontos(s: string, i: nat): nat {
    if !(i < |s| && s[i] == 'S' && Boundary(s, i)) then 0
    else
      var j := if i + 1 < |s| && s[i + 1] == '.' then i + 2 else i + 1;
      if !(j < |s| && s[j] == 'A') then 0
      else if j + 1 < |s| && s[j + 1] == '.' && Boundary(s, j + 2) then j + 2 - i
      else if Boundary(s, j + 1) then j + 1 - i
      else 0
  }

  /** `\bS\s*A\b` at `i`: the whitespace run is greedy, and giving some of
      it back cannot help, since 'A' is not whitespace. */
  function SEspacoA(s: string, i: nat): nat {
    if !(i < |s| && s[i] == 'S' && Boundary(s, i)) then 0
    else
      var j := i + 1 + SpaceRun(s, i + 1);
      if j < |s| && s[j] == 'A' && Boundary(s, j + 1) then j + 1 - i else 0
  }

  /** On text without dots, the dotted SA pattern is the plain whole word
      SA: its optional dots can never be used once the dots are gone. */
  lemma SAPontosSemPonto(s: string, i: nat)
    requires '.' !in s
    ensures SAPontos(s, i) == FirstKeyLen(["SA"], s, i, false)
  {
    if i < |s| && s[i] == 'S' && Boundary(s, i) && i + 1 < |s| && s[i + 1] == 'A' {
      assert s[i..i + 2] == "SA";
    }
  }

  // ---------------------------------------------------------------------------
  // The cleaned name
  // ---------------------------------------------------------------------------

  /** The characters the cleaned name is made of: upper case, no dot. */
  function Limpo(c: char): bool { UpperChar(c) == c && c != '.' }

  /** The cleaning chain of `processar_laboratorio` on one text, step by
      step: upper case; whole words LTDA and LT deleted; every dot
      deleted; whole words EIRELI and EPP deleted; the two SA patterns
      deleted; whitespace runs made single spaces and the ends trimmed. The
      result is upper case, has no dot and no surplus whitespace. */
  function LimparNome(s: string): (r: string)
    ensures Normalized(r) && IsUpperText(r) && '.' !in r
  {
    var u := Upper(s);
    var a := Delete(u, WholeWords(["LTDA"], false));
    var b := Delete(a, WholeWords(["LT"], false));
    var c := RemoveChar(b, '.');
    var d := Delete(c, WholeWords(["EIRELI"], false));
    var e := Delete(d, WholeWords(["EPP"], false));
    var f := Delete(e, SAPontos);
    var g := Delete(f, SEspacoA);
    Passos(s);
    var r := NormalizeSpaces(g);
    assert AllChars(r, Limpo);
    r
  }

  /** Each step of the chain keeps the cleaned character set from the dot
      removal on, and ' ' belongs to it. */
  lemma Passos(s: string)
    ensures var u := Upper(s);
            var a := Delete(u, WholeWords(["LTDA"], false));
            var b := Delete(a, WholeWords(["LT"], false));
            var c := RemoveChar(b, '.');
            var d := Delete(c, WholeWords(["EIRELI"], false));
            var e := Delete(d, WholeWords(["EPP"], false));
            var f := Delete(e, SAPontos);
            var g := Delete(f, SEspacoA);
            AllChars(NormalizeSpaces(g), Limpo)
  {
    var u := Upper(s);
    UpperIsUpper(s);
    var a := Delete(u, WholeWords(["LTDA"], false));
    DeleteKeeps(u, WholeWords(["LTDA"], false), MaiusculoChar);
    var b := Delete(a, WholeWords(["LT"], false));
    DeleteKeeps(a, WholeWords(["LT"], false), MaiusculoChar);
    var c := RemoveChar(b, '.');
    RemoveCharKeeps(b, '.', MaiusculoChar);
    assert AllChars(c, Limpo);
    var d := Delete(c, WholeWords(["EIRELI"], false));
    DeleteKeeps(c, WholeWords(["EIRELI"], false), Limpo);
    var e := Delete(d, WholeWords(["EPP"], false));
    DeleteKeeps(d, WholeWords(["EPP"], false), Limpo);
    var f := Delete(e, SAPontos);
    DeleteKeeps(e, SAPontos, Limpo);
    var g := Delete(f, SEspacoA);
    DeleteKeeps(f, SEspacoA, Limpo);
    NormalizeSpacesKeeps(g, Limpo);
  }

  function MaiusculoChar(c: char): bool { UpperChar(c) == c }

  // ---------------------------------------------------------------------------
  // processar_laboratorio
  // ---------------------------------------------------------------------------

  /** `.str.upper()` for the backup: text is upper-cased, anything else
      (missing values and numbers alike) becomes missing. */
  function Backup(v: Value): (r: Value)
    ensures v.Str? <==> r.Str?
    ensures r.Str? ==> IsUpperText(r.s) && |r.s| == |v.s|
  {
    UpperIsUpper(if v.Str? then v.s else "");
    if v.Str? then Str(Upper(v.s)) else Null
  }

  /** The cleaned cell as written: `astype(str)` first, so a missing value
      is cleaned as the text `repr` gives it. */
  function LimparCelula(v: Value, repr: Value -> string): (r: Value)
    ensures r.Str? && Normalized(r.s) && IsUpperText(r.s) && '.' !in r.s
  {
    Str(LimparNome(Texto(v, repr)))
  }

  function ColunaBackup(r: Row): Value { Backup(Get(r, Lab)) }

  function ColunaLimpa(repr: Value -> string): Row -> Value {
    (r: Row) => LimparCelula(Get(r, Lab), repr)
  }

  /** `processar_laboratorio` without its counts: a frame without the
      column comes back as it is; otherwise the backup column is added
      when absent, holding the upper-cased original, and the column is
      replaced by its cleaned text. Every other cell stays. */
  function ProcessarLaboratorio(t: Table, repr: Value -> string): (r: Table)
    requires WellFormed(t)
    ensures WellFormed(r) && |r.rows| == |t.rows|
    ensures Lab !in t.cols ==> r == t
    ensures Lab in t.cols ==> forall c :: c in r.cols <==> c in t.cols || c == Original
    ensures Lab in t.cols ==> forall i :: 0 <= i < |t.rows| ==>
              Get(r.rows[i], Lab) == LimparCelula(Get(t.rows[i], Lab), repr)
              && Get(r.rows[i], Original) == (if Original in t.cols then Get(t.rows[i], Original) else Backup(Get(t.rows[i], Lab)))
    ensures forall i, c :: 0 <= i < |t.rows| && c != Lab && c != Original ==> Get(r.rows[i], c) == Get(t.rows[i], c)
  {
    if Lab !in t.cols then t
    else
      var b := if Original in t.cols then t else SetCol(t, Original, ColunaBackup);
      SetCol(b, Lab, ColunaLimpa(repr))
  }

  /** Running the stage twice keeps the first backup: the original is
      never overwritten by an already-cleaned name. */
  lemma BackupUmaVez(t: Table, repr: Value -> string, i: nat)
    requires WellFormed(t) && Lab in t.cols && i < |t.rows|
    ensures var p := ProcessarLaboratorio(t, repr);
            Get(ProcessarLaboratorio(p, repr).rows[i], Original) == Get(p.rows[i], Original)
  {
  }

  /** None of the six deletion patterns matches anywhere in `s`. */
  predicate SemSigla(s: string) {
    forall j :: 0 <= j < |s| ==>
      !MatchesAt(s, j, WholeWords(["LTDA"], false)) && !MatchesAt(s, j, WholeWords(["LT"], false))
      && !MatchesAt(s, j, WholeWords(["EIRELI"], false)) && !MatchesAt(s, j, WholeWords(["EPP"], false))
      && !MatchesAt(s, j, SAPontos) && !MatchesAt(s, j, SEspacoA)
  }

  /** A name that is already clean (upper case, normalised, without dots
      and without any of the abbreviations) is left as it is: the cleaning
      only ever removes what it promises to remove. */
  lemma LimparJaLimpo(s: string)
    requires IsUpperText(s) && Normalized(s) && '.' !in s && SemSigla(s)
    ensures LimparNome(s) == s
  {
    assert Upper(s) == s;
    SubNoMatch(s, WholeWords(["LTDA"], false), Nothing);
    SubNoMatch(s, WholeWords(["LT"], false), Nothing);
    SubNoMatch(s, WholeWords(["EIRELI"], false), Nothing);
    SubNoMatch(s, WholeWords(["EPP"], false), Nothing);
    SubNoMatch(s, SAPontos, Nothing);
    SubNoMatch(s, SEspacoA, Nothing);
    NormalizedFixed(s);
  }

  /** Only the upper-cased text matters to the cleaning. */
  lemma LimparMaiusculo(s: string)
    ensures LimparNome(Upper(s)) == LimparNome(s)
  {
    UpperIsUpper(s);
  }

  /** "NAN" is a clean name: every pattern starts at an 'S', an 'L' or an
      'E'. */
  lemma NanLimpo(u: string)
    requires u == "NAN"
    ensures LimparNome(u) == u
  {
    forall j | 0 <= j < |u| ensures u[j] != 'S' && u[j] != 'L' && u[j] != 'E' { }
    NaoComeca(u);
    LimparJaLimpo(u);
  }

  /** A text without 'S', 'L' and 'E' holds no abbreviation. */
  lemma NaoComeca(u: string)
    requires forall j :: 0 <= j < |u| ==> u[j] != 'S' && u[j] != 'L' && u[j] != 'E'
    ensures SemSigla(u)
  {
    forall j | 0 <= j < |u|
      ensures !MatchesAt(u, j, WholeWords(["LTDA"], false)) && !MatchesAt(u, j, WholeWords(["LT"], false))
      ensures !MatchesAt(u, j, WholeWords(["EIRELI"], false)) && !MatchesAt(u, j, WholeWords(["EPP"], false))
    {
      PalavraComeca(u, j, "LTDA");
      PalavraComeca(u, j, "LT");
      PalavraComeca(u, j, "EIRELI");
      PalavraComeca(u, j, "EPP");
    }
  }

  /** A whole-word match of `k` starts with the first letter of `k`. */
  lemma PalavraComeca(u: string, j: nat, k: string)
    requires |k| > 0
    ensures FirstKeyLen([k], u, j, false) > 0 ==> j < |u| && u[j] == k[0]
  {
    if FirstKeyLen([k], u, j, false) > 0 {
      assert WholeWordAt(u, j, k, false);
      assert u[j..j + |k|][0] == k[0];
    }
  }

  lemma UpperNan()
    ensures Upper("nan") == "NAN"
  {
  }

  /** As written, a missing laboratory becomes the text "NAN": `astype(str)`
      turns the missing value into "nan" before the cleaning. */
  lemma AusenteViraNan(repr: Value -> string)
    requires repr(Null) == "nan"
    ensures LimparCelula(Null, repr) == Str("NAN")
  {
    UpperNan();
    LimparMaiusculo("nan");
    NanLimpo("NAN");
  }

  /** The corrected cell: a missing laboratory stays missing; text is
      cleaned as before. */
  function LimparCelulaCorrigida(v: Value, repr: Value -> string): (r: Value)
    ensures v == Null <==> r == Null
    ensures v != Null ==> r == LimparCelula(v, repr)
  {
    if v == Null then Null else LimparCelula(v, repr)
  }
}
