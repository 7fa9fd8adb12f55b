/** Therapeutic classification of the regulator's base
    (`pipelines/anvisa_base/src/modules/classificacao_terapeutica.py`): the
    class text "CODE - DESCRIPTION" is standardised (ATC group numbers padded
    to two digits, the description upper-cased, unaccented and reduced to
    letters, digits and single spaces), and the anatomical group is derived
    from the code. The NFD decomposition and Python's `str()` of non-text
    cells are parameters. */
module ClassificacaoTerapeutica {
  import opened Wrappers
  import opened Seqs
  import opened Text
  import opened Scan
  import opened Frame

  const Classe := "CLASSE TERAPÊUTICA"
  const Original := "CLASSE_TERAPEUTICA_ORIGINAL"
  const GrupoAnat := "GRUPO ANATOMICO"
  const Sep := " - "

  // ---------------------------------------------------------------------------
  // Splitting at the first " - "
  // ---------------------------------------------------------------------------

  /** `s.split(' - ', 1)[0]` (and `s.split(' - ')[0]`): the text before the
      first separator, or all of it. */
  function Antes(s: string): (r: string)
    ensures Find(s, Sep) < 0 ==> r == s
    ensures Find(s, Sep) >= 0 ==> r == s[..Find(s, Sep)] && !Contains(r, Sep)
  {
    var k := Find(s, Sep);
    if k < 0 then s
    else
      assert forall j :: 0 <= j <= k - 3 ==> (OccursAt(s[..k], Sep, j) ==> OccursAt(s, Sep, j)) by {
        forall j | 0 <= j <= k - 3 && OccursAt(s[..k], Sep, j) ensures OccursAt(s, Sep, j) {
          assert s[..k][j..j + 3] == s[j..j + 3];
        }
      }
      s[..k]
  }

  /** `s.split(' - ', 1)[1] if ' - ' in s else ''`: the text after the first
      separator. */
  function Depois(s: string): (r: string)
    ensures Find(s, Sep) < 0 ==> r == ""
    ensures Find(s, Sep) >= 0 ==> s == Antes(s) + Sep + r
  {
    var k := Find(s, Sep);
    if k < 0 then ""
    else
      assert s[k..k + 3] == Sep;
      assert s == s[..k] + s[k..k + 3] + s[k + 3..];
      s[k + 3..]
  }

  // ---------------------------------------------------------------------------
  // a) the ATC code
  // ---------------------------------------------------------------------------

  /** `([A-Z])(\d)([A-Z]?\s*-\s*)` at `i`: a group letter and a single digit,
      an optional subgroup letter, then a dash with optional whitespace
      around it. The optional letter is tried first; giving it back cannot
      help, since the dash would then have to be that letter. */
  function Padrao1(s: string, i: nat): nat {
    if !(i + 1 < |s| && IsAsciiUpper(s[i]) && IsDigit(s[i + 1])) then 0
    else
      var j := if i + 2 < |s| && IsAsciiUpper(s[i + 2]) then i + 3 else i + 2;
      var d := j + SpaceRun(s, j);
      if d < |s| && s[d] == '-' then d + 1 + SpaceRun(s, d + 1) - i else 0
  }

  /** `([A-Z])(\d)([A-Z])` at `i`. */
  function Padrao2(s: string, i: nat): nat {
    if i + 2 < |s| && IsAsciiUpper(s[i]) && IsDigit(s[i + 1]) && IsAsciiUpper(s[i + 2]) then 3 else 0
  }

  /** `^([A-Z])(\d)(?=\s|[A-Z]|$)`: only at the start, followed by
      whitespace, a letter or the end. */
  function Padrao3(s: string, i: nat): nat {
    if i == 0 && 2 <= |s| && IsAsciiUpper(s[0]) && IsDigit(s[1]) && (|s| == 2 || IsSpace(s[2]) || IsAsciiUpper(s[2]))
    then 2 else 0
  }

  /** `corrigir_grupo`: the group digit gets a leading zero; the rest of the
      match stays. */
  function Corrigir(m: string): string {
    if |m| >= 2 then [m[0]] + "0" + m[1..] else m
  }

  /** `00(\s|$)` at `i`. */
  function ZeroZero(s: string, i: nat): nat {
    if !(i + 1 < |s| && s[i] == '0' && s[i + 1] == '0') then 0
    else if i + 2 == |s| then 2
    else if IsSpace(s[i + 2]) then 3
    else 0
  }

  /** The replacement `\1`: the whitespace after the two zeros, if any. */
  function SemZeroZero(m: string): string { if |m| >= 2 then m[2..] else m }

  /** The code of `padronizar_classe_terapeutica_completa`: the three
      padding passes, then every "00" before whitespace or the end removed,
      then the ends trimmed. */
  function Codigo(bruto: string): (r: string)
    ensures |r| == 0 || (!IsSpace(r[0]) && !IsSpace(r[|r| - 1]))
  {
    var a := Sub(bruto, Padrao1, Corrigir);
    var b := Sub(a, Padrao2, Corrigir);
    var c := Sub(b, Padrao3, Corrigir);
    Strip(Sub(c, ZeroZero, SemZeroZero))
  }

  /** A letter followed by a digit is always followed by a second digit:
      no group number has a single digit. */
  predicate GruposCompletos(s: string) {
    forall i :: 0 <= i < |s| - 1 && IsAsciiUpper(s[i]) && IsDigit(s[i + 1]) ==> i + 2 < |s| && IsDigit(s[i + 2])
  }

  /** No "00" stands before whitespace or the end. */
  predicate SemZeroZeroFinal(s: string) {
    forall i :: 0 <= i < |s| ==> ZeroZero(s, i) == 0
  }

  /** A code whose group numbers all have two digits, without a "00"
      ending a word and without surrounding whitespace, is left as it is:
      the standardisation only pads and strips. */
  lemma CodigoFixo(s: string)
    requires GruposCompletos(s) && SemZeroZeroFinal(s)
    requires |s| == 0 || (!IsSpace(s[0]) && !IsSpace(s[|s| - 1]))
    ensures Codigo(s) == s
  {
    forall i | 0 <= i < |s|
      ensures !MatchesAt(s, i, Padrao1) && !MatchesAt(s, i, Padrao2) && !MatchesAt(s, i, Padrao3)
    {
      if i + 1 < |s| && IsAsciiUpper(s[i]) && IsDigit(s[i + 1]) {
        assert IsDigit(s[i + 2]);
      }
    }
    SubNoMatch(s, Padrao1, Corrigir);
    SubNoMatch(s, Padrao2, Corrigir);
    SubNoMatch(s, Padrao3, Corrigir);
    SubNoMatch(s, ZeroZero, SemZeroZero);
  }

  /** A lone group letter and digit: "N5" becomes "N05". */
  lemma CodigoCurto(s: string)
    requires |s| == 2 && IsAsciiUpper(s[0]) && IsDigit(s[1]) && s[1] != '0'
    ensures Codigo(s) == [s[0], '0', s[1]]
  {
    var a := Sub(s, Padrao1, Corrigir);
    assert a == s by {
      forall i | 0 <= i < |s| ensures !MatchesAt(s, i, Padrao1) { }
      SubNoMatch(s, Padrao1, Corrigir);
    }
    assert Sub(s, Padrao2, Corrigir) == s by {
      forall i | 0 <= i < |s| ensures !MatchesAt(s, i, Padrao2) { }
      SubNoMatch(s, Padrao2, Corrigir);
    }
    var c := [s[0], '0', s[1]];
    PassoTres(s);
    assert Sub(c, ZeroZero, SemZeroZero) == c by {
      forall i | 0 <= i < |c| ensures !MatchesAt(c, i, ZeroZero) {
        assert c[2] != '0' && !IsSpace(c[2]);
      }
      SubNoMatch(c, ZeroZero, SemZeroZero);
    }
    assert !IsSpace(c[0]) && !IsSpace(c[2]);
    StripNoSpace(c);
  }

  /** The anchored pass on a lone letter and digit. */
  lemma PassoTres(s: string)
    requires |s| == 2 && IsAsciiUpper(s[0]) && IsDigit(s[1])
    ensures Sub(s, Padrao3, Corrigir) == [s[0], '0', s[1]]
  {
    assert MatchesAt(s, 0, Padrao3);
    assert s[0..2] == s;
    assert SubFrom(s, 2, Padrao3, Corrigir) == "";
  }

  // ---------------------------------------------------------------------------
  // b) the description
  // ---------------------------------------------------------------------------

  /** The characters `[^A-Z0-9\s]` keeps. */
  function Permitido(c: char): bool { IsAsciiUpper(c) || IsDigit(c) || IsSpace(c) }

  /** The description cleanup: upper case, decomposed with `nfd`, combining
      marks dropped, everything but ASCII capitals, digits and whitespace
      dropped, whitespace normalised. The result holds only capitals,
      digits and single inner spaces. */
  function Descricao(bruta: string, nfd: string -> string): (r: string)
    ensures Normalized(r) && AllChars(r, Permitido)
  {
    var d := Filter(Filter(nfd(Upper(bruta)), NaoCombinante), Permitido);
    FilterPermitido(Filter(nfd(Upper(bruta)), NaoCombinante));
    NormalizeSpacesKeeps(d, Permitido);
    NormalizeSpaces(d)
  }

  lemma {:induction false} FilterPermitido(s: string)
    ensures AllChars(Filter(s, Permitido), Permitido)
  {
    if |s| > 0 {
      FilterPermitido(s[1..]);
    }
  }

  // ---------------------------------------------------------------------------
  // padronizar_classe_terapeutica_completa
  // ---------------------------------------------------------------------------

  /** `f"{codigo} - {descricao}"`, or the code alone when the description
      came out empty. */
  function Montar(codigo: string, descricao: string): string {
    if |descricao| > 0 then codigo + Sep + descricao else codigo
  }

  /** `padronizar_classe_terapeutica_completa`: a missing value stays
      missing; anything else becomes text, the standardised code followed by
      the cleaned description when there is one. */
  function Padronizar(v: Value, repr: Value -> string, nfd: string -> string): (r: Value)
    ensures v == Null <==> r == Null
    ensures r != Null ==> r.Str?
  {
    if v == Null then Null
    else
      var original := Strip(Texto(v, repr));
      Str(Montar(Codigo(Strip(Antes(original))), Descricao(Depois(original), nfd)))
  }

  /** Without a separator the result is the standardised code alone. */
  lemma PadronizarSemSeparador(v: Value, repr: Value -> string, nfd: string -> string)
    requires v != Null && Find(Strip(Texto(v, repr)), Sep) < 0 && nfd("") == ""
    ensures Padronizar(v, repr, nfd) == Str(Codigo(Strip(Texto(v, repr))))
  {
    var original := Strip(Texto(v, repr));
    StripTwice(original);
    DescricaoVazia(nfd);
  }

  lemma StripTwice(s: string)
    requires |s| == 0 || (!IsSpace(s[0]) && !IsSpace(s[|s| - 1]))
    ensures Strip(s) == s
  {
  }

  /** An empty description stays empty. */
  lemma DescricaoVazia(nfd: string -> string)
    requires nfd("") == ""
    ensures Descricao("", nfd) == ""
  {
    assert Upper("") == "";
    assert Split("") == [];
    CollapseStrip("");
  }

  // ---------------------------------------------------------------------------
  // get_grupo_anatomico
  // ---------------------------------------------------------------------------

  const Varios := "VÁRIOS"
  const Psico := "SISTEMA NERVOSO-PSICONEUROLÓGICOS"
  const Anestesicos := "SISTEMA NERVOSO-ANESTÉSICOS E ANALGÉSICOS"

  /** `CODIGOS_PSICO_NEUROLOGICOS` and `CODIGOS_ANESTESICOS_ANALGESICOS`. */
  predicate PsicoNeuro(p: string) { p == "N03" || p == "N04" || p == "N05" || p == "N06" || p == "N07" }
  predicate AnestAnalg(p: string) { p == "N01" || p == "N02" }

  /** `GRUPOS_ANATOMICOS.get(letra, 'VÁRIOS')`. */
  function GrupoPorLetra(c: char): string {
    match c
    case 'L' => "ANTINEOPLÁSICOS E IMUNOMODULADORES"
    case 'J' => "ANTI-INFECCIOSOS DE USO SISTÊMICO"
    case 'A' => "TRATO ALIMENTAR E METABOLISMO"
    case 'B' => "SANGUE E ÓRGÃOS HEMATOPOÉTICOS"
    case 'K' => "SOLUÇÕES INTRAVENOSAS"
    case 'C' => "SISTEMA CARDIOVASCULAR"
    case 'M' => "SISTEMA MÚSCULO-ESQUELÉTICO"
    case 'H' => "HORMÔNIOS SISTÊMICOS, EXCETO SEXUAIS E INSULINAS"
    case 'R' => "SISTEMA RESPIRATÓRIO"
    case 'D' => "DERMATOLÓGICOS"
    case 'G' => "SISTEMA GENITURINÁRIO E HORMÔNIOS SEXUAIS"
    case 'S' => "ÓRGÃOS SENSORIAIS"
    case 'P' => "ANTIPARASITÁRIOS"
    case _ => Varios
  }

  /** `codigo[:3]`. */
  function Prefixo(c: string): string { if |c| >= 3 then c[..3] else c }

  /** The group of a non-empty code: the nervous-system rules on the first
      three characters, then the first letter. */
  function GrupoPorCodigo(c: string): (r: string)
    requires |c| > 0
    ensures r == Psico <==> PsicoNeuro(Prefixo(c))
    ensures r == Anestesicos <==> AnestAnalg(Prefixo(c))
    ensures !PsicoNeuro(Prefixo(c)) && !AnestAnalg(Prefixo(c)) ==> r == GrupoPorLetra(c[0])
  {
    if PsicoNeuro(Prefixo(c)) then Psico
    else if AnestAnalg(Prefixo(c)) then Anestesicos
    else GrupoPorLetra(c[0])
  }

  /** The letter map has no 'N': a nervous-system code outside N01-N07
      (N08, say, or a bare "N") falls through to 'VÁRIOS'; every other code
      gets the group of its first letter. */
  lemma GrupoNervoso(c: string)
    requires |c| > 0
    ensures c[0] == 'N' && !PsicoNeuro(Prefixo(c)) && !AnestAnalg(Prefixo(c)) ==> GrupoPorCodigo(c) == Varios
    ensures c[0] != 'N' ==> GrupoPorCodigo(c) == GrupoPorLetra(c[0])
  {
    if c[0] != 'N' && |c| >= 3 {
      assert Prefixo(c)[0] == c[0];
    }
  }

  /** `get_grupo_anatomico`: 'VÁRIOS' for a cell that is not text, has no
      separator or has an empty code; otherwise the group of the code. */
  function GrupoAnatomico(v: Value): (r: string)
    ensures !v.Str? || Find(v.s, Sep) < 0 ==> r == Varios
    ensures v.Str? && Find(v.s, Sep) >= 0 && |Strip(Antes(v.s))| > 0 ==> r == GrupoPorCodigo(Strip(Antes(v.s)))
  {
    if !v.Str? || Find(v.s, Sep) < 0 then Varios
    else
      var c := Strip(Antes(v.s));
      if |c| == 0 then Varios else GrupoPorCodigo(c)
  }

  /** A standardised class with a description gets the group of its code:
      the separator the standardisation writes is the first one the group
      lookup finds, so the two functions agree on what the code is. */
  lemma GrupoDaClasseMontada(c: string, d: string)
    requires |c| > 0 && !IsSpace(c[0]) && !IsSpace(c[|c| - 1]) && |d| > 0
    requires Find(c, Sep) < 0 && !EndsWith(c, " -")
    ensures GrupoAnatomico(Str(Montar(c, d))) == GrupoPorCodigo(c)
  {
    var s := c + Sep + d;
    assert OccursAt(s, Sep, |c|) by { assert s[|c|..|c| + 3] == Sep; }
    forall j | 0 <= j < |c| ensures !OccursAt(s, Sep, j) {
      SemSepAntes(c, d, j);
    }
    assert Find(s, Sep) == |c|;
    assert Antes(s) == c;
    StripTwice(c);
  }

  /** No separator starts inside the code: one inside it would be one of
      the code, and one straddling its end would need the code to end in a
      space or in " -". */
  lemma SemSepAntes(c: string, d: string, j: nat)
    requires |c| > 0 && !IsSpace(c[|c| - 1]) && Find(c, Sep) < 0 && !EndsWith(c, " -") && j < |c|
    ensures !OccursAt(c + Sep + d, Sep, j)
  {
    var s := c + Sep + d;
    if j + 3 <= |c| {
      assert s[j..j + 3] == c[j..j + 3];
      assert !OccursAt(c, Sep, j);
    } else if j == |c| - 1 {
      assert s[j] == c[|c| - 1];
    } else {
      assert j == |c| - 2 && s[j + 2] == ' ';
      assert s[j..j + 3] == [c[|c| - 2], c[|c| - 1], ' '];
      assert c[|c| - 2..] == [c[|c| - 2], c[|c| - 1]];
      assert Sep == [' ', '-', ' '];
    }
  }

  // ---------------------------------------------------------------------------
  // The frame steps
  // ---------------------------------------------------------------------------

  function CopiaClasse(r: Row): Value { Get(r, Classe) }

  /** `criar_backup_classe_original`: the class column is copied to the
      backup column only when there is no backup yet; reading a missing
      class column is a `KeyError`. */
  function CriarBackup(t: Table): (r: Result<Table>)
    requires WellFormed(t)
    ensures r.Err? <==> Original !in t.cols && Classe !in t.cols
    ensures Original in t.cols ==> r == Ok(t)
    ensures r.Ok? ==> WellFormed(r.value) && |r.value.rows| == |t.rows| && Original in r.value.cols
    ensures r.Ok? ==> forall c :: c in r.value.cols <==> c in t.cols || c == Original
    ensures r.Ok? && Original !in t.cols ==> forall i :: 0 <= i < |t.rows| ==>
              Get(r.value.rows[i], Original) == Get(t.rows[i], Classe)
    ensures r.Ok? ==> forall i, c :: 0 <= i < |t.rows| && c != Original ==> Get(r.value.rows[i], c) == Get(t.rows[i], c)
  {
    if Original in t.cols then Ok(t)
    else if Classe !in t.cols then Err(KeyError(Classe))
    else Ok(SetCol(t, Original, CopiaClasse))
  }

  function ColunaPadronizada(repr: Value -> string, nfd: string -> string): Row -> Value {
    (r: Row) => Padronizar(Get(r, Original), repr, nfd)
  }

  function ColunaGrupo(r: Row): Value { Str(GrupoAnatomico(Get(r, Classe))) }

  /** `padronizar_classe_terapeutica` then `criar_grupo_anatomico`: the
      class is recomputed from the backup, and the anatomical group from the
      recomputed class. */
  function Classificar(t: Table, repr: Value -> string, nfd: string -> string): (r: Table)
    requires WellFormed(t) && Original in t.cols
    ensures WellFormed(r) && |r.rows| == |t.rows|
    ensures forall c :: c in r.cols <==> c in t.cols || c == Classe || c == GrupoAnat
    ensures forall i :: 0 <= i < |t.rows| ==>
              Get(r.rows[i], Classe) == Padronizar(Get(t.rows[i], Original), repr, nfd)
              && Get(r.rows[i], GrupoAnat) == Str(GrupoAnatomico(Get(r.rows[i], Classe)))
    ensures forall i, c :: 0 <= i < |t.rows| && c != Classe && c != GrupoAnat ==> Get(r.rows[i], c) == Get(t.rows[i], c)
  {
    var p := SetCol(t, Classe, ColunaPadronizada(repr, nfd));
    SetCol(p, GrupoAnat, ColunaGrupo)
  }

  /** `processar_classificacao_terapeutica`. */
  function ProcessarClassificacao(t: Table, repr: Value -> string, nfd: string -> string): (r: Result<Table>)
    requires WellFormed(t)
    ensures r.Err? <==> Original !in t.cols && Classe !in t.cols
    ensures r.Ok? ==> Original in r.value.cols && Classe in r.value.cols && GrupoAnat in r.value.cols
  {
    match CriarBackup(t)
    case Err(e) => Err(e)
    case Ok(b) => Ok(Classificar(b, repr, nfd))
  }

  /** Re-running the stage on its own output changes nothing: the backup
      keeps the first run's source, so the class and the group are
      recomputed from the same text. */
  lemma ReexecucaoEstavel(t: Table, repr: Value -> string, nfd: string -> string)
    requires WellFormed(t) && ProcessarClassificacao(t, repr, nfd).Ok?
    ensures ProcessarClassificacao(ProcessarClassificacao(t, repr, nfd).value, repr, nfd) == ProcessarClassificacao(t, repr, nfd)
  {
    var r := ProcessarClassificacao(t, repr, nfd).value;
    var b := CriarBackup(t).value;
    assert r == Classificar(b, repr, nfd);
    var r2 := Classificar(r, repr, nfd);
    assert CriarBackup(r) == Ok(r);
    assert r2.cols == r.cols by {
      assert Classe in r.cols && GrupoAnat in r.cols;
      assert Classe in b.cols + [Classe] || Classe in b.cols;
    }
    forall i | 0 <= i < |r2.rows| ensures r2.rows[i] == r.rows[i] {
      forall c | c in r.cols ensures Get(r2.rows[i], c) == Get(r.rows[i], c) {
        if c == Classe {
          assert Get(r.rows[i], Original) == Get(b.rows[i], Original);
        } else if c == GrupoAnat {
          assert Get(r2.rows[i], Classe) == Get(r.rows[i], Classe) by {
            assert Get(r.rows[i], Original) == Get(b.rows[i], Original);
          }
        }
      }
      SameRow(r2, r, i);
    }
    assert r2.rows == r.rows;
  }
}
