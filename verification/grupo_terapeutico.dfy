/** Therapeutic groups (`grupo_terapeutico.py`): ATC codes are normalised
    and looked up in the group table, a dictionary built from its rows.
    Downloading the table and the debug exports are left out. */
module GrupoTerapeutico {
  import opened Wrappers
  import opened Text
  import opened Frame
  import AU = ApresentacaoUnica

  // ---------------------------------------------------------------------------
  // normalizar_sigla_atc
  // ---------------------------------------------------------------------------

  /** `([A-Z]\d{2}[A-Z])(\d)\b` matches at the start of `s`: a group code
      with a single digit after its subgroup letter, ending a word. */
  predicate CodigoCurto(s: string) {
    |s| >= 5 && IsAsciiUpper(s[0]) && IsDigit(s[1]) && IsDigit(s[2]) && IsAsciiUpper(s[3]) && IsDigit(s[4])
    && (|s| == 5 || !IsWordChar(s[5]))
  }

  /** `re.sub(r'([A-Z]\d{2}[A-Z])(\d)\b', r'\g<1>0\2', s)`: every such code
      gets a '0' before its last digit; scanning resumes after the code. */
  function Preencher(s: string): string
    decreases |s|
  {
    if |s| == 0 then ""
    else if CodigoCurto(s) then s[..4] + "0" + [s[4]] + Preencher(s[5..])
    else [s[0]] + Preencher(s[1..])
  }

  /** The length of the run of '0' that starts `s`. */
  function Zeros(s: string): (n: nat)
    ensures n <= |s| && (n == |s| || s[n] != '0')
    ensures forall i :: 0 <= i < n ==> s[i] == '0'
  {
    if |s| > 0 && s[0] == '0' then 1 + Zeros(s[1..]) else 0
  }

  /** `re.sub(r'0+\b', '', s)`: a run of '0' is deleted when it ends a word
      (at the end of the text or before a non-word character); a run
      followed by another word character is kept. */
  function ZerosFinais(s: string): (r: string)
    ensures |s| > 0 && s[0] != '0' ==> |r| > 0 && r[0] == s[0]
    decreases |s|
  {
    if |s| == 0 then ""
    else if s[0] == '0' then
      var n := Zeros(s);
      if n == |s| || !IsWordChar(s[n]) then ZerosFinais(s[n..]) else s[..n] + ZerosFinais(s[n..])
    else [s[0]] + ZerosFinais(s[1..])
  }

  /** No word of `s` ends in '0'. */
  predicate SemZeroFinal(s: string) {
    forall j :: 0 <= j < |s| && s[j] == '0' ==> j + 1 < |s| && IsWordChar(s[j + 1])
  }

  /** `normalizar_sigla_atc`: a value that is not text comes back as it
      is; text is stripped, upper-cased, its short codes padded, and the
      zeros that end a word removed. */
  function NormalizarSigla(v: Value): (r: Value)
    ensures !v.Str? ==> r == v
    ensures v.Str? ==> r.Str? && SemZeroFinal(r.s)
  {
    if !v.Str? then v
    else
      var s := ZerosFinais(Preencher(Upper(Strip(v.s))));
      ZerosFinaisSemZeroFinal(Preencher(Upper(Strip(v.s))));
      Str(s)
  }

  /** Deleting the zeros that end words leaves no such zero. */
  lemma {:induction false} ZerosFinaisSemZeroFinal(s: string)
    ensures SemZeroFinal(ZerosFinais(s))
    decreases |s|
  {
    if |s| > 0 {
      if s[0] == '0' {
        var n := Zeros(s);
        ZerosFinaisSemZeroFinal(s[n..]);
        if !(n == |s| || !IsWordChar(s[n])) {
          var rest := ZerosFinais(s[n..]);
          var r := s[..n] + rest;
          assert rest[0] == s[n];
          forall j | 0 <= j < |r| && r[j] == '0' ensures j + 1 < |r| && IsWordChar(r[j + 1]) {
            if j + 1 < n {
              assert r[j + 1] == '0';
            } else if j + 1 == n {
              assert r[j + 1] == rest[0];
            } else {
              assert r[j] == rest[j - n] && r[j + 1] == rest[j + 1 - n];
            }
          }
        }
      } else {
        ZerosFinaisSemZeroFinal(s[1..]);
        var rest := ZerosFinais(s[1..]);
        var r := [s[0]] + rest;
        forall j | 0 <= j < |r| && r[j] == '0' ensures j + 1 < |r| && IsWordChar(r[j + 1]) {
          assert r[j] == rest[j - 1] && (j + 1 < |r| ==> r[j + 1] == rest[j]);
        }
      }
    }
  }

  /** Text without a word-ending zero is left as it is. */
  lemma {:induction false} ZerosFinaisNada(s: string)
    requires SemZeroFinal(s)
    ensures ZerosFinais(s) == s
    decreases |s|
  {
    if |s| > 0 {
      var n := if s[0] == '0' then Zeros(s) else 1;
      assert SemZeroFinal(s[n..]) by {
        forall j | 0 <= j < |s[n..]| && s[n..][j] == '0' ensures j + 1 < |s[n..]| && IsWordChar(s[n..][j + 1]) {
          assert s[n + j] == '0';
        }
      }
      ZerosFinaisNada(s[n..]);
      if s[0] == '0' {
        assert s[n - 1] == '0';
      } else {
        assert s[1..] == s[n..];
      }
      assert s == s[..n] + s[n..];
    }
  }

  /** Removing word-ending zeros twice removes them once. */
  lemma ZerosFinaisIdempotente(s: string)
    ensures ZerosFinais(ZerosFinais(s)) == ZerosFinais(s)
  {
    ZerosFinaisSemZeroFinal(s);
    ZerosFinaisNada(ZerosFinais(s));
  }

  lemma RemoveZerosDeZeros(z: string)
    requires forall i :: 0 <= i < |z| ==> z[i] == '0'
    ensures RemoveChar(z, '0') == ""
  {
  }

  /** The padding only inserts zeros: every other character stays, in
      order. */
  lemma {:induction false} PreencherSoZeros(s: string)
    ensures RemoveChar(Preencher(s), '0') == RemoveChar(s, '0')
    decreases |s|
  {
    if |s| > 0 {
      if CodigoCurto(s) {
        PreencherSoZeros(s[5..]);
        assert Preencher(s) == s[..4] + "0" + ([s[4]] + Preencher(s[5..]));
        assert s == s[..4] + ([s[4]] + s[5..]);
        ZeroInserido(s[..4], s[4], s[5..], Preencher(s[5..]));
      } else {
        PreencherSoZeros(s[1..]);
        assert s == [s[0]] + s[1..];
        MesmaCabeca(s[0], s[1..], Preencher(s[1..]));
      }
    }
  }

  /** A zero inserted after `a`, before texts equal apart from their zeros. */
  lemma ZeroInserido(a: string, c: char, resto: string, novo: string)
    requires RemoveChar(novo, '0') == RemoveChar(resto, '0')
    ensures RemoveChar(a + "0" + ([c] + novo), '0') == RemoveChar(a + ([c] + resto), '0')
  {
    InsereZero(a, [c] + novo);
    MesmaCabeca(c, resto, novo);
    RemoveCharAppend(a, [c] + novo, '0');
    RemoveCharAppend(a, [c] + resto, '0');
  }

  lemma InsereZero(a: string, b: string)
    ensures RemoveChar(a + "0" + b, '0') == RemoveChar(a, '0') + RemoveChar(b, '0')
  {
    RemoveCharAppend(a + "0", b, '0');
    RemoveCharAppend(a, "0", '0');
  }

  /** The zero removal only deletes zeros. */
  lemma {:induction false} ZerosFinaisSoZeros(s: string)
    ensures RemoveChar(ZerosFinais(s), '0') == RemoveChar(s, '0')
    decreases |s|
  {
    if |s| > 0 {
      if s[0] == '0' {
        ZerosFinaisSoZeros(s[Zeros(s)..]);
        RamoDeZeros(s);
      } else {
        ZerosFinaisSoZeros(s[1..]);
        assert s == [s[0]] + s[1..];
        MesmaCabeca(s[0], s[1..], ZerosFinais(s[1..]));
      }
    }
  }

  /** The step of `ZerosFinaisSoZeros` for a text opening with a zero run. */
  lemma RamoDeZeros(s: string)
    requires |s| > 0 && s[0] == '0'
    requires RemoveChar(ZerosFinais(s[Zeros(s)..]), '0') == RemoveChar(s[Zeros(s)..], '0')
    ensures RemoveChar(ZerosFinais(s), '0') == RemoveChar(s, '0')
  {
    var n := Zeros(s);
    var k: string := if n == |s| || !IsWordChar(s[n]) then "" else s[..n];
    assert ZerosFinais(s) == k + ZerosFinais(s[n..]);
    RunDeZeros(s, n, k, ZerosFinais(s[n..]), ZerosFinais(s));
  }

  /** The same over plain texts: `s` opens with `n` zeros, and `r` is `zf`
      after either nothing or those zeros. */
  lemma RunDeZeros(s: string, n: nat, k: string, zf: string, r: string)
    requires n <= |s| && forall i :: 0 <= i < n ==> s[i] == '0'
    requires k == "" || k == s[..n]
    requires r == k + zf && RemoveChar(zf, '0') == RemoveChar(s[n..], '0')
    ensures RemoveChar(r, '0') == RemoveChar(s, '0')
  {
    assert s == s[..n] + s[n..];
    AntesZeros(s[..n], s[n..]);
    AntesZeros(k, zf);
  }

  /** Zeros in front change nothing once zeros are removed. */
  lemma AntesZeros(z: string, x: string)
    requires forall i :: 0 <= i < |z| ==> z[i] == '0'
    ensures RemoveChar(z + x, '0') == RemoveChar(x, '0')
  {
    RemoveZerosDeZeros(z);
    RemoveCharAppend(z, x, '0');
  }

  /** The same character before two texts equal apart from their zeros. */
  lemma MesmaCabeca(c: char, resto: string, novo: string)
    requires RemoveChar(novo, '0') == RemoveChar(resto, '0')
    ensures RemoveChar([c] + novo, '0') == RemoveChar([c] + resto, '0')
  {
    RemoveCharAppend([c], novo, '0');
    RemoveCharAppend([c], resto, '0');
  }

  /** Normalisation changes a code only in its zeros: apart from them, the
      result is the stripped, upper-cased input. */
  lemma NormalizarSoZeros(v: Value)
    requires v.Str?
    ensures RemoveChar(NormalizarSigla(v).s, '0') == RemoveChar(Upper(Strip(v.s)), '0')
  {
    PreencherSoZeros(Upper(Strip(v.s)));
    ZerosFinaisSoZeros(Preencher(Upper(Strip(v.s))));
  }

  /** A stripped upper-case text is its own `strip().upper()`. */
  lemma Pronta(s: string)
    requires forall i :: 0 <= i < |s| ==> !IsSpace(s[i]) && UpperChar(s[i]) == s[i]
    ensures Upper(Strip(s)) == s
  {
    StripNoSpace(s);
  }

  /** First example of the documentation: a single digit is padded. */
  lemma ExemploA02B4()
    ensures NormalizarSigla(Str("A02B4")) == Str("A02B04")
  {
    Pronta("A02B4");
    assert Preencher("A02B4") == "A02B04";
    assert ZerosFinais("4") == "4";
    assert ZerosFinais("04") == "04";
    assert ZerosFinais("B04") == "B04";
    assert ZerosFinais("2B04") == "2B04";
    assert Zeros("02B04") == 1;
    assert ZerosFinais("02B04") == "02B04";
  }

  /** Second example of the documentation. */
  lemma ExemploN05A9()
    ensures NormalizarSigla(Str("N05A9")) == Str("N05A09")
  {
    Pronta("N05A9");
    assert Preencher("N05A9") == "N05A09";
    assert ZerosFinais("9") == "9";
    assert ZerosFinais("09") == "09";
    assert ZerosFinais("A09") == "A09";
    assert ZerosFinais("5A09") == "5A09";
    assert Zeros("05A09") == 1;
    assert ZerosFinais("05A09") == "05A09";
  }

  /** Third example of the documentation: the padded zero and the final
      zero together end the word and are removed. */
  lemma ExemploA03A0()
    ensures NormalizarSigla(Str("A03A0")) == Str("A03A")
  {
    Pronta("A03A0");
    assert Preencher("A03A0") == "A03A00";
    assert Zeros("00") == 2;
    assert ZerosFinais("00") == "";
    assert ZerosFinais("A00") == "A";
    assert ZerosFinais("3A00") == "3A";
    assert Zeros("03A00") == 1;
    assert ZerosFinais("03A00") == "03A";
  }

  // ---------------------------------------------------------------------------
  // mapear_grupos_terapeuticos
  // ---------------------------------------------------------------------------

  /** `dict(zip(ks, vs))` over pairs: inserting in order, so a later pair
      with the same key replaces an earlier one. */
  function Dicionario<K(==,!new), V>(pares: seq<(K, V)>): (d: map<K, V>)
    ensures forall k :: k in d <==> exists i :: 0 <= i < |pares| && pares[i].0 == k
  {
    if |pares| == 0 then map[]
    else
      var init := pares[..|pares| - 1];
      var d := Dicionario(init);
      assert forall i :: 0 <= i < |init| ==> init[i] == pares[i];
      d[pares[|pares| - 1].0 := pares[|pares| - 1].1]
  }

  /** The value a key maps to is the one of its last pair. */
  lemma {:induction false} DicionarioUltimo<K(!new), V>(pares: seq<(K, V)>, j: nat)
    requires j < |pares|
    requires forall j' :: j < j' < |pares| ==> pares[j'].0 != pares[j].0
    ensures pares[j].0 in Dicionario(pares) && Dicionario(pares)[pares[j].0] == pares[j].1
    decreases |pares|
  {
    if j < |pares| - 1 {
      var init := pares[..|pares| - 1];
      assert init[j] == pares[j];
      DicionarioUltimo(init, j);
    }
  }

  const Classe := "CLASSE TERAPEUTICA"
  const ClasseAcento := "CLASSE TERAPÊUTICA"
  const Normalizada := "CLASSE_TERAPEUTICA_NORMALIZADA"
  const Consolidada := "CLASSE_TERAPEUTICA_CONSOLIDADA"
  const Ajustada := "CLASSE_TERAPEUTICA_AJUSTADA"
  const Grupo := "GRUPO TERAPEUTICO"

  /** The pairs (consolidated class, column `c`) of the group table. */
  function Pares(grupos: Table, c: string): seq<(Value, Value)> {
    seq(|grupos.rows|, i requires 0 <= i < |grupos.rows| => (Get(grupos.rows[i], Consolidada), Get(grupos.rows[i], c)))
  }

  /** `Series.map(dict)`: the value of a key the dictionary has, missing
      otherwise. */
  function Buscar(d: map<Value, Value>, k: Value): Value {
    if k in d then d[k] else Null
  }

  function Consulta(col: string, d: map<Value, Value>): Row -> Value {
    (r: Row) => Buscar(d, NormalizarSigla(Get(r, col)))
  }

  /** The renaming of the accented class column. */
  function SemAcento(c: string): string { if c == ClasseAcento then Classe else c }

  /** The frame with its class column under the plain name: the accented
      name is renamed when the frame has it. Both names at once give two
      columns of one name, which `.map` cannot be applied to; neither
      name is a `KeyError`. */
  function ComClasse(t: Table): (r: Result<Table>)
    requires WellFormed(t)
    ensures r.Err? <==> (ClasseAcento in t.cols) == (Classe in t.cols)
    ensures r.Ok? ==> WellFormed(r.value) && |r.value.rows| == |t.rows| && Classe in r.value.cols && ClasseAcento !in r.value.cols
    ensures r.Ok? ==> forall i, c :: 0 <= i < |t.rows| && c in t.cols ==> Get(r.value.rows[i], SemAcento(c)) == Get(t.rows[i], c)
    ensures r.Ok? ==> forall c :: c in r.value.cols <==> (c in t.cols && c != ClasseAcento) || c == Classe
  {
    if ClasseAcento in t.cols && Classe in t.cols then Err(ValueError("Cannot set a DataFrame with multiple columns to the single column"))
    else if ClasseAcento in t.cols then
      assert AU.Injetiva(t.cols, SemAcento);
      var r := AU.Renomear(t, SemAcento);
      assert forall c :: c in r.cols ==> exists k :: 0 <= k < |t.cols| && r.cols[k] == c;
      Ok(r)
    else if Classe in t.cols then Ok(t)
    else Err(KeyError(Classe))
  }

  function EhNormalizada(c: string): bool { c == Normalizada }

  /** The two lookups of `mapear_grupos_terapeuticos`: every row gets the
      adjusted class and the group of its normalised code, looked up in the
      dictionaries built from the group table (missing when the code is not
      a key); every other cell stays. */
  function Atribuir(t: Table, grupos: Table): (r: Table)
    requires WellFormed(t) && Classe in t.cols
    ensures WellFormed(r) && |r.rows| == |t.rows| && Ajustada in r.cols && Grupo in r.cols
    ensures forall c :: c in r.cols <==> c in t.cols || c == Ajustada || c == Grupo
    ensures forall i, c :: 0 <= i < |t.rows| && c != Ajustada && c != Grupo ==>
              Get(r.rows[i], c) == Get(t.rows[i], c)
    ensures forall i :: 0 <= i < |t.rows| ==>
              var k := NormalizarSigla(Get(t.rows[i], Classe));
              Get(r.rows[i], Ajustada) == Buscar(Dicionario(Pares(grupos, Ajustada)), k)
              && Get(r.rows[i], Grupo) == Buscar(Dicionario(Pares(grupos, Grupo)), k)
  {
    var a := SetCol(t, Ajustada, Consulta(Classe, Dicionario(Pares(grupos, Ajustada))));
    SetCol(a, Grupo, Consulta(Classe, Dicionario(Pares(grupos, Grupo))))
  }

  /** `mapear_grupos_terapeuticos` up to its final rename: the lookups of
      `Atribuir`, then the helper column of normalised codes is dropped;
      every other cell stays. */
  function MapearGrupos(t: Table, grupos: Table): (r: Table)
    requires WellFormed(t) && Classe in t.cols
    ensures WellFormed(r) && |r.rows| == |t.rows|
    ensures Ajustada in r.cols && Grupo in r.cols && Normalizada !in r.cols
    ensures forall c :: c in r.cols <==> (c in t.cols && c != Normalizada) || c == Ajustada || c == Grupo
    ensures forall i, c :: 0 <= i < |t.rows| && c != Ajustada && c != Grupo && c != Normalizada ==>
              Get(r.rows[i], c) == Get(t.rows[i], c)
    ensures forall i :: 0 <= i < |t.rows| ==>
              var k := NormalizarSigla(Get(t.rows[i], Classe));
              Get(r.rows[i], Ajustada) == Buscar(Dicionario(Pares(grupos, Ajustada)), k)
              && Get(r.rows[i], Grupo) == Buscar(Dicionario(Pares(grupos, Grupo)), k)
  {
    var g := Atribuir(t, grupos);
    var r := DropCols(g, EhNormalizada);
    DropGet(g, EhNormalizada);
    r
  }

  /** The stage on a frame: the class column under its plain name, then
      the lookups. */
  function ProcessarGrupos(t: Table, grupos: Table): (r: Result<Table>)
    requires WellFormed(t)
    ensures r.Err? <==> ComClasse(t).Err?
    ensures r.Ok? ==> |r.value.rows| == |t.rows| && ClasseAcento !in r.value.cols && Normalizada !in r.value.cols
  {
    match ComClasse(t)
    case Err(e) => Err(e)
    case Ok(u) => Ok(MapearGrupos(u, grupos))
  }

  /** A row whose code is the consolidated class of some group row gets
      the adjusted class and group of the last such group row. */
  lemma MapearUltimo(t: Table, grupos: Table, i: nat, j: nat)
    requires WellFormed(t) && Classe in t.cols && i < |t.rows| && j < |grupos.rows|
    requires NormalizarSigla(Get(t.rows[i], Classe)) == Get(grupos.rows[j], Consolidada)
    requires forall j' :: j < j' < |grupos.rows| ==> Get(grupos.rows[j'], Consolidada) != Get(grupos.rows[j], Consolidada)
    ensures Get(MapearGrupos(t, grupos).rows[i], Ajustada) == Get(grupos.rows[j], Ajustada)
    ensures Get(MapearGrupos(t, grupos).rows[i], Grupo) == Get(grupos.rows[j], Grupo)
  {
    DicionarioUltimo(Pares(grupos, Ajustada), j);
    DicionarioUltimo(Pares(grupos, Grupo), j);
  }

  /** A row whose code is no consolidated class gets missing values. */
  lemma MapearSemCorrespondencia(t: Table, grupos: Table, i: nat)
    requires WellFormed(t) && Classe in t.cols && i < |t.rows|
    requires forall j :: 0 <= j < |grupos.rows| ==> Get(grupos.rows[j], Consolidada) != NormalizarSigla(Get(t.rows[i], Classe))
    ensures Get(MapearGrupos(t, grupos).rows[i], Ajustada) == Null
    ensures Get(MapearGrupos(t, grupos).rows[i], Grupo) == Null
  {
  }
}
