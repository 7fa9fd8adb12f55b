/** The active-ingredient column of the regulator base
    (`pipelines/anvisa_base/src/modules/principio_ativo.py`): a backup of
    the original column, an initial normalisation recomputed from it, the
    correction dictionary applied longest key first, the final form of
    associations, the imputation of unspecified values from the most common
    value of the same product and presentation, and the pairing rule of the
    similarity suggestions. */
module PrincipioAtivo {
  import opened Wrappers
  import opened Seqs
  import opened Text
  import opened Scan
  import opened Frame
  import opened Ordem
  import opened Ordenacao
  import opened Produto
  import opened CorrecoesOrtograficas
  import AU = ApresentacaoUnica

  const PA := "PRINCIPIO ATIVO"
  const Backup := "PRINCIPIO_ATIVO_ORIGINAL"
  const ColApresentacao := "APRESENTACAO"

  // ---------------------------------------------------------------------------
  // finalizar_associacoes
  // ---------------------------------------------------------------------------

  /** `finalizar_associacoes` on text: text without " + " comes back as it
      is; otherwise its stripped non-empty components between the '+'
      signs, without repetition, in increasing order (case counts), joined
      by " + ". */
  function FinalizarTexto(s: string): (r: string)
    ensures !Contains(s, " + ") ==> r == s
    ensures Contains(s, " + ") ==>
              exists cs :: r == Join(cs, " + ") && Sorted(cs) && (forall x :: x in cs <==> x in Partes(s))
  {
    if !Contains(s, " + ") then s
    else
      var cs := SortedSet(Partes(s));
      assert forall x :: x in cs <==> x in Elems(cs);
      assert forall x :: x in Partes(s) <==> x in Elems(Partes(s));
      Join(cs, " + ")
  }

  /** Finalising finalised text changes nothing: the components are already
      distinct and in order, and a single component has no " + " left. */
  lemma FinalizarIdempotente(s: string)
    ensures FinalizarTexto(FinalizarTexto(s)) == FinalizarTexto(s)
  {
    if Contains(s, " + ") {
      var cs := SortedSet(Partes(s));
      OrdenadasSaoPartes(s);
      var r := Join(cs, " + ");
      if |cs| == 0 {
        assert r == "";
      } else if |cs| == 1 {
        assert r == cs[0];
        SemMaisSemSeparador(cs[0]);
      } else {
        JuncaoTemSeparador(cs);
        PartesJuncao(cs);
        SortedSetDeOrdenada(cs);
        FinalizarFixo(r, cs);
      }
    }
  }

  lemma FinalizarFixo(r: string, cs: seq<string>)
    requires r == Join(cs, " + ") && Contains(r, " + ") && Partes(r) == cs && SortedSet(cs) == cs
    ensures FinalizarTexto(r) == r
  {
  }

  /** The ordered distinct components are components. */
  lemma OrdenadasSaoPartes(s: string)
    ensures forall k :: 0 <= k < |SortedSet(Partes(s))| ==> Parte(SortedSet(Partes(s))[k])
  {
    var ps := Partes(s);
    var cs := SortedSet(ps);
    forall k | 0 <= k < |cs| ensures Parte(cs[k]) {
      assert cs[k] in Elems(cs);
      var j :| 0 <= j < |ps| && ps[j] == cs[k];
    }
  }

  /** A sorted list is its own `sorted(set(.))`. */
  lemma SortedSetDeOrdenada(cs: seq<string>)
    requires Sorted(cs)
    ensures SortedSet(cs) == cs
  {
    SortedCanonical(SortedSet(cs), cs);
  }

  lemma SemMaisSemSeparador(x: string)
    requires Parte(x)
    ensures !Contains(x, " + ")
  {
    forall i | 0 <= i <= |x| - 3 ensures !OccursAt(x, " + ", i) {
      assert SemMais(x[i + 1]);
      assert x[i..i + 3][1] == x[i + 1];
    }
  }

  lemma JuncaoTemSeparador(cs: seq<string>)
    requires |cs| >= 2
    ensures Contains(Join(cs, " + "), " + ")
  {
    var j := Join(cs, " + ");
    var n := |cs[0]|;
    assert j == cs[0] + " + " + Join(cs[1..], " + ");
    assert j[n..n + 3] == " + ";
    assert OccursAt(j, " + ", n);
  }

  // ---------------------------------------------------------------------------
  // criar_backup_e_normalizar
  // ---------------------------------------------------------------------------

  /** The renaming of accented column names. */
  function SemAcentoNome(c: string): string {
    if c == "PRINCÍPIO ATIVO" then PA
    else if c == "LABORATÓRIO" then "LABORATORIO"
    else if c == "APRESENTAÇÃO" then ColApresentacao
    else c
  }

  /** The initial normalisation of one backup cell: its text stripped,
      upper-cased and with every ';' turned into " + "; the texts "NAN"
      and "NONE" become missing. */
  function NormalizarInicial(v: Value, repr: Value -> string): (r: Value)
    ensures r.Null? || r.Str?
    ensures r.Str? ==> IsUpperText(r.s) && ';' !in r.s && r.s != "NAN" && r.s != "NONE"
  {
    var u := Upper(Strip(Texto(v, repr)));
    UpperIsUpper(Strip(Texto(v, repr)));
    var s := TrocarPontoEVirgula(u);
    if s == "NAN" || s == "NONE" then Null else Str(s)
  }

  /** Text that is already stripped, upper-case and free of ';' keeps its
      value; the spellings of a missing value become missing. */
  lemma NormalizarInicialFixo(s: string, repr: Value -> string)
    requires Aparado(s) && IsUpperText(s) && ';' !in s
    ensures NormalizarInicial(Str(s), repr) == if s == "NAN" || s == "NONE" then Null else Str(s)
  {
    StripAparado(s);
    assert Upper(s) == s;
    SemPontoEVirgula(s);
  }

  lemma StripAparado(s: string)
    requires Aparado(s)
    ensures Strip(s) == s
  {
    if |s| > 0 {
      assert TrimLeftSp(s) == s;
      assert TrimRightSp(s) == s;
    }
  }

  function CopiaPA(r: Row): Value { Get(r, PA) }

  function ColunaNormalizada(repr: Value -> string): Row -> Value {
    (r: Row) => NormalizarInicial(Get(r, Backup), repr)
  }

  /** The backup and the normalisation on a frame whose names are already
      unaccented: without the backup, it is made from the ingredient column
      (which must then exist); the ingredient column is always recomputed
      from the backup, so running the step again gives the same frame. */
  function CriarBackup(t: Table, repr: Value -> string): (r: Result<Table>)
    requires WellFormed(t)
    ensures r.Err? <==> Backup !in t.cols && PA !in t.cols
    ensures r.Ok? ==> WellFormed(r.value) && |r.value.rows| == |t.rows|
    ensures r.Ok? ==> forall c :: c in r.value.cols <==> c in t.cols || c == Backup || c == PA
    ensures r.Ok? ==> forall i :: 0 <= i < |t.rows| ==>
              Get(r.value.rows[i], Backup) == (if Backup in t.cols then Get(t.rows[i], Backup) else Get(t.rows[i], PA))
    ensures r.Ok? ==> forall i :: 0 <= i < |t.rows| ==>
              Get(r.value.rows[i], PA) == NormalizarInicial(Get(r.value.rows[i], Backup), repr)
    ensures r.Ok? ==> forall i, c :: 0 <= i < |t.rows| && c != Backup && c != PA ==>
              Get(r.value.rows[i], c) == Get(t.rows[i], c)
  {
    if Backup !in t.cols && PA !in t.cols then Err(KeyError(PA))
    else
      var u := if Backup in t.cols then t else SetCol(t, Backup, CopiaPA);
      var v := SetCol(u, PA, ColunaNormalizada(repr));
      assert forall i :: 0 <= i < |t.rows| ==> Get(v.rows[i], Backup) == Get(u.rows[i], Backup);
      Ok(v)
  }

  /** Running the step on its own output gives that output again. */
  lemma CriarBackupReexecutavel(t: Table, repr: Value -> string)
    requires WellFormed(t) && CriarBackup(t, repr).Ok?
    ensures CriarBackup(CriarBackup(t, repr).value, repr) == CriarBackup(t, repr)
  {
    var r := CriarBackup(t, repr).value;
    var r2 := CriarBackup(r, repr).value;
    assert r2.cols == r.cols;
    forall i | 0 <= i < |r2.rows| ensures r2.rows[i] == r.rows[i] {
      forall c | c in r.cols ensures Get(r2.rows[i], c) == Get(r.rows[i], c) {
      }
      SameRow(r2, r, i);
    }
    assert r2.rows == r.rows;
  }

  /** `criar_backup_e_normalizar`: the accented names are renamed, then the
      backup and the normalisation. A frame holding a name both with and
      without its accent is outside the model (the rename would give two
      columns of one name). */
  function CriarBackupENormalizar(t: Table, repr: Value -> string): (r: Result<Table>)
    requires WellFormed(t) && AU.Injetiva(t.cols, SemAcentoNome)
    ensures r.Err? <==> Backup !in t.cols && PA !in t.cols && "PRINCÍPIO ATIVO" !in t.cols
    ensures r.Ok? ==> WellFormed(r.value) && |r.value.rows| == |t.rows|
    ensures r.Ok? ==> Backup in r.value.cols && PA in r.value.cols
    ensures r.Ok? ==> forall k :: 0 <= k < |t.cols| ==> SemAcentoNome(t.cols[k]) in r.value.cols
    ensures r.Ok? ==> forall i :: 0 <= i < |t.rows| ==>
              Get(r.value.rows[i], PA) == NormalizarInicial(Get(r.value.rows[i], Backup), repr)
  {
    var u := AU.Renomear(t, SemAcentoNome);
    RenomeadasPA(t, u);
    CriarBackup(u, repr)
  }

  /** After the rename the ingredient column exists exactly when it existed
      with or without its accent, and the backup exactly when it existed. */
  lemma RenomeadasPA(t: Table, u: Table)
    requires WellFormed(t) && AU.Injetiva(t.cols, SemAcentoNome) && u == AU.Renomear(t, SemAcentoNome)
    ensures PA in u.cols <==> PA in t.cols || "PRINCÍPIO ATIVO" in t.cols
    ensures Backup in u.cols <==> Backup in t.cols
  {
    forall c | c in u.cols ensures exists k :: 0 <= k < |t.cols| && SemAcentoNome(t.cols[k]) == c {
      var k :| 0 <= k < |u.cols| && u.cols[k] == c;
    }
    if PA in t.cols {
      var k :| 0 <= k < |t.cols| && t.cols[k] == PA;
      assert u.cols[k] == PA;
    }
    if "PRINCÍPIO ATIVO" in t.cols {
      var k :| 0 <= k < |t.cols| && t.cols[k] == "PRINCÍPIO ATIVO";
      assert u.cols[k] == PA;
    }
    if Backup in t.cols {
      var k :| 0 <= k < |t.cols| && t.cols[k] == Backup;
      assert u.cols[k] == Backup;
    }
  }

  // ---------------------------------------------------------------------------
  // aplicar_correcoes_dicionario
  // ---------------------------------------------------------------------------

  /** The sort key of a rule: the length of its wrong spelling, negated so
      that the longest comes first. */
  function ChaveTamanho(regra: (string, string)): Chave { Chave("", -|regra.0|, 0) }

  /** `sorted(dic.items(), key=len(errado), reverse=True)`: the same rules,
      longest wrong spelling first. */
  function OrdenarRegras(dic: seq<(string, string)>): (r: seq<(string, string)>)
    ensures multiset(r) == multiset(dic) && |r| == |dic|
    ensures forall i, j :: 0 <= i < j < |r| ==> |r[i].0| >= |r[j].0|
  {
    var r := Ordenar(dic, ChaveTamanho);
    assert forall i, j :: 0 <= i < j < |r| ==> !Menor(ChaveTamanho(r[j]), ChaveTamanho(r[i]));
    r
  }

  /** Python's sort is stable, also in reverse: the rules whose wrong
      spelling has one length keep the dictionary's order, and rules already
      longest first are not moved. */
  lemma RegrasEstaveis(dic: seq<(string, string)>, n: int)
    ensures ComChave(OrdenarRegras(dic), ChaveTamanho, Chave("", -n, 0)) == ComChave(dic, ChaveTamanho, Chave("", -n, 0))
    ensures (forall i, j :: 0 <= i < j < |dic| ==> |dic[i].0| >= |dic[j].0|) ==> OrdenarRegras(dic) == dic
  {
    OrdenarEstavel(dic, ChaveTamanho, Chave("", -n, 0));
    if forall i, j :: 0 <= i < j < |dic| ==> |dic[i].0| >= |dic[j].0| {
      assert OrdenadaPor(dic, ChaveTamanho);
      OrdenarOrdenada(dic, ChaveTamanho);
    }
  }

  /** The correction loop: every wrong spelling, as a whole word and
      ignoring case, becomes its correction, longest wrong spelling first. */
  function CorrigirTexto(s: string, dic: seq<(string, string)>): string {
    Corrigir(s, OrdenarRegras(dic))
  }

  // `\s+PORT\s+344\s*/?\s*98\s+LISTA\s+[A-Z]\s*\d+`. Every quantifier is
  // followed by a character it cannot take, so the greedy match is the
  // only one.
  function PortariaLista(s: string, i: nat): nat {
    var j1 := Seguido(s, i, true, "PORT");
    var j2 := if j1 < 0 then -1 else Seguido(s, j1, true, "344");
    if j2 < 0 then 0
    else
      var j3 := j2 + SpaceRun(s, j2);
      var j4 := if j3 < |s| && s[j3] == '/' then j3 + 1 else j3;
      var j5 := Seguido(s, j4, false, "98");
      var j6 := if j5 < 0 then -1 else Seguido(s, j5, true, "LISTA");
      if j6 < 0 || SpaceRun(s, j6) == 0 then 0
      else
        var j7 := j6 + SpaceRun(s, j6);
        if j7 < |s| && IsAsciiUpper(s[j7]) then
          var j8 := j7 + 1 + SpaceRun(s, j7 + 1);
          var d := CharRun(s, j8, Digito);
          if d == 0 then 0 else j8 + d - i
        else 0
  }

  /** `\s+k` (or `\s*k` when the space is optional) from `j`: where the
      literal ends, or -1 when the text there differs. */
  function Seguido(s: string, j: nat, espaco: bool, k: string): (r: int)
    ensures r < 0 || j + |k| <= r <= |s|
  {
    var w := SpaceRun(s, j);
    if espaco && w == 0 then -1 else Depois(s, j + w, k)
  }

  /** `\s+A EXCLUIR$`. */
  function AExcluir(s: string, i: nat): nat {
    var w := SpaceRun(s, i);
    var j := Depois(s, i + w, "A EXCLUIR");
    if w > 0 && j >= 0 && Fim(s, j) then j - i else 0
  }

  /** The final cleanup: the regulation note, a final exclusion note and a
      leading number are removed, whitespace runs become one space and the
      ends are stripped. The result has no whitespace at its ends and no two
      whitespace characters in a row. */
  function LimpezaFinal(s: string): (r: string)
    ensures Aparado(r) && SemEspacoDuplo(r)
  {
    var x := Delete(Delete(Delete(s, PortariaLista), AExcluir), NumeroInicial);
    var z := Sub(x, EspacosDuplos, UmEspaco);
    EncolherSemDuplo(x, 0);
    StripSemDuplo(z);
    Strip(z)
  }

  lemma StripSemDuplo(z: string)
    requires SemEspacoDuplo(z)
    ensures SemEspacoDuplo(Strip(z))
  {
    var a, b := StripTrecho(z);
    TrechoSemDuplo(z, a, b);
  }

  /** One cell of the step: its text (`astype(str)`) corrected, cleaned and
      finalised; an empty result becomes missing. A text cell comes out
      non-empty and already in final form. */
  function CelulaDicionario(v: Value, dic: seq<(string, string)>, repr: Value -> string): (r: Value)
    ensures r.Null? || r.Str?
    ensures r.Str? ==> |r.s| > 0 && FinalizarTexto(r.s) == r.s
    ensures r.Null? <==> FinalizarTexto(LimpezaFinal(CorrigirTexto(Texto(v, repr), dic))) == ""
    ensures r.Str? && !Contains(LimpezaFinal(CorrigirTexto(Texto(v, repr), dic)), " + ") ==> Aparado(r.s) && SemEspacoDuplo(r.s)
  {
    var limpo := LimpezaFinal(CorrigirTexto(Texto(v, repr), dic));
    var f := FinalizarTexto(limpo);
    FinalizarIdempotente(limpo);
    if f == "" then Null else Str(f)
  }

  function ColunaDicionario(dic: seq<(string, string)>, repr: Value -> string): Row -> Value {
    (r: Row) => CelulaDicionario(Get(r, PA), dic, repr)
  }

  /** `aplicar_correcoes_dicionario`: every ingredient cell goes through the
      correction, the cleanup and the finalisation; the frame must have the
      column. Nothing else changes, and no cell is left as empty text. */
  function AplicarCorrecoesDicionario(t: Table, dic: seq<(string, string)>, repr: Value -> string): (r: Result<Table>)
    requires WellFormed(t)
    ensures r.Err? <==> PA !in t.cols
    ensures r.Ok? ==> WellFormed(r.value) && r.value.cols == t.cols && |r.value.rows| == |t.rows|
    ensures r.Ok? ==> forall i :: 0 <= i < |t.rows| ==>
              Get(r.value.rows[i], PA) == CelulaDicionario(Get(t.rows[i], PA), dic, repr)
    ensures r.Ok? ==> forall i :: 0 <= i < |t.rows| ==>
              Get(r.value.rows[i], PA) == Null ||
              (Get(r.value.rows[i], PA).Str? && |Get(r.value.rows[i], PA).s| > 0 &&
               FinalizarTexto(Get(r.value.rows[i], PA).s) == Get(r.value.rows[i], PA).s)
    ensures r.Ok? ==> forall i, c :: 0 <= i < |t.rows| && c != PA ==> Get(r.value.rows[i], c) == Get(t.rows[i], c)
  {
    if PA !in t.cols then Err(KeyError(PA))
    else Ok(SetCol(t, PA, ColunaDicionario(dic, repr)))
  }

  // ---------------------------------------------------------------------------
  // preencher_nao_especificado
  // ---------------------------------------------------------------------------

  /** A total order on cells, the order in which `Series.mode` lists equally
      common values: text by code points, numbers by value, false before
      true; across kinds an arbitrary fixed rank. */
  function Posto(v: Value): nat {
    match v
    case Null => 0
    case Flag(_) => 1
    case Num(_) => 2
    case Str(_) => 3
  }

  predicate ValorAntes(a: Value, b: Value) {
    if Posto(a) != Posto(b) then Posto(a) < Posto(b)
    else if a.Str? then StrLt(a.s, b.s)
    else if a.Num? then a.x < b.x
    else if a.Flag? then !a.b && b.b
    else false
  }

  lemma ValorAntesIrreflexivo(a: Value)
    ensures !ValorAntes(a, a)
  {
    if a.Str? {
      StrLtIrreflexive(a.s);
    }
  }

  lemma ValorAntesTransitivo(a: Value, b: Value, c: Value)
    requires ValorAntes(a, b) && ValorAntes(b, c)
    ensures ValorAntes(a, c)
  {
    if a.Str? && b.Str? && c.Str? {
      StrLtTransitive(a.s, b.s, c.s);
    }
  }

  lemma ValorAntesTotal(a: Value, b: Value)
    requires a != b
    ensures ValorAntes(a, b) || ValorAntes(b, a)
  {
    if a.Str? && b.Str? {
      StrLtTotal(a.s, b.s);
    }
  }

  function Igual(x: Value): Value -> bool { (y: Value) => y == x }

  /** How many times `x` occurs in `vs`. */
  function Vezes(vs: seq<Value>, x: Value): nat { Count(vs, Igual(x)) }

  /** `m` is `vs.mode()[0]`: a most common value of `vs`, the first in the
      value order among the equally common. */
  predicate EhModa(vs: seq<Value>, m: Value) {
    m in vs &&
    forall x :: x in vs ==> Vezes(vs, x) <= Vezes(vs, m) && (Vezes(vs, x) == Vezes(vs, m) ==> !ValorAntes(x, m))
  }

  /** The candidate of `cs` most common in `vs`, the first in the value order
      among the equally common. */
  function MaisFrequente(vs: seq<Value>, cs: seq<Value>): (m: Value)
    requires |cs| > 0
    ensures m in cs
    ensures forall j :: 0 <= j < |cs| ==> Vezes(vs, cs[j]) <= Vezes(vs, m)
    ensures forall j :: 0 <= j < |cs| && Vezes(vs, cs[j]) == Vezes(vs, m) ==> !ValorAntes(cs[j], m)
    decreases |cs|
  {
    if |cs| == 1 then
      ValorAntesIrreflexivo(cs[0]);
      cs[0]
    else
      var b := MaisFrequente(vs, cs[1..]);
      assert forall j :: 1 <= j < |cs| ==> cs[j] == cs[1..][j - 1];
      if Vezes(vs, cs[0]) > Vezes(vs, b) || (Vezes(vs, cs[0]) == Vezes(vs, b) && ValorAntes(cs[0], b)) then
        MaisFrequentePrimeiro(vs, cs, b);
        cs[0]
      else
        b
  }

  /** When the head beats the best of the tail, it beats every candidate. */
  lemma MaisFrequentePrimeiro(vs: seq<Value>, cs: seq<Value>, b: Value)
    requires |cs| > 1
    requires forall j :: 1 <= j < |cs| ==> Vezes(vs, cs[j]) <= Vezes(vs, b)
    requires forall j :: 1 <= j < |cs| && Vezes(vs, cs[j]) == Vezes(vs, b) ==> !ValorAntes(cs[j], b)
    requires Vezes(vs, cs[0]) > Vezes(vs, b) || (Vezes(vs, cs[0]) == Vezes(vs, b) && ValorAntes(cs[0], b))
    ensures forall j :: 0 <= j < |cs| && Vezes(vs, cs[j]) == Vezes(vs, cs[0]) ==> !ValorAntes(cs[j], cs[0])
  {
    ValorAntesIrreflexivo(cs[0]);
    forall j | 1 <= j < |cs| && Vezes(vs, cs[j]) == Vezes(vs, cs[0]) ensures !ValorAntes(cs[j], cs[0]) {
      if ValorAntes(cs[j], cs[0]) {
        ValorAntesTransitivo(cs[j], cs[0], b);
      }
    }
  }

  /** `x.mode()[0]` of a non-empty group. */
  function Moda(vs: seq<Value>): (m: Value)
    requires |vs| > 0
    ensures EhModa(vs, m)
  {
    var m := MaisFrequente(vs, vs);
    assert forall x :: x in vs ==> exists j :: 0 <= j < |vs| && vs[j] == x;
    m
  }

  /** The mode is unique: any most common value first in the order is it. */
  lemma ModaUnica(vs: seq<Value>, m: Value)
    requires |vs| > 0 && EhModa(vs, m)
    ensures m == Moda(vs)
  {
    var n := Moda(vs);
    if m != n {
      ValorAntesTotal(m, n);
    }
  }

  /** The spellings of an unspecified ingredient, compared after `upper()`. */
  const Vazios: set<string> := {"", "NAO ESPECIFICADO", "NAN", "NONE", "NI", "NC", "NA"}

  /** The mask of rows to fill: a missing cell, or text that is one of the
      spellings above. A number is not text, so it counts as specified. */
  predicate NaoEspecificado(v: Value) {
    v.Null? || (v.Str? && Upper(v.s) in Vazios)
  }

  /** The helper key `PRODUTO | APRESENTACAO`, each side by `astype(str)`. */
  function ChaveDescricao(r: Row, repr: Value -> string): string {
    Texto(Get(r, ColProduto), repr) + " | " + Texto(Get(r, ColApresentacao), repr)
  }

  predicate ValidoCom(r: Row, repr: Value -> string, k: string) {
    !NaoEspecificado(Get(r, PA)) && ChaveDescricao(r, repr) == k
  }

  /** The specified ingredients of the rows whose key is `k`, in row order:
      the group `groupby('chave_descricao')` hands to the mode. */
  function Grupo(rows: seq<Row>, repr: Value -> string, k: string): (vs: seq<Value>)
    ensures forall j :: 0 <= j < |vs| ==> !NaoEspecificado(vs[j])
    ensures forall x :: x in vs <==> exists i :: 0 <= i < |rows| && ValidoCom(rows[i], repr, k) && Get(rows[i], PA) == x
  {
    if |rows| == 0 then []
    else
      var resto := Grupo(rows[1..], repr, k);
      assert forall i :: 1 <= i < |rows| ==> rows[i] == rows[1..][i - 1];
      (if ValidoCom(rows[0], repr, k) then [Get(rows[0], PA)] else []) + resto
  }

  /** The filled ingredient of one row: an unspecified cell whose key has a
      group takes the group's mode; every other cell stays. */
  function Preenchido(rows: seq<Row>, repr: Value -> string, r: Row): (v: Value)
    ensures !NaoEspecificado(Get(r, PA)) ==> v == Get(r, PA)
    ensures NaoEspecificado(Get(r, PA)) && |Grupo(rows, repr, ChaveDescricao(r, repr))| > 0 ==>
              EhModa(Grupo(rows, repr, ChaveDescricao(r, repr)), v) && !NaoEspecificado(v)
    ensures |Grupo(rows, repr, ChaveDescricao(r, repr))| == 0 ==> v == Get(r, PA)
  {
    var v := Get(r, PA);
    var g := Grupo(rows, repr, ChaveDescricao(r, repr));
    if NaoEspecificado(v) && |g| > 0 then
      ModaEspecificada(rows, repr, ChaveDescricao(r, repr));
      Moda(g)
    else v
  }

  function ColunaPreenchida(rows: seq<Row>, repr: Value -> string): Row -> Value {
    (r: Row) => Preenchido(rows, repr, r)
  }

  const ColChave := "chave_descricao"

  function EhColChave(c: string): bool { c == ColChave }

  predicate TodosNaoEspecificados(t: Table) {
    forall i :: 0 <= i < |t.rows| ==> NaoEspecificado(Get(t.rows[i], PA))
  }

  /** Without specified rows of its key a group is empty. */
  lemma {:induction false} GruposVazios(rows: seq<Row>, repr: Value -> string, k: string)
    requires forall i :: 0 <= i < |rows| ==> !ValidoCom(rows[i], repr, k)
    ensures Grupo(rows, repr, k) == []
  {
    if |rows| > 0 {
      assert forall i :: 1 <= i < |rows| ==> rows[i] == rows[1..][i - 1];
      GruposVazios(rows[1..], repr, k);
    }
  }

  /** The filling proper: the new ingredient column, then the helper column
      dropped. */
  function Preencher(t: Table, repr: Value -> string): (r: Table)
    requires WellFormed(t)
    ensures WellFormed(r) && |r.rows| == |t.rows|
    ensures forall c :: c in r.cols <==> c in t.cols + [PA] && c != ColChave
    ensures forall i :: 0 <= i < |t.rows| ==> Get(r.rows[i], PA) == Preenchido(t.rows, repr, t.rows[i])
    ensures forall i, c :: 0 <= i < |t.rows| && c != PA && c != ColChave ==> Get(r.rows[i], c) == Get(t.rows[i], c)
  {
    var u := SetCol(t, PA, ColunaPreenchida(t.rows, repr));
    DropGet(u, EhColChave);
    DropCols(u, EhColChave)
  }

  /** `preencher_nao_especificado`. The ingredient column must exist; a
      frame with no specified ingredient (an empty one too) comes back as it
      is; otherwise the key columns must exist, every unspecified row whose
      key has specified rows takes their mode, and the helper column is
      dropped. Specified rows never change, and a filled row is specified. */
  function PreencherNaoEspecificado(t: Table, repr: Value -> string): (r: Result<Table>)
    requires WellFormed(t)
    ensures r.Err? <==> PA !in t.cols || (!TodosNaoEspecificados(t) && (ColProduto !in t.cols || ColApresentacao !in t.cols))
    ensures r.Ok? && TodosNaoEspecificados(t) ==> r.value == t
    ensures r.Ok? ==> WellFormed(r.value) && |r.value.rows| == |t.rows|
    ensures r.Ok? && !TodosNaoEspecificados(t) ==> forall c :: c in r.value.cols <==> c in t.cols && c != ColChave
    ensures r.Ok? ==> forall i :: 0 <= i < |t.rows| && !NaoEspecificado(Get(t.rows[i], PA)) ==>
              Get(r.value.rows[i], PA) == Get(t.rows[i], PA)
    ensures r.Ok? ==> forall i :: 0 <= i < |t.rows| && NaoEspecificado(Get(t.rows[i], PA)) ==>
              var g := Grupo(t.rows, repr, ChaveDescricao(t.rows[i], repr));
              (|g| > 0 ==> EhModa(g, Get(r.value.rows[i], PA)) && !NaoEspecificado(Get(r.value.rows[i], PA))) &&
              (|g| == 0 ==> Get(r.value.rows[i], PA) == Get(t.rows[i], PA))
    ensures r.Ok? ==> forall i, c :: 0 <= i < |t.rows| && c != PA && c != ColChave ==> Get(r.value.rows[i], c) == Get(t.rows[i], c)
  {
    if PA !in t.cols then Err(KeyError(PA))
    else if TodosNaoEspecificados(t) then
      assert forall i :: 0 <= i < |t.rows| ==> Grupo(t.rows, repr, ChaveDescricao(t.rows[i], repr)) == [] by {
        forall i | 0 <= i < |t.rows| {
          GruposVazios(t.rows, repr, ChaveDescricao(t.rows[i], repr));
        }
      }
      Ok(t)
    else if ColProduto !in t.cols then Err(KeyError(ColProduto))
    else if ColApresentacao !in t.cols then Err(KeyError(ColApresentacao))
    else Ok(Preencher(t, repr))
  }

  /** The mode of a group is a specified value. */
  lemma ModaEspecificada(rows: seq<Row>, repr: Value -> string, k: string)
    requires |Grupo(rows, repr, k)| > 0
    ensures !NaoEspecificado(Moda(Grupo(rows, repr, k)))
  {
    var g := Grupo(rows, repr, k);
    var j :| 0 <= j < |g| && g[j] == Moda(g);
  }

  /** A key without specified rows before the filling has none after it:
      only rows of keys with a group are filled. */
  lemma SemGrupoDepois(t: Table, repr: Value -> string, k: string)
    requires WellFormed(t) && Grupo(t.rows, repr, k) == []
    ensures forall j :: 0 <= j < |t.rows| ==> !ValidoCom(Preencher(t, repr).rows[j], repr, k)
  {
    var r := Preencher(t, repr);
    forall j | 0 <= j < |t.rows| ensures !ValidoCom(r.rows[j], repr, k) {
      var tj := t.rows[j];
      assert ChaveDescricao(r.rows[j], repr) == ChaveDescricao(tj, repr);
      assert ValidoCom(tj, repr, k) ==> Get(tj, PA) in Grupo(t.rows, repr, k);
    }
  }

  /** After the filling every row keeps its ingredient under a second one. */
  lemma PreenchidoFixo(t: Table, repr: Value -> string, i: nat)
    requires WellFormed(t) && i < |t.rows|
    ensures Preenchido(Preencher(t, repr).rows, repr, Preencher(t, repr).rows[i]) == Get(Preencher(t, repr).rows[i], PA)
  {
    var r := Preencher(t, repr);
    var k := ChaveDescricao(r.rows[i], repr);
    assert k == ChaveDescricao(t.rows[i], repr);
    if NaoEspecificado(Get(r.rows[i], PA)) {
      if |Grupo(t.rows, repr, k)| > 0 {
        ModaEspecificada(t.rows, repr, k);
      }
      assert Grupo(t.rows, repr, k) == [];
      SemGrupoDepois(t, repr, k);
      GruposVazios(r.rows, repr, k);
    }
  }

  /** Filling a filled frame changes nothing. */
  lemma PreencherFixo(t: Table, repr: Value -> string)
    requires WellFormed(t) && PA in t.cols
    ensures Preencher(Preencher(t, repr), repr) == Preencher(t, repr)
  {
    var r := Preencher(t, repr);
    forall i | 0 <= i < |r.rows| ensures ColunaPreenchida(r.rows, repr)(r.rows[i]) == Get(r.rows[i], PA) {
      PreenchidoFixo(t, repr, i);
    }
    ColunaFixa(r, PA, ColunaPreenchida(r.rows, repr));
    DropColsNada(r, EhColChave);
  }

  /** Writing every cell of a column with the value it has changes nothing. */
  lemma ColunaFixa(r: Table, c: string, f: Row -> Value)
    requires WellFormed(r) && c in r.cols
    requires forall i :: 0 <= i < |r.rows| ==> f(r.rows[i]) == Get(r.rows[i], c)
    ensures SetCol(r, c, f) == r
  {
    var u := SetCol(r, c, f);
    forall i | 0 <= i < |r.rows| ensures u.rows[i] == r.rows[i] {
      assert c in r.rows[i];
    }
  }

  /** `preencher_nao_especificado` run again on its own output gives that
      output: the filled rows are specified and agree with their group's
      mode, and the rows left unspecified still have no group. */
  lemma PreencherReexecutavel(t: Table, repr: Value -> string)
    requires WellFormed(t) && PreencherNaoEspecificado(t, repr).Ok?
    ensures PreencherNaoEspecificado(PreencherNaoEspecificado(t, repr).value, repr) == PreencherNaoEspecificado(t, repr)
  {
    if !TodosNaoEspecificados(t) {
      PreencherFixo(t, repr);
    }
  }

  // ---------------------------------------------------------------------------
  // analisar_fuzzy_matching
  // ---------------------------------------------------------------------------

  /** `fuzz.token_set_ratio`, a score from the similarity library. */
  type Similaridade = (string, string) -> int

  const LimiarPadrao := 85

  /** The values the analysis compares: at most three '+' and more than
      three characters. */
  predicate Analisavel(x: string) {
    Count(x, EhMais) <= 3 && |x| > 3
  }

  /** The cells of column `c`, in row order. */
  function Coluna(t: Table, c: string): seq<Value> {
    seq(|t.rows|, i requires 0 <= i < |t.rows| => Get(t.rows[i], c))
  }

  /** `dropna()` and the `count('+')` every remaining value is asked for: a
      value that is not text has no such method. */
  function TextosDe(vs: seq<Value>): (r: Result<seq<string>>)
    ensures r.Err? <==> exists i :: 0 <= i < |vs| && !vs[i].Null? && !vs[i].Str?
    ensures r.Ok? ==> forall x :: x in r.value <==> Str(x) in vs
  {
    if |vs| == 0 then Ok([])
    else
      var resto := TextosDe(vs[1..]);
      assert forall i :: 1 <= i < |vs| ==> vs[i] == vs[1..][i - 1];
      assert forall v :: v in vs <==> v == vs[0] || v in vs[1..];
      if !vs[0].Null? && !vs[0].Str? then Err(AttributeError("count"))
      else if resto.Err? then resto
      else Ok((if vs[0].Str? then [vs[0].s] else []) + resto.value)
  }

  /** `(a, b)` for every `b` of `bs` similar enough to `a`, in order. */
  function ParesCom(a: string, bs: seq<string>, sim: Similaridade, limiar: int): (ps: seq<(string, string)>)
    ensures forall k :: 0 <= k < |ps| ==> ps[k].0 == a && ps[k].1 in bs && sim(a, ps[k].1) >= limiar
    ensures forall b :: b in bs && sim(a, b) >= limiar ==> (a, b) in ps
  {
    if |bs| == 0 then []
    else
      assert forall b :: b in bs <==> b == bs[0] || b in bs[1..];
      (if sim(a, bs[0]) >= limiar then [(a, bs[0])] else []) + ParesCom(a, bs[1..], sim, limiar)
  }

  /** `p` is `(fs[i], fs[j])` for some `i < j`: a pair
      `itertools.combinations(fs, 2)` yields. */
  predicate ParDe(fs: seq<string>, p: (string, string)) {
    exists i, j :: 0 <= i < j < |fs| && p == (fs[i], fs[j])
  }

  predicate Similar(p: (string, string), sim: Similaridade, limiar: int) {
    sim(p.0, p.1) >= limiar
  }

  /** `itertools.combinations(fs, 2)` kept by the threshold, in the order
      the loop visits them. */
  function Pares(fs: seq<string>, sim: Similaridade, limiar: int): (ps: seq<(string, string)>)
    ensures forall k :: 0 <= k < |ps| ==> Similar(ps[k], sim, limiar) && ParDe(fs, ps[k])
    ensures forall i, j :: 0 <= i < j < |fs| && sim(fs[i], fs[j]) >= limiar ==> (fs[i], fs[j]) in ps
  {
    if |fs| == 0 then []
    else
      var cab := ParesCom(fs[0], fs[1..], sim, limiar);
      var resto := Pares(fs[1..], sim, limiar);
      ParesValidos(fs, sim, limiar, cab, resto);
      ParesCompletos(fs, sim, limiar, cab, resto);
      cab + resto
  }

  lemma ParesValidos(fs: seq<string>, sim: Similaridade, limiar: int, cab: seq<(string, string)>, resto: seq<(string, string)>)
    requires |fs| > 0 && cab == ParesCom(fs[0], fs[1..], sim, limiar)
    requires forall k :: 0 <= k < |resto| ==> Similar(resto[k], sim, limiar) && ParDe(fs[1..], resto[k])
    ensures forall k :: 0 <= k < |cab + resto| ==> Similar((cab + resto)[k], sim, limiar) && ParDe(fs, (cab + resto)[k])
  {
    var ps := cab + resto;
    forall k | 0 <= k < |ps| ensures Similar(ps[k], sim, limiar) && ParDe(fs, ps[k]) {
      if k < |cab| {
        ParDeCabeca(fs, ps[k]);
      } else {
        ParDeCauda(fs, ps[k]);
      }
    }
  }

  lemma ParDeCabeca(fs: seq<string>, p: (string, string))
    requires |fs| > 0 && p.0 == fs[0] && p.1 in fs[1..]
    ensures ParDe(fs, p)
  {
    var j :| 0 <= j < |fs[1..]| && fs[1..][j] == p.1;
    assert p == (fs[0], fs[j + 1]);
  }

  lemma ParDeCauda(fs: seq<string>, p: (string, string))
    requires |fs| > 0 && ParDe(fs[1..], p)
    ensures ParDe(fs, p)
  {
    var i, j :| 0 <= i < j < |fs[1..]| && p == (fs[1..][i], fs[1..][j]);
    assert p == (fs[i + 1], fs[j + 1]);
  }

  lemma ParesCompletos(fs: seq<string>, sim: Similaridade, limiar: int, cab: seq<(string, string)>, resto: seq<(string, string)>)
    requires |fs| > 0 && cab == ParesCom(fs[0], fs[1..], sim, limiar)
    requires forall i, j :: 0 <= i < j < |fs[1..]| && sim(fs[1..][i], fs[1..][j]) >= limiar ==> (fs[1..][i], fs[1..][j]) in resto
    ensures forall i, j :: 0 <= i < j < |fs| && sim(fs[i], fs[j]) >= limiar ==> (fs[i], fs[j]) in cab + resto
  {
    forall i, j | 0 <= i < j < |fs| && sim(fs[i], fs[j]) >= limiar ensures (fs[i], fs[j]) in cab + resto {
      if i == 0 {
        assert fs[j] == fs[1..][j - 1];
        assert fs[j] in fs[1..];
      } else {
        assert fs[i] == fs[1..][i - 1] && fs[j] == fs[1..][j - 1];
      }
    }
  }

  /** A pair of a sorted list is in order. */
  lemma ParOrdenado(fs: seq<string>, p: (string, string))
    requires Sorted(fs) && ParDe(fs, p)
    ensures p.0 in fs && p.1 in fs && StrLt(p.0, p.1)
  {
    var i, j :| 0 <= i < j < |fs| && p == (fs[i], fs[j]);
  }

  /** `(correto, errado)` of a pair: the longer text is the right spelling,
      the first of the pair on equal length. */
  function Orientar(p: (string, string)): (o: (string, string))
    ensures |o.1| <= |o.0| && (o == p || o == (p.1, p.0))
  {
    if |p.0| >= |p.1| then p else (p.1, p.0)
  }

  /** The right spelling the first pair whose wrong spelling is `e`
      proposes. */
  function PrimeiraSugestao(ps: seq<(string, string)>, e: string): (c: Option<string>)
    ensures c.None? <==> forall k :: 0 <= k < |ps| ==> Orientar(ps[k]).1 != e
    ensures c.Some? ==> exists k :: (0 <= k < |ps| && Orientar(ps[k]) == (c.value, e) &&
              forall k' :: 0 <= k' < k ==> Orientar(ps[k']).1 != e)
  {
    if |ps| == 0 then None
    else
      assert forall k :: 1 <= k < |ps| ==> ps[k] == ps[1..][k - 1];
      if Orientar(ps[0]).1 == e then Some(Orientar(ps[0]).0)
      else PrimeiraSugestao(ps[1..], e)
  }

  /** The loop that builds the suggested dictionary: a wrong spelling
      already present keeps its first suggestion. */
  function Sugerir(ps: seq<(string, string)>, acc: map<string, string>): (d: map<string, string>)
    ensures forall e :: e in d <==> e in acc || PrimeiraSugestao(ps, e).Some?
    ensures forall e :: e in d ==> d[e] == if e in acc then acc[e] else PrimeiraSugestao(ps, e).value
  {
    if |ps| == 0 then acc
    else
      var o := Orientar(ps[0]);
      Sugerir(ps[1..], if o.1 in acc then acc else acc[o.1 := o.0])
  }

  /** The values compared: the analysable texts, distinct and in order. */
  function Candidatos(txts: seq<string>): (fs: seq<string>)
    ensures Sorted(fs)
    ensures forall x :: x in fs <==> x in txts && Analisavel(x)
  {
    var fs := SortedSet(Filter(txts, Analisavel));
    assert forall x :: x in fs <==> x in Elems(fs);
    assert forall x :: x in Filter(txts, Analisavel) <==> x in Elems(Filter(txts, Analisavel));
    fs
  }

  /** The suggested dictionary for the texts of a column. */
  function Sugestoes(txts: seq<string>, sim: Similaridade, limiar: int): (d: map<string, string>)
    ensures forall e :: e in d ==> Sugestao(Candidatos(txts), sim, limiar, e, d[e])
    ensures forall x, y :: (x in txts && y in txts && Analisavel(x) && Analisavel(y) && StrLt(x, y) && sim(x, y) >= limiar)
              ==> Orientar((x, y)).1 in d
  {
    var fs := Candidatos(txts);
    SugestoesValidas(fs, sim, limiar);
    SugestoesCompletas(fs, sim, limiar);
    forall x, y | x in txts && y in txts && Analisavel(x) && Analisavel(y) && StrLt(x, y) && sim(x, y) >= limiar
      ensures Orientar((x, y)).1 in Sugerir(Pares(fs, sim, limiar), map[])
    {
      var i, j := ParNaLista(fs, x, y);
    }
    Sugerir(Pares(fs, sim, limiar), map[])
  }

  /** Two elements of a sorted list, the first smaller, sit in that order. */
  lemma ParNaLista(fs: seq<string>, x: string, y: string) returns (i: nat, j: nat)
    requires Sorted(fs) && x in fs && y in fs && StrLt(x, y)
    ensures i < j < |fs| && fs[i] == x && fs[j] == y
  {
    i :| 0 <= i < |fs| && fs[i] == x;
    j :| 0 <= j < |fs| && fs[j] == y;
    if j <= i {
      if i == j {
        StrLtIrreflexive(x);
      } else {
        StrLtAsymmetric(y, x);
      }
    }
  }

  /** `analisar_fuzzy_matching`: the suggested dictionary, wrong spelling to
      right spelling. The frame must have the ingredient column and its
      values must be text or missing. Every suggestion joins two distinct
      analysable texts of the column, similar enough in the order the loop
      compares them, the longer being the right one; every such pair gives
      its shorter text a suggestion. */
  function AnalisarFuzzy(t: Table, sim: Similaridade, limiar: int): (r: Result<map<string, string>>)
    requires WellFormed(t)
    ensures r.Err? <==> PA !in t.cols || exists i :: 0 <= i < |t.rows| && !Get(t.rows[i], PA).Null? && !Get(t.rows[i], PA).Str?
    ensures r.Ok? ==> forall e :: e in r.value ==>
              Str(e) in Coluna(t, PA) && Str(r.value[e]) in Coluna(t, PA) && Analisavel(e) && Analisavel(r.value[e]) &&
              |e| <= |r.value[e]| &&
              ((StrLt(e, r.value[e]) && sim(e, r.value[e]) >= limiar) || (StrLt(r.value[e], e) && sim(r.value[e], e) >= limiar))
    ensures r.Ok? ==> forall x, y :: (Str(x) in Coluna(t, PA) && Str(y) in Coluna(t, PA) && Analisavel(x) && Analisavel(y) &&
              StrLt(x, y) && sim(x, y) >= limiar) ==> Orientar((x, y)).1 in r.value
  {
    if PA !in t.cols then Err(KeyError(PA))
    else
      var col := Coluna(t, PA);
      assert forall i :: 0 <= i < |t.rows| ==> col[i] == Get(t.rows[i], PA);
      var txts := TextosDe(col);
      if txts.Err? then Err(txts.error)
      else Ok(Sugestoes(txts.value, sim, limiar))
  }

  /** Every suggestion comes from a compared pair. */
  lemma SugestoesValidas(fs: seq<string>, sim: Similaridade, limiar: int)
    requires Sorted(fs)
    ensures forall e :: e in Sugerir(Pares(fs, sim, limiar), map[]) ==>
              Sugestao(fs, sim, limiar, e, Sugerir(Pares(fs, sim, limiar), map[])[e])
  {
    forall e | e in Sugerir(Pares(fs, sim, limiar), map[])
      ensures Sugestao(fs, sim, limiar, e, Sugerir(Pares(fs, sim, limiar), map[])[e])
    {
      SugestaoValida(fs, sim, limiar, Pares(fs, sim, limiar), e);
    }
  }

  lemma SugestaoValida(fs: seq<string>, sim: Similaridade, limiar: int, ps: seq<(string, string)>, e: string)
    requires Sorted(fs) && forall k :: 0 <= k < |ps| ==> Similar(ps[k], sim, limiar) && ParDe(fs, ps[k])
    requires e in Sugerir(ps, map[])
    ensures Sugestao(fs, sim, limiar, e, Sugerir(ps, map[])[e])
  {
    var c := PrimeiraSugestao(ps, e);
    var k :| 0 <= k < |ps| && Orientar(ps[k]) == (c.value, e) && forall k' :: 0 <= k' < k ==> Orientar(ps[k']).1 != e;
    ParOrdenado(fs, ps[k]);
  }

  /** `e -> c` joins two compared texts, similar enough in the order the
      loop compares them, the right spelling being the longer. */
  predicate Sugestao(fs: seq<string>, sim: Similaridade, limiar: int, e: string, c: string) {
    e in fs && c in fs && |e| <= |c| &&
    ((StrLt(e, c) && sim(e, c) >= limiar) || (StrLt(c, e) && sim(c, e) >= limiar))
  }

  /** Every compared pair gives its shorter text a suggestion. */
  lemma SugestoesCompletas(fs: seq<string>, sim: Similaridade, limiar: int)
    ensures forall i, j :: 0 <= i < j < |fs| && sim(fs[i], fs[j]) >= limiar ==>
              Orientar((fs[i], fs[j])).1 in Sugerir(Pares(fs, sim, limiar), map[])
  {
    var ps := Pares(fs, sim, limiar);
    forall i, j | 0 <= i < j < |fs| && sim(fs[i], fs[j]) >= limiar
      ensures Orientar((fs[i], fs[j])).1 in Sugerir(ps, map[])
    {
      var k :| 0 <= k < |ps| && ps[k] == (fs[i], fs[j]);
    }
  }
}
