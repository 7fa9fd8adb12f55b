/** Code cleanup of the ANVISA base
    (`pipelines/anvisa_base/src/modules/limpeza_dados.py`): the GGREM code
    and the three EAN barcode columns are reduced to their digits after a
    trailing ".0" (a whole number read as a float) is dropped. The GGREM
    code turns its placeholders into missing values; the barcodes turn
    theirs into empty text. */
module LimpezaDados {
  import opened Seqs
  import opened Text
  import opened Frame

  const Ggrem := "CÓDIGO GGREM"

  /** `COLUNAS_EAN` of the configuration. */
  const ColunasEan: seq<string> := ["EAN 1", "EAN 2", "EAN 3"]

  // ---------------------------------------------------------------------------
  // One cell
  // ---------------------------------------------------------------------------

  /** `astype(str).str.strip()`: the text both cleanups start from. */
  function Bruto(v: Value, repr: Value -> string): string { Strip(Texto(v, repr)) }

  /** `str.replace(r'\.0$', '')`. On stripped text `$` is the end of the
      text, since a final newline would have been stripped. */
  function SemPontoZero(s: string): string {
    if EndsWith(s, ".0") then s[..|s| - 2] else s
  }

  /** The trailing ".0" dropped, then `str.replace(r'[^0-9]', '')`. */
  function Digitos(s: string): (r: string)
    ensures AllDigits(r)
  {
    KeepDigits(SemPontoZero(s))
  }

  /** The GGREM placeholders `{'nan', 'None', ''}`. */
  predicate AusenteGgrem(s: string) { s == "nan" || s == "None" || s == "" }

  /** The EAN placeholders `{'nan', 'None', '<NA>', '-'}`. */
  predicate Marcador(s: string) { s == "nan" || s == "None" || s == "<NA>" || s == "-" }

  /** The GGREM cell: missing exactly when the stripped text is a
      placeholder; otherwise text made of digits only. */
  function CodigoGgrem(v: Value, repr: Value -> string): (r: Value)
    ensures r == Null <==> AusenteGgrem(Bruto(v, repr))
    ensures r != Null ==> r.Str? && AllDigits(r.s)
  {
    var s := Bruto(v, repr);
    if AusenteGgrem(s) then Null else Str(Digitos(s))
  }

  /** An EAN cell: always text made of digits only, empty for a
      placeholder. */
  function CodigoEan(v: Value, repr: Value -> string): (r: Value)
    ensures r.Str? && AllDigits(r.s)
    ensures Marcador(Bruto(v, repr)) ==> r == Str("")
  {
    var s := Bruto(v, repr);
    if Marcador(s) then Str("") else Str(Digitos(s))
  }

  /** The EAN placeholder replacement changes nothing: no placeholder holds
      a digit, so the digit filter alone already empties it. */
  lemma EanSemMarcador(v: Value, repr: Value -> string)
    ensures CodigoEan(v, repr) == Str(Digitos(Bruto(v, repr)))
  {
    var s := Bruto(v, repr);
    if Marcador(s) {
      assert !EndsWith(s, ".0");
      KeepDigitsNone(s);
    }
  }

  /** A whole number, as text or as its float rendering "d.0", is its own
      code. */
  lemma DigitosInteiro(d: string)
    requires AllDigits(d)
    ensures Digitos(d) == d && Digitos(d + ".0") == d
  {
    assert (d + ".0")[..|d|] == d && (d + ".0")[|d|..] == ".0";
    if |d| >= 2 {
      assert d[|d| - 2..][0] == d[|d| - 2];
    }
  }

  /** A GGREM code read as a float ("12345.0") gives back its digits, and a
      code that is already digits stays as it is. */
  lemma GgremInteiro(d: string, repr: Value -> string)
    requires |d| > 0 && AllDigits(d)
    ensures CodigoGgrem(Str(d + ".0"), repr) == Str(d)
    ensures CodigoGgrem(Str(d), repr) == Str(d)
  {
    StripNoSpace(d + ".0");
    StripNoSpace(d);
    DigitosInteiro(d);
    assert (d + ".0")[0] == d[0];
  }

  /** Cleaning a cleaned GGREM code changes nothing (a missing value is
      rendered "nan" or "None" again), unless the first pass left empty
      text: text without digits (say "ABC") becomes "" and only
      a second pass turns that into a missing value. */
  lemma GgremIdempotente(v: Value, repr: Value -> string)
    requires repr(Null) == "nan" || repr(Null) == "None"
    ensures var r := CodigoGgrem(v, repr);
            r != Str("") ==> CodigoGgrem(r, repr) == r
    ensures CodigoGgrem(v, repr) == Str("") ==> CodigoGgrem(Str(""), repr) == Null
  {
    var r := CodigoGgrem(v, repr);
    if r == Null {
      StripNoSpace(repr(Null));
    } else if r != Str("") {
      GgremInteiro(r.s, repr);
    }
  }

  /** Cleaning a cleaned barcode changes nothing. */
  lemma EanIdempotente(v: Value, repr: Value -> string)
    ensures CodigoEan(CodigoEan(v, repr), repr) == CodigoEan(v, repr)
  {
    var r := CodigoEan(v, repr);
    StripNoSpace(r.s);
    DigitosInteiro(r.s);
    EanSemMarcador(r, repr);
  }

  // ---------------------------------------------------------------------------
  // The frame
  // ---------------------------------------------------------------------------

  function ColunaGgrem(repr: Value -> string): Row -> Value {
    (r: Row) => CodigoGgrem(Get(r, Ggrem), repr)
  }

  /** `padronizar_codigo_ggrem`: a frame without the column is returned as
      it is; otherwise every GGREM cell is cleaned and nothing else
      changes. */
  function PadronizarGgrem(t: Table, repr: Value -> string): (r: Table)
    requires WellFormed(t)
    ensures WellFormed(r) && r.cols == t.cols && |r.rows| == |t.rows|
    ensures Ggrem !in t.cols ==> r == t
    ensures Ggrem in t.cols ==> forall i :: 0 <= i < |t.rows| ==>
              Get(r.rows[i], Ggrem) == CodigoGgrem(Get(t.rows[i], Ggrem), repr)
    ensures forall i, c :: 0 <= i < |t.rows| && c != Ggrem ==> Get(r.rows[i], c) == Get(t.rows[i], c)
  {
    if Ggrem in t.cols then SetCol(t, Ggrem, ColunaGgrem(repr)) else t
  }

  function ColunaEan(c: string, repr: Value -> string): Row -> Value {
    (r: Row) => CodigoEan(Get(r, c), repr)
  }

  /** The loop of `padronizar_colunas_ean` over the column list `cols`: a
      listed column the frame has is cleaned, a missing one is skipped, and
      every other cell stays. */
  function PadronizarColunas(t: Table, cols: seq<string>, repr: Value -> string): (r: Table)
    requires WellFormed(t) && NoDup(cols)
    ensures WellFormed(r) && r.cols == t.cols && |r.rows| == |t.rows|
    ensures forall i, c :: 0 <= i < |t.rows| && c in cols && c in t.cols ==>
              Get(r.rows[i], c) == CodigoEan(Get(t.rows[i], c), repr)
    ensures forall i, c :: 0 <= i < |t.rows| && !(c in cols && c in t.cols) ==>
              Get(r.rows[i], c) == Get(t.rows[i], c)
    decreases |cols|
  {
    if |cols| == 0 then t
    else
      var u := Limpar1(t, cols[0], repr);
      var r := PadronizarColunas(u, cols[1..], repr);
      ColunasPasso(t, u, r, cols, repr);
      r
  }

  /** One column of the loop: the frame with column `c` cleaned when it has
      it. */
  function Limpar1(t: Table, c: string, repr: Value -> string): (u: Table)
    requires WellFormed(t)
    ensures WellFormed(u) && u.cols == t.cols && |u.rows| == |t.rows|
    ensures c in t.cols ==> forall i :: 0 <= i < |t.rows| ==> Get(u.rows[i], c) == CodigoEan(Get(t.rows[i], c), repr)
    ensures forall i, d :: 0 <= i < |t.rows| && (d != c || c !in t.cols) ==> Get(u.rows[i], d) == Get(t.rows[i], d)
  {
    if c in t.cols then SetCol(t, c, ColunaEan(c, repr)) else t
  }

  /** The loop step: cleaning the first listed column, then the rest. */
  lemma ColunasPasso(t: Table, u: Table, r: Table, cols: seq<string>, repr: Value -> string)
    requires |cols| > 0 && NoDup(cols)
    requires u.cols == t.cols && |u.rows| == |t.rows|
    requires cols[0] in t.cols ==> forall i :: 0 <= i < |t.rows| ==> Get(u.rows[i], cols[0]) == CodigoEan(Get(t.rows[i], cols[0]), repr)
    requires forall i, d :: 0 <= i < |t.rows| && (d != cols[0] || cols[0] !in t.cols) ==> Get(u.rows[i], d) == Get(t.rows[i], d)
    requires |r.rows| == |u.rows|
    requires forall i, c :: 0 <= i < |u.rows| && c in cols[1..] && c in u.cols ==>
               Get(r.rows[i], c) == CodigoEan(Get(u.rows[i], c), repr)
    requires forall i, c :: 0 <= i < |u.rows| && !(c in cols[1..] && c in u.cols) ==>
               Get(r.rows[i], c) == Get(u.rows[i], c)
    ensures forall i, c :: 0 <= i < |t.rows| && c in cols && c in t.cols ==>
              Get(r.rows[i], c) == CodigoEan(Get(t.rows[i], c), repr)
    ensures forall i, c :: 0 <= i < |t.rows| && !(c in cols && c in t.cols) ==>
              Get(r.rows[i], c) == Get(t.rows[i], c)
  {
    forall i, c | 0 <= i < |t.rows| && c in cols && c in t.cols
      ensures Get(r.rows[i], c) == CodigoEan(Get(t.rows[i], c), repr)
    {
      if c == cols[0] {
        assert c !in cols[1..];
      } else {
        assert c in cols[1..];
      }
    }
    forall i, c | 0 <= i < |t.rows| && !(c in cols && c in t.cols)
      ensures Get(r.rows[i], c) == Get(t.rows[i], c)
    {
      assert !(c in cols[1..] && c in u.cols);
    }
  }

  /** `padronizar_colunas_ean`. */
  function PadronizarEan(t: Table, repr: Value -> string): (r: Table)
    requires WellFormed(t)
    ensures WellFormed(r) && r.cols == t.cols && |r.rows| == |t.rows|
    ensures forall i, c :: 0 <= i < |t.rows| && c in ColunasEan && c in t.cols ==>
              Get(r.rows[i], c) == CodigoEan(Get(t.rows[i], c), repr)
    ensures forall i, c :: 0 <= i < |t.rows| && c !in ColunasEan ==> Get(r.rows[i], c) == Get(t.rows[i], c)
  {
    assert NoDup(ColunasEan);
    PadronizarColunas(t, ColunasEan, repr)
  }

  /** Cleaning the barcodes twice cleans them once. */
  lemma EanEstavel(t: Table, repr: Value -> string)
    requires WellFormed(t)
    ensures PadronizarEan(PadronizarEan(t, repr), repr) == PadronizarEan(t, repr)
  {
    var r := PadronizarEan(t, repr);
    var r2 := PadronizarEan(r, repr);
    forall i | 0 <= i < |r2.rows| ensures r2.rows[i] == r.rows[i] {
      forall c | c in r.cols ensures Get(r2.rows[i], c) == Get(r.rows[i], c) {
        if c in ColunasEan {
          EanIdempotente(Get(t.rows[i], c), repr);
        }
      }
      SameRow(r2, r, i);
    }
  }

  /** `limpar_padronizar_dados`: the GGREM code, then the barcodes, on a
      copy of the frame. The columns stay the same; the GGREM cells and the
      barcode cells the frame has are cleaned, every other cell stays. */
  function LimparPadronizar(t: Table, repr: Value -> string): (r: Table)
    requires WellFormed(t)
    ensures WellFormed(r) && r.cols == t.cols && |r.rows| == |t.rows|
    ensures Ggrem in t.cols ==> forall i :: 0 <= i < |t.rows| ==>
              Get(r.rows[i], Ggrem) == CodigoGgrem(Get(t.rows[i], Ggrem), repr)
    ensures forall i, c :: 0 <= i < |t.rows| && c in ColunasEan && c in t.cols ==>
              Get(r.rows[i], c) == CodigoEan(Get(t.rows[i], c), repr)
    ensures forall i, c :: 0 <= i < |t.rows| && c != Ggrem && c !in ColunasEan ==>
              Get(r.rows[i], c) == Get(t.rows[i], c)
  {
    PadronizarEan(PadronizarGgrem(t, repr), repr)
  }
}
