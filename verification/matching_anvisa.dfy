/** Enrichment of invoice items with CMED product metadata
    (`src/nfe_matching_anvisa.py`, `enriquecer_dataframe_com_cmed`): keys
    normalised from the barcode and from the ANVISA registration, one lookup
    per key column of the product base, and a cascade EAN1, EAN2, EAN3,
    registration that fills each item from the first lookup that knows its
    key. */
module MatchingAnvisa {
  import opened Wrappers
  import opened Text
  import opened Seqs
  import opened Ordem
  import opened Frame

  // ---------------------------------------------------------------------------
  // Keys
  // ---------------------------------------------------------------------------

  /** `ean_norm` on one cell: the digits of the text (the `strip()` before
      only removes non-digits, which the digit filter removes anyway); a
      14-digit code loses its first digit; only 13 digits make a key, and
      the all-zero code is missing. */
  function EanNorm(v: Option<string>): (r: Option<string>)
    ensures r.Some? ==> |r.value| == 13 && AllDigits(r.value) && !AllZeros(r.value)
    ensures r.Some? <==> var d := KeepDigits(v.GetOr(""));
              (|d| == 13 || |d| == 14) && !AllZeros(d[|d| - 13..])
    ensures r.Some? ==> EndsWith(KeepDigits(v.GetOr("")), r.value)
  {
    var d := KeepDigits(v.GetOr(""));
    if |d| == 0 then None
    else
      var t := if |d| == 14 then d[1..] else d;
      if |t| != 13 || AllZeros(t) then None else Some(t)
  }

  /** A key is its own key. */
  lemma EanNormIdempotent(v: Option<string>)
    requires EanNorm(v).Some?
    ensures EanNorm(EanNorm(v)) == EanNorm(v)
  {
    var k := EanNorm(v).value;
    assert KeepDigits(k) == k;
    assert k[|k| - 13..] == k;
  }

  /** The first 13 digits of the text. */
  function Lead13(d: string): string {
    if |d| <= 13 then d else d[..13]
  }

  /** `reg_norm` on one cell: the first 13 digits, left-padded with zeros
      to 13; no digits or only zeros make the key missing. */
  function RegNorm(v: Option<string>): (r: Option<string>)
    ensures r.Some? <==> !AllZeros(Lead13(KeepDigits(v.GetOr(""))))
    ensures r.Some? ==> |r.value| == 13 && AllDigits(r.value) && !AllZeros(r.value)
    ensures r.Some? ==> EndsWith(r.value, Lead13(KeepDigits(v.GetOr(""))))
  {
    var p := Lead13(KeepDigits(v.GetOr("")));
    if |p| == 0 then None
    else
      var t := ZFill(p, 13);
      ZFillZeros(p, 13);
      if AllZeros(t) then None else Some(t)
  }

  /** Padding with zeros adds no non-zero digit. */
  lemma ZFillZeros(p: string, n: nat)
    ensures AllZeros(ZFill(p, n)) <==> AllZeros(p)
  {
    var t := ZFill(p, n);
    assert t[|t| - |p|..] == p;
    if AllZeros(t) {
      forall i | 0 <= i < |p| ensures p[i] == '0' { assert p[i] == t[|t| - |p| + i]; }
    }
  }

  /** A registration key is its own key. */
  lemma RegNormIdempotent(v: Option<string>)
    requires RegNorm(v).Some?
    ensures RegNorm(RegNorm(v)) == RegNorm(v)
  {
    var k := RegNorm(v).value;
    assert KeepDigits(k) == k && Lead13(k) == k;
    assert ZFill(k, 13) == k;
  }

  predicate AllSpace(s: string) { forall i :: 0 <= i < |s| ==> IsSpace(s[i]) }

  /** `s` is blanks, "sem" (any case), blanks, "gtin" (any case), blanks,
      the two words starting at `a` and `b`. */
  predicate SemGtinAt(s: string, a: int, b: int) {
    0 <= a && a + 3 <= b && b + 4 <= |s|
    && AllSpace(s[..a]) && Upper(s[a..a + 3]) == "SEM"
    && AllSpace(s[a + 3..b]) && Upper(s[b..b + 4]) == "GTIN"
    && AllSpace(s[b + 4..])
  }

  /** `codigo_ean` fully matches `(?i)\s*sem\s*gtin\s*`; a missing cell
      does not. */
  predicate SemGtin(v: Option<string>) {
    v.Some? && exists a, b | 0 <= a <= b <= |v.value| :: SemGtinAt(v.value, a, b)
  }

  /** A "SEM GTIN" barcode has no digits, so it never has a key: the
      cascade's extra exclusion of such items never changes an outcome. */
  lemma SemGtinSemChave(v: Option<string>)
    requires SemGtin(v)
    ensures EanNorm(v) == None
  {
    var s := v.value;
    var a, b :| 0 <= a <= b <= |s| && SemGtinAt(s, a, b);
    assert a + 3 <= b && b + 4 <= |s|;
    forall i | 0 <= i < |s| ensures !IsDigit(s[i]) {
      if i < a {
        assert s[..a][i] == s[i];
      } else if i < a + 3 {
        assert Upper(s[a..a + 3])[i - a] == UpperChar(s[i]);
      } else if i < b {
        assert s[a + 3..b][i - a - 3] == s[i];
      } else if i < b + 4 {
        assert Upper(s[b..b + 4])[i - b] == UpperChar(s[i]);
      } else {
        assert s[b + 4..][i - b - 4] == s[i];
      }
    }
    KeepDigitsNone(s);
  }

  // ---------------------------------------------------------------------------
  // Lookups over the product base
  // ---------------------------------------------------------------------------

  /** A product of the CMED base: its id, the three barcodes, the
      registration and the metadata columns copied to matched items. */
  datatype Med = Med(
    id: Option<string>,
    ean1: Option<string>,
    ean2: Option<string>,
    ean3: Option<string>,
    registro: Option<string>,
    meta: Row)

  function Ean1Key(m: Med): Option<string> { EanNorm(m.ean1) }
  function Ean2Key(m: Med): Option<string> { EanNorm(m.ean2) }
  function Ean3Key(m: Med): Option<string> { EanNorm(m.ean3) }
  function RegKey(m: Med): Option<string> { RegNorm(m.registro) }

  /** One row of a lookup: the sorted distinct product ids of the key's
      group and the group's metadata. */
  datatype Entrada = Entrada(ids: seq<string>, meta: Row)

  /** The non-missing ids of `g`, in order. */
  function IdsOf(g: seq<Med>): (r: seq<string>)
    ensures forall x :: x in r <==> exists i :: 0 <= i < |g| && g[i].id == Some(x)
  {
    if |g| == 0 then []
    else
      var r := (if g[0].id.Some? then [g[0].id.value] else []) + IdsOf(g[1..]);
      assert forall i :: 1 <= i < |g| ==> g[i] == g[1..][i - 1];
      r
  }

  /** groupby `'first'`: the first non-missing value of column `c`. */
  function FirstNonNull(g: seq<Med>, c: string): (v: Value)
    ensures v == Null <==> forall i :: 0 <= i < |g| ==> Get(g[i].meta, c) == Null
    ensures v != Null ==> exists i :: 0 <= i < |g| && Get(g[i].meta, c) == v
                                      && (forall j :: 0 <= j < i ==> Get(g[j].meta, c) == Null)
  {
    if |g| == 0 then Null
    else if Get(g[0].meta, c) != Null then Get(g[0].meta, c)
    else
      var v := FirstNonNull(g[1..], c);
      assert forall i :: 1 <= i < |g| ==> g[i] == g[1..][i - 1];
      v
  }

  /** `create_lookup_agg(meds, key)` looked up at `k`: present iff some
      product has key `k`; the ids are exactly the ids of those products,
      sorted and without repetitions. */
  function Lookup(meds: seq<Med>, key: Med -> Option<string>, k: string, cols: seq<string>): (r: Option<Entrada>)
    ensures r.Some? <==> exists i :: 0 <= i < |meds| && key(meds[i]) == Some(k)
    ensures r.Some? ==> Sorted(r.value.ids)
    ensures r.Some? ==> forall x :: x in r.value.ids <==>
              exists i :: 0 <= i < |meds| && key(meds[i]) == Some(k) && meds[i].id == Some(x)
    ensures r.Some? ==> r.value.meta.Keys == ColSet(cols)
  {
    var g := WithKey(meds, key, Some(k));
    if |g| == 0 then None
    else
      var ids := SortedSet(IdsOf(g));
      assert forall x :: x in ids <==> exists i :: 0 <= i < |meds| && key(meds[i]) == Some(k) && meds[i].id == Some(x) by {
        forall x ensures x in ids <==> exists i :: 0 <= i < |meds| && key(meds[i]) == Some(k) && meds[i].id == Some(x) {
          assert x in ids <==> x in Elems(IdsOf(g));
          if x in ids {
            var j :| 0 <= j < |g| && g[j].id == Some(x);
            assert g[j] in meds;
            var i :| 0 <= i < |meds| && meds[i] == g[j];
          }
          if exists i :: 0 <= i < |meds| && key(meds[i]) == Some(k) && meds[i].id == Some(x) {
            var i :| 0 <= i < |meds| && key(meds[i]) == Some(k) && meds[i].id == Some(x);
            assert meds[i] in g;
            var j :| 0 <= j < |g| && g[j] == meds[i];
            assert x in Elems(IdsOf(g));
          }
        }
      }
      Some(Entrada(ids, map c | c in cols :: FirstNonNull(g, c)))
  }

  // ---------------------------------------------------------------------------
  // The cascade
  // ---------------------------------------------------------------------------

  datatype Via = Ean1 | Ean2 | Ean3 | Reg

  /** The `match_via` label. */
  function ViaLabel(v: Via): string {
    match v
    case Ean1 => "ean1"
    case Ean2 => "ean2"
    case Ean3 => "ean3"
    case Reg => "reg"
  }

  /** The product-base key column each step looks up. */
  function ChaveMed(v: Via): Med -> Option<string> {
    match v
    case Ean1 => Ean1Key
    case Ean2 => Ean2Key
    case Ean3 => Ean3Key
    case Reg => RegKey
  }

  /** An invoice item: its barcode and registration cells and the columns
      the cascade fills (`ID_CMED_PRODUTO_LIST`, the metadata, `match_via`). */
  datatype Item = Item(
    codigoEan: Option<string>,
    codAnvisa: Option<string>,
    ids: Option<seq<string>>,
    meta: Row,
    via: Option<Via>)

  /** The item's key for a step. */
  function ChaveItem(it: Item, v: Via): Option<string> {
    if v == Reg then RegNorm(it.codAnvisa) else EanNorm(it.codigoEan)
  }

  /** `DataFrame.update`: the non-missing cells of `novo` replace the cells
      of the same columns; every other cell stays. */
  function Atualizar(velho: Row, novo: Row): (r: Row)
    ensures r.Keys == velho.Keys
    ensures forall c :: c in velho && c in novo && novo[c] != Null ==> r[c] == novo[c]
    ensures forall c :: c in velho && (c !in novo || novo[c] == Null) ==> r[c] == velho[c]
  {
    map c | c in velho :: if c in novo && novo[c] != Null then novo[c] else velho[c]
  }

  /** Updating twice with the same row updates once. */
  lemma AtualizarIdempotent(velho: Row, novo: Row)
    ensures Atualizar(Atualizar(velho, novo), novo) == Atualizar(velho, novo)
  {
  }

  /** `step_merge` on one item: an item without ids whose key the step's
      lookup knows takes the lookup's ids and metadata and the step's tag;
      any other item is left as it is. `excluir` is the "SEM GTIN" mask of
      the barcode steps. */
  function Passo(it: Item, meds: seq<Med>, v: Via, excluir: bool, cols: seq<string>): (r: Item)
    ensures it.ids.Some? ==> r == it
    ensures it.ids.None? ==> (r.ids.Some? <==>
              ChaveItem(it, v).Some? && !excluir && Lookup(meds, ChaveMed(v), ChaveItem(it, v).value, cols).Some?)
    ensures it.ids.None? && r.ids.Some? ==>
              var e := Lookup(meds, ChaveMed(v), ChaveItem(it, v).value, cols).value;
              r == it.(ids := Some(e.ids), meta := Atualizar(it.meta, e.meta), via := Some(v))
    ensures r.ids.None? ==> r == it
  {
    var key := ChaveItem(it, v);
    if it.ids.None? && key.Some? && !excluir then
      var e := Lookup(meds, ChaveMed(v), key.value, cols);
      if e.Some? then it.(ids := Some(e.value.ids), meta := Atualizar(it.meta, e.value.meta), via := Some(v))
      else it
    else it
  }

  /** Whether some product's key for step `v` is `k`, i.e. whether the
      step's lookup has a row for `k`. */
  predicate Conhece(meds: seq<Med>, v: Via, k: Option<string>) {
    k.Some? && exists i :: 0 <= i < |meds| && ChaveMed(v)(meds[i]) == k
  }

  /** The step the cascade should match through: the first of EAN1, EAN2,
      EAN3 and the registration whose lookup knows the item's key. */
  function PrimeiraVia(codigoEan: Option<string>, codAnvisa: Option<string>, meds: seq<Med>): Option<Via> {
    var ek := EanNorm(codigoEan);
    if Conhece(meds, Ean1, ek) then Some(Ean1)
    else if Conhece(meds, Ean2, ek) then Some(Ean2)
    else if Conhece(meds, Ean3, ek) then Some(Ean3)
    else if Conhece(meds, Reg, RegNorm(codAnvisa)) then Some(Reg)
    else None
  }

  /** An item before the cascade: the target columns are (re)created empty. */
  function Inicial(codigoEan: Option<string>, codAnvisa: Option<string>, cols: seq<string>): Item {
    Item(codigoEan, codAnvisa, None, map c | c in cols :: Null, None)
  }

  /** The four steps in order on one item. */
  function Cascata(codigoEan: Option<string>, codAnvisa: Option<string>, meds: seq<Med>, cols: seq<string>)
    : (r: Item)
    ensures r.codigoEan == codigoEan && r.codAnvisa == codAnvisa
  {
    var it := Inicial(codigoEan, codAnvisa, cols);
    var sg := SemGtin(codigoEan);
    var a := Passo(it, meds, Ean1, sg, cols);
    var b := Passo(a, meds, Ean2, sg, cols);
    var c := Passo(b, meds, Ean3, sg, cols);
    Passo(c, meds, Reg, false, cols)
  }

  /** The cascade tags an item with the first step whose lookup knows its
      key, and only then does it get ids: exactly the ids of the products
      sharing that key. */
  lemma CascataPrimeiraVia(codigoEan: Option<string>, codAnvisa: Option<string>, meds: seq<Med>, cols: seq<string>)
    ensures Cascata(codigoEan, codAnvisa, meds, cols).via == PrimeiraVia(codigoEan, codAnvisa, meds)
    ensures Cascata(codigoEan, codAnvisa, meds, cols).ids.Some? <==> PrimeiraVia(codigoEan, codAnvisa, meds).Some?
    ensures var r := Cascata(codigoEan, codAnvisa, meds, cols);
            r.via.Some? ==> forall x :: x in r.ids.value <==>
              exists i :: 0 <= i < |meds| && ChaveMed(r.via.value)(meds[i]) == ChaveItem(r, r.via.value)
                          && meds[i].id == Some(x)
  {
    var it := Inicial(codigoEan, codAnvisa, cols);
    var sg := SemGtin(codigoEan);
    assert sg ==> EanNorm(codigoEan) == None by {
      if sg { SemGtinSemChave(codigoEan); }
    }
    var a := Passo(it, meds, Ean1, sg, cols);
    var b := Passo(a, meds, Ean2, sg, cols);
    var c := Passo(b, meds, Ean3, sg, cols);
    var r := Passo(c, meds, Reg, false, cols);
    assert r == Cascata(codigoEan, codAnvisa, meds, cols);
    assert ChaveItem(it, Ean1) == EanNorm(codigoEan) && ChaveItem(it, Reg) == RegNorm(codAnvisa);
    assert a.codigoEan == codigoEan && b.codigoEan == codigoEan && c.codigoEan == codigoEan;
    assert c.codAnvisa == codAnvisa;
    PassoConhece(it, meds, Ean1, sg, cols);
    PassoConhece(a, meds, Ean2, sg, cols);
    PassoConhece(b, meds, Ean3, sg, cols);
    PassoConhece(c, meds, Reg, false, cols);
  }

  /** One step in terms of `Conhece`. */
  lemma PassoConhece(it: Item, meds: seq<Med>, v: Via, excluir: bool, cols: seq<string>)
    requires excluir ==> ChaveItem(it, v) == None
    ensures var r := Passo(it, meds, v, excluir, cols);
            && r.codigoEan == it.codigoEan && r.codAnvisa == it.codAnvisa
            && (it.ids.Some? ==> r == it)
            && (it.ids.None? ==> (r.ids.Some? <==> Conhece(meds, v, ChaveItem(it, v))))
            && (it.ids.None? && r.ids.Some? ==>
                  (r.via == Some(v)
                   && forall x :: x in r.ids.value <==>
                        exists i :: 0 <= i < |meds| && ChaveMed(v)(meds[i]) == ChaveItem(it, v) && meds[i].id == Some(x)))
            && (r.ids.None? ==> r == it)
  {
  }

  /** The metadata column names the base carries (`meta_cols` without the
      id). */
  function MetaCols(): seq<string> {
    ["GRUPO ANATOMICO", "PRINCIPIO ATIVO", "PRODUTO", "STATUS", "APRESENTACAO",
     "TIPO DE PRODUTO", "QUANTIDADE UNIDADES", "QUANTIDADE MG", "QUANTIDADE ML", "QUANTIDADE UI",
     "LABORATORIO", "CLASSE TERAPEUTICA", "GRUPO TERAPEUTICO", "GGREM", "EAN_1", "EAN_2", "EAN_3", "REGISTRO"]
  }

  /** The invoice items' barcode and registration cells. */
  datatype Nota = Nota(codigoEan: Option<string>, codAnvisa: Option<string>)

  /** `enriquecer_dataframe_com_cmed` over the item frame: one enriched item
      per invoice item, in order. */
  function Enriquecer(notas: seq<Nota>, meds: seq<Med>, cols: seq<string>): (r: seq<Item>)
    ensures |r| == |notas|
    ensures forall i :: 0 <= i < |r| ==> r[i].codigoEan == notas[i].codigoEan && r[i].codAnvisa == notas[i].codAnvisa
  {
    seq(|notas|, i requires 0 <= i < |notas| => Cascata(notas[i].codigoEan, notas[i].codAnvisa, meds, cols))
  }

  function EnriquecerDataframeComCmed(notas: seq<Nota>, meds: seq<Med>): seq<Item> {
    Enriquecer(notas, meds, MetaCols())
  }
}
