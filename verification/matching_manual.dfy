/** Manual matching (`src/nfe_matching_manual.py`): items the automatic
    cascade left without a product are looked up by barcode in a manually
    curated base. The base is unpivoted into one lookup entry per barcode
    (EAN_1 entries first, then EAN_2, then EAN_3; the first entry of a
    barcode wins) and an unmatched item whose normalised barcode is found
    receives the entry's metadata. */
module MatchingManual {
  import opened Wrappers
  import opened Text
  import opened Seqs
  import opened Dates
  import opened Frame
  import MatchingAnvisa

  // ---------------------------------------------------------------------------
  // Barcode keys
  // ---------------------------------------------------------------------------

  function Digitos(v: Option<string>): string { KeepDigits(v.GetOr("")) }

  /** A 14-digit code without its first digit; other codes as they are. */
  function Corta14(d: string): string { if |d| == 14 then d[1..] else d }

  /** `ean_norm` on a text cell: the digits (none: missing), a 14-digit code
      cut to its last 13, zero-padded to 13; a code still longer than 13
      digits or all zeros has no key. */
  function EanNormManual(v: Option<string>): (r: Option<string>)
    ensures r.Some? ==> |r.value| == 13 && AllDigits(r.value) && !AllZeros(r.value)
    ensures r.Some? <==> 1 <= |Digitos(v)| <= 14 && !AllZeros(Corta14(Digitos(v)))
    ensures r.Some? ==> EndsWith(r.value, Corta14(Digitos(v)))
  {
    var d := Digitos(v);
    if |d| == 0 then None
    else
      var t := Corta14(d);
      var z := ZFill(t, 13);
      MatchingAnvisa.ZFillZeros(t, 13);
      if |z| != 13 || AllZeros(z) then None else Some(z)
  }

  /** A key is its own key. */
  lemma EanNormManualIdempotent(v: Option<string>)
    requires EanNormManual(v).Some?
    ensures EanNormManual(EanNormManual(v)) == EanNormManual(v)
  {
    var k := EanNormManual(v).value;
    assert KeepDigits(k) == k && Corta14(k) == k;
    assert ZFill(k, 13) == k;
  }

  /** The manual rule extends the automatic one: where the automatic
      normaliser makes a key the manual one makes the same key, and it also
      keys the short codes (1 to 12 digits, not all zero) the automatic one
      rejects. */
  lemma ManualEstendeAutomatico(v: Option<string>)
    ensures MatchingAnvisa.EanNorm(v).Some? ==> EanNormManual(v) == MatchingAnvisa.EanNorm(v)
    ensures (1 <= |Digitos(v)| <= 12 && !AllZeros(Digitos(v))) ==>
              MatchingAnvisa.EanNorm(v).None? && EanNormManual(v).Some?
  {
    var d := Digitos(v);
    if |d| == 13 || |d| == 14 {
      assert d[|d| - 13..] == Corta14(d);
      assert ZFill(Corta14(d), 13) == Corta14(d);
    }
  }

  /** A barcode cell as the column's dtype holds it: text, a 64-bit integer,
      or a float (missing, or holding a whole number, as a barcode column
      read with blanks does). */
  datatype Celula = Texto(t: Option<string>) | Inteiro(i: int) | Flutuante(f: Option<int>)

  /** `astype("string[pyarrow]")`: an integer prints its digits, a whole
      float prints them followed by ".0", a missing float stays missing. */
  function TextoPyarrow(c: Celula): Option<string> {
    match c
    case Texto(t) => t
    case Inteiro(i) => Some(IntText(i))
    case Flutuante(f) => if f.None? then None else Some(IntText(f.value) + ".0")
  }

  /** The key of a manual-base cell as `src/nfe_matching_manual.py` computes
      it: the text rule applied to the pyarrow rendering of the cell. */
  function ChaveCelulaComoEscrito(c: Celula): Option<string> {
    EanNormManual(TextoPyarrow(c))
  }

  /** The dtype-aware rule: integers are rendered directly, floats go
      through `int64` first (missing and zero floats give no key), text goes
      through the text rule. */
  function ChaveCelula(c: Celula): (r: Option<string>)
    ensures r.Some? ==> |r.value| == 13 && AllDigits(r.value) && !AllZeros(r.value)
    ensures c.Texto? ==> r == EanNormManual(c.t)
  {
    match c
    case Texto(t) => EanNormManual(t)
    case Inteiro(i) => EanNormManual(Some(IntText(i)))
    case Flutuante(f) => if f.None? || f.value == 0 then None else EanNormManual(Some(IntText(f.value)))
  }

  /** A whole float keys exactly like the same integer, and a 13-digit
      barcode keys as itself. */
  lemma ChaveFlutuanteComoInteiro(n: int)
    ensures ChaveCelula(Flutuante(Some(n))) == ChaveCelula(Inteiro(n))
    ensures n >= 0 && |NatText(n)| == 13 ==> ChaveCelula(Inteiro(n)) == Some(NatText(n))
  {
    if n == 0 {
      assert Digitos(Some(IntText(0))) == "0";
      assert !(1 <= |Digitos(Some(IntText(0)))| <= 14 && !AllZeros(Corta14(Digitos(Some(IntText(0))))));
    }
    if n >= 0 && |NatText(n)| == 13 {
      var d := NatText(n);
      assert Digitos(Some(IntText(n))) == d;
      assert ZFill(d, 13) == d;
    }
  }

  /** The rule of `src/nfe_matching_manual.py` on a float barcode column:
      a 13-digit barcode renders as fourteen digits with its ".0", loses its
      first digit and gains a trailing zero. */
  lemma ChaveFlutuanteComoEscrito(n: nat)
    requires |NatText(n)| == 13
    ensures ChaveCelulaComoEscrito(Flutuante(Some(n))) ==
      if AllZeros(NatText(n)[1..]) then None else Some(NatText(n)[1..] + "0")
  {
    var d := NatText(n);
    var v := TextoPyarrow(Flutuante(Some(n)));
    DigitosFlutuante(n);
    EanNormQuatorze(v);
    assert Digitos(v)[1..] == d[1..] + "0";
    assert AllZeros(d[1..] + "0") <==> AllZeros(d[1..]) by {
      assert forall i :: 0 <= i < |d[1..]| ==> (d[1..] + "0")[i] == d[1..][i];
      assert (d[1..] + "0")[|d[1..]|] == '0';
    }
  }

  /** The digits of a whole float's pyarrow rendering: its own and the zero
      of ".0". */
  lemma DigitosFlutuante(n: nat)
    ensures Digitos(TextoPyarrow(Flutuante(Some(n)))) == NatText(n) + "0"
  {
    var d := NatText(n);
    assert IntText(n) == d && KeepDigits(d) == d;
    KeepDigitsAppend(d, ".0");
    assert KeepDigits(".0") == "0";
  }

  /** A fourteen-digit code keys as its last thirteen digits. */
  lemma EanNormQuatorze(v: Option<string>)
    requires |Digitos(v)| == 14
    ensures EanNormManual(v) ==
      if AllZeros(Digitos(v)[1..]) then None else Some(Digitos(v)[1..])
  {
    var t := Digitos(v)[1..];
    assert Corta14(Digitos(v)) == t;
    assert ZFill(t, 13) == t;
  }

  /** So on a float barcode column the as-written key never equals the key
      the dtype-aware rule gives, which is the barcode itself. */
  lemma ChaveFlutuanteDiverge(n: nat)
    requires |NatText(n)| == 13
    ensures ChaveCelulaComoEscrito(Flutuante(Some(n))) != ChaveCelula(Flutuante(Some(n)))
  {
    var d := NatText(n);
    ChaveFlutuanteComoEscrito(n);
    ChaveFlutuanteComoInteiro(n);
    assert ChaveCelula(Flutuante(Some(n))) == Some(d);
    if d[1..] + "0" == d {
      forall k | 0 <= k < |d| ensures d[k] == '0' {
        DeslocadoZeros(d, k);
      }
    }
  }

  /** A text equal to itself shifted left by one with a trailing zero is all
      zeros. */
  lemma {:induction false} DeslocadoZeros(d: string, k: nat)
    requires |d| >= 1 && d[1..] + "0" == d && k < |d|
    ensures d[k] == '0'
    decreases |d| - k
  {
    assert d[k] == (d[1..] + "0")[k];
    if k < |d| - 1 {
      DeslocadoZeros(d, k + 1);
    }
  }

  // ---------------------------------------------------------------------------
  // The manual lookup
  // ---------------------------------------------------------------------------

  /** A row of the manual base: its three barcode cells and its other
      columns (the names `EAN_1`, `EAN_2`, `EAN_3` excluded). */
  datatype LinhaManual = LinhaManual(ean1: Celula, ean2: Celula, ean3: Celula, outras: Row)

  /** The base, with which of `EAN_1`, `EAN_2`, `EAN_3` it has. */
  datatype BaseManual = BaseManual(tem1: bool, tem2: bool, tem3: bool, linhas: seq<LinhaManual>)

  /** A lookup entry: the key (`EAN_KEY_MANUAL`), the barcode column it came
      from (`EAN_SOURCE`, 1 to 3) and the metadata the item receives. */
  datatype Entrada = Entrada(chave: string, fonte: nat, meta: Row)

  function ChaveDe(e: Entrada): string { e.chave }

  function Tem(b: BaseManual, f: nat): bool {
    if f == 1 then b.tem1 else if f == 2 then b.tem2 else b.tem3
  }

  /** How a barcode cell becomes its key: `ChaveCelulaComoEscrito` in
      `src/nfe_matching_manual.py`, `ChaveCelula` in stage 8. */
  type Regra = Celula -> Option<string>

  /** Column `EANf_KEY` of a row (all missing when `EAN_f` is absent). */
  function Chave(b: BaseManual, ck: Regra, m: LinhaManual, f: nat): Option<string> {
    if !Tem(b, f) then None
    else ck(if f == 1 then m.ean1 else if f == 2 then m.ean2 else m.ean3)
  }

  /** The `pd.melt` block of column `EANf_KEY`, already without missing
      keys, in base order. */
  function Bloco(b: BaseManual, ck: Regra, ms: seq<LinhaManual>, f: nat, meta: LinhaManual -> Row): seq<Entrada> {
    if |ms| == 0 then []
    else
      (match Chave(b, ck, ms[0], f) case None => [] case Some(k) => [Entrada(k, f, meta(ms[0]))])
      + Bloco(b, ck, ms[1..], f, meta)
  }

  /** `melt` + `dropna` + `drop_duplicates(keep='first')` on the key. */
  function Lookup(b: BaseManual, ck: Regra, meta: LinhaManual -> Row): seq<Entrada> {
    var ms := b.linhas;
    DedupBy(Bloco(b, ck, ms, 1, meta) + Bloco(b, ck, ms, 2, meta) + Bloco(b, ck, ms, 3, meta), ChaveDe)
  }

  /** The first entry of key `k` (a left merge against distinct keys). */
  function Busca(l: seq<Entrada>, k: string): Option<Entrada> {
    var w := WithKey(l, ChaveDe, k);
    if |w| == 0 then None else Some(w[0])
  }

  /** The first row of `ms` whose column `EANf_KEY` is `k`. */
  function PrimeiraLinha(b: BaseManual, ck: Regra, ms: seq<LinhaManual>, f: nat, k: string): (r: Option<nat>)
    ensures r.Some? ==> r.value < |ms| && Chave(b, ck, ms[r.value], f) == Some(k)
                        && forall j :: 0 <= j < r.value ==> Chave(b, ck, ms[j], f) != Some(k)
    ensures r.None? <==> forall j :: 0 <= j < |ms| ==> Chave(b, ck, ms[j], f) != Some(k)
  {
    if |ms| == 0 then None
    else if Chave(b, ck, ms[0], f) == Some(k) then Some(0)
    else
      var r := PrimeiraLinha(b, ck, ms[1..], f, k);
      assert forall j :: 1 <= j < |ms| ==> ms[j] == ms[1..][j - 1];
      if r.None? then None else Some(r.value + 1)
  }

  /** The entry column `f` gives key `k`, if any: its first row. */
  function DaColuna(b: BaseManual, ck: Regra, f: nat, k: string, meta: LinhaManual -> Row): Option<Entrada> {
    match PrimeiraLinha(b, ck, b.linhas, f, k)
    case None => None
    case Some(j) => Some(Entrada(k, f, meta(b.linhas[j])))
  }

  /** What the lookup answers for `k`, stated directly: `EAN_1` before
      `EAN_2` before `EAN_3`, and within a column the first row. */
  function Esperada(b: BaseManual, ck: Regra, k: string, meta: LinhaManual -> Row): Option<Entrada> {
    if DaColuna(b, ck, 1, k, meta).Some? then DaColuna(b, ck, 1, k, meta)
    else if DaColuna(b, ck, 2, k, meta).Some? then DaColuna(b, ck, 2, k, meta)
    else DaColuna(b, ck, 3, k, meta)
  }

  /** The entry row `m` contributes to the block of column `f`. */
  function Cabeca(b: BaseManual, ck: Regra, m: LinhaManual, f: nat, meta: LinhaManual -> Row): seq<Entrada> {
    match Chave(b, ck, m, f) case None => [] case Some(k) => [Entrada(k, f, meta(m))]
  }

  lemma BlocoPasso(b: BaseManual, ck: Regra, ms: seq<LinhaManual>, f: nat, meta: LinhaManual -> Row)
    requires |ms| > 0
    ensures Bloco(b, ck, ms, f, meta) == Cabeca(b, ck, ms[0], f, meta) + Bloco(b, ck, ms[1..], f, meta)
  {
  }

  lemma CabecaBusca(b: BaseManual, ck: Regra, m: LinhaManual, f: nat, k: string, meta: LinhaManual -> Row)
    ensures Chave(b, ck, m, f) == Some(k) ==> WithKey(Cabeca(b, ck, m, f, meta), ChaveDe, k) == [Entrada(k, f, meta(m))]
    ensures Chave(b, ck, m, f) != Some(k) ==> WithKey(Cabeca(b, ck, m, f, meta), ChaveDe, k) == []
  {
    match Chave(b, ck, m, f)
    case None =>
    case Some(k') => WithKeySingle(Entrada(k', f, meta(m)), ChaveDe, k);
  }

  lemma PrimeiraLinhaPasso(b: BaseManual, ck: Regra, ms: seq<LinhaManual>, f: nat, k: string)
    requires |ms| > 0 && Chave(b, ck, ms[0], f) != Some(k)
    ensures PrimeiraLinha(b, ck, ms, f, k) ==
            (match PrimeiraLinha(b, ck, ms[1..], f, k) case None => None case Some(j) => Some(j + 1))
  {
  }

  lemma {:induction false} BlocoBusca(b: BaseManual, ck: Regra, ms: seq<LinhaManual>, f: nat, k: string, meta: LinhaManual -> Row)
    ensures Busca(Bloco(b, ck, ms, f, meta), k) ==
            (match PrimeiraLinha(b, ck, ms, f, k) case None => None case Some(j) => Some(Entrada(k, f, meta(ms[j]))))
  {
    if |ms| > 0 {
      var rest := Bloco(b, ck, ms[1..], f, meta);
      BlocoPasso(b, ck, ms, f, meta);
      BlocoBusca(b, ck, ms[1..], f, k, meta);
      WithKeyAppend(Cabeca(b, ck, ms[0], f, meta), rest, ChaveDe, k);
      CabecaBusca(b, ck, ms[0], f, k, meta);
      if Chave(b, ck, ms[0], f) != Some(k) {
        PrimeiraLinhaPasso(b, ck, ms, f, k);
        var p := PrimeiraLinha(b, ck, ms[1..], f, k);
        if p.Some? {
          assert ms[1..][p.value] == ms[p.value + 1];
        }
      }
    }
  }

  /** Each key appears once in the lookup. */
  lemma LookupChavesUnicas(b: BaseManual, ck: Regra, meta: LinhaManual -> Row)
    ensures DistinctKeys(Lookup(b, ck, meta), ChaveDe)
  {
    var ms := b.linhas;
    DedupKeys(Bloco(b, ck, ms, 1, meta) + Bloco(b, ck, ms, 2, meta) + Bloco(b, ck, ms, 3, meta), ChaveDe);
  }

  /** Deduplicating three blocks answers a key from the first block that
      has it. */
  lemma BuscaTres(b1: seq<Entrada>, b2: seq<Entrada>, b3: seq<Entrada>, k: string)
    ensures Busca(DedupBy(b1 + b2 + b3, ChaveDe), k) ==
      if Busca(b1, k).Some? then Busca(b1, k)
      else if Busca(b2, k).Some? then Busca(b2, k)
      else Busca(b3, k)
  {
    DedupWithKey(b1 + b2 + b3, ChaveDe, k);
    WithKeyAppend(b1 + b2, b3, ChaveDe, k);
    WithKeyAppend(b1, b2, ChaveDe, k);
  }

  /** The lookup answers every key as the direct statement does. */
  lemma LookupBusca(b: BaseManual, ck: Regra, k: string, meta: LinhaManual -> Row)
    ensures Busca(Lookup(b, ck, meta), k) == Esperada(b, ck, k, meta)
  {
    var ms := b.linhas;
    BuscaTres(Bloco(b, ck, ms, 1, meta), Bloco(b, ck, ms, 2, meta), Bloco(b, ck, ms, 3, meta), k);
    BlocoBusca(b, ck, ms, 1, k, meta);
    BlocoBusca(b, ck, ms, 2, k, meta);
    BlocoBusca(b, ck, ms, 3, k, meta);
  }

  /** `preparar_lookup_manual`: the metadata are the columns whose name does
      not start with "EAN". */
  function MetaManual(m: LinhaManual): (r: Row)
    ensures forall c :: c in r <==> c in m.outras && !StartsWith(c, "EAN")
    ensures forall c :: c in r ==> r[c] == m.outras[c]
  {
    map c | c in m.outras && !StartsWith(c, "EAN") :: m.outras[c]
  }

  /** `preparar_lookup_manual`: a base lacking `EAN_1`, `EAN_2` or `EAN_3`
      fails (pandas `KeyError`), which the caller treats as no lookup. */
  function PrepararLookupManual(b: BaseManual): (r: Option<seq<Entrada>>)
    ensures r.Some? <==> b.tem1 && b.tem2 && b.tem3
    ensures r.Some? ==> DistinctKeys(r.value, ChaveDe)
    ensures r.Some? ==> forall k :: Busca(r.value, k) == Esperada(b, ChaveCelulaComoEscrito, k, MetaManual)
  {
    if !(b.tem1 && b.tem2 && b.tem3) then None
    else
      LookupChavesUnicas(b, ChaveCelulaComoEscrito, MetaManual);
      assert forall k :: Busca(Lookup(b, ChaveCelulaComoEscrito, MetaManual), k) == Esperada(b, ChaveCelulaComoEscrito, k, MetaManual) by {
        forall k ensures Busca(Lookup(b, ChaveCelulaComoEscrito, MetaManual), k) == Esperada(b, ChaveCelulaComoEscrito, k, MetaManual) {
          LookupBusca(b, ChaveCelulaComoEscrito, k, MetaManual);
        }
      }
      Some(Lookup(b, ChaveCelulaComoEscrito, MetaManual))
  }

  // ---------------------------------------------------------------------------
  // The update of the invoice items
  // ---------------------------------------------------------------------------

  const Produto := "PRODUTO"
  const MatchVia := "match_via"
  const CodigoEan := "codigo_ean"
  const ChaveTemp := "_temp_ean_manual_"

  /** The item's key: `codigo_ean` is read as text. */
  function ChaveNota(r: Row): Option<string> {
    match Get(r, CodigoEan)
    case Str(s) => EanNormManual(Some(s))
    case _ => None
  }

  /** The item had no product and its key finds an entry with a product
      (the rows `dropna(subset=['PRODUTO'])` keeps after the merge). */
  predicate Sucesso(r: Row, l: seq<Entrada>) {
    Get(r, Produto) == Null && ChaveNota(r).Some?
    && Busca(l, ChaveNota(r).value).Some? && Get(Busca(l, ChaveNota(r).value).value.meta, Produto) != Null
  }

  /** The entry's metadata copied into the item's existing columns, then
      the provenance tag when the frame has `match_via`. */
  function Completar(r: Row, cols: seq<string>, e: Entrada): Row {
    var copiado := r + map c | c in e.meta && c in cols :: e.meta[c];
    if MatchVia in cols then copiado[MatchVia := Str("manual_ean")] else copiado
  }

  function AtualizarLinha(r: Row, cols: seq<string>, l: seq<Entrada>): (s: Row)
    ensures r.Keys == ColSet(cols) ==> s.Keys == ColSet(cols)
  {
    if Sucesso(r, l) then Completar(r, cols, Busca(l, ChaveNota(r).value).value) else r
  }

  /** What the update does to one item: only a successful item changes; it
      then has a product (the entry's) and, when the frame has `match_via`,
      the tag `manual_ean`. */
  lemma AtualizarLinhaEfeito(r: Row, cols: seq<string>, l: seq<Entrada>)
    requires r.Keys == ColSet(cols) && Produto in cols
    ensures !Sucesso(r, l) ==> AtualizarLinha(r, cols, l) == r
    ensures Get(AtualizarLinha(r, cols, l), Produto) != Null <==> Get(r, Produto) != Null || Sucesso(r, l)
    ensures Sucesso(r, l) && MatchVia in cols ==> AtualizarLinha(r, cols, l)[MatchVia] == Str("manual_ean")
  {
    if Sucesso(r, l) {
      var e := Busca(l, ChaveNota(r).value).value;
      assert Produto in e.meta;
    }
  }

  predicate NenhumNulo(t: Table) {
    forall i :: 0 <= i < |t.rows| ==> Get(t.rows[i], Produto) != Null
  }

  /** The cases `executar_matching_manual` returns its input untouched: no
      `PRODUTO` column, no item without product, no lookup (the base did
      not load or could not be prepared), no `codigo_ean` column. */
  predicate Intocado(t: Table, lookup: Option<seq<Entrada>>) {
    Produto !in t.cols || NenhumNulo(t) || lookup.None? || CodigoEan !in t.cols
  }

  predicate EhTemp(c: string) { c == ChaveTemp }

  /** Every item updated in place, before the temporary column goes. */
  function Atualizada(t: Table, l: seq<Entrada>): (u: Table)
    requires WellFormed(t)
    ensures WellFormed(u) && u.cols == t.cols && |u.rows| == |t.rows|
    ensures forall i :: 0 <= i < |u.rows| ==> u.rows[i] == AtualizarLinha(t.rows[i], t.cols, l)
  {
    Table(t.cols, seq(|t.rows|, i requires 0 <= i < |t.rows| => AtualizarLinha(t.rows[i], t.cols, l)))
  }

  /** `executar_matching_manual`: every item without product whose key
      finds an entry with a product takes the entry's metadata (in the
      columns it has) and the tag `manual_ean`; nothing else changes, no
      column appears, and the temporary key column is gone. */
  function Executar(t: Table, lookup: Option<seq<Entrada>>): (r: Table)
    requires WellFormed(t)
    ensures WellFormed(r) && |r.rows| == |t.rows|
    ensures Intocado(t, lookup) ==> r == t
    ensures !Intocado(t, lookup) ==> forall c :: c in r.cols <==> c in t.cols && c != ChaveTemp
    ensures !Intocado(t, lookup) ==> forall i, c :: 0 <= i < |r.rows| && c in r.cols ==>
              r.rows[i][c] == AtualizarLinha(t.rows[i], t.cols, lookup.value)[c]
  {
    if Intocado(t, lookup) then t
    else DropCols(Atualizada(t, lookup.value), EhTemp)
  }

  /** Only items without product that find an entry with a product change;
      they end with a product and the provenance tag; every other item
      keeps all its cells. */
  lemma ExecutarEfeito(t: Table, lookup: Option<seq<Entrada>>, i: nat)
    requires WellFormed(t) && i < |t.rows|
    ensures forall c :: c in Executar(t, lookup).cols ==> c in t.cols
    ensures forall c :: c in Executar(t, lookup).cols && Executar(t, lookup).rows[i][c] != t.rows[i][c] ==>
              lookup.Some? && Sucesso(t.rows[i], lookup.value)
    ensures !Intocado(t, lookup) ==>
              (Get(Executar(t, lookup).rows[i], Produto) != Null <==>
                 Get(t.rows[i], Produto) != Null || Sucesso(t.rows[i], lookup.value))
    ensures !Intocado(t, lookup) && MatchVia in t.cols && Sucesso(t.rows[i], lookup.value) ==>
              Executar(t, lookup).rows[i][MatchVia] == Str("manual_ean")
  {
    if !Intocado(t, lookup) {
      AtualizarLinhaEfeito(t.rows[i], t.cols, lookup.value);
      assert Produto in Executar(t, lookup).cols;
    }
  }

  /** A cell the matched entry does not carry, other than the tag, keeps
      its value. */
  lemma ExecutarForaDaMeta(t: Table, lookup: Option<seq<Entrada>>, i: nat, c: string)
    requires WellFormed(t) && i < |t.rows| && c in Executar(t, lookup).cols && c != MatchVia
    requires lookup.Some? && Sucesso(t.rows[i], lookup.value) ==>
               c !in Busca(lookup.value, ChaveNota(t.rows[i]).value).value.meta
    ensures Executar(t, lookup).rows[i][c] == t.rows[i][c]
  {
    if !Intocado(t, lookup) {
      assert Executar(t, lookup).rows[i][c] == AtualizarLinha(t.rows[i], t.cols, lookup.value)[c];
      AtualizarLinhaFora(t.rows[i], t.cols, lookup.value, c);
    }
  }

  lemma AtualizarLinhaFora(r: Row, cols: seq<string>, l: seq<Entrada>, c: string)
    requires c in r && c != MatchVia
    requires Sucesso(r, l) ==> c !in Busca(l, ChaveNota(r).value).value.meta
    ensures c in AtualizarLinha(r, cols, l) && AtualizarLinha(r, cols, l)[c] == r[c]
  {
  }

  /** After the step no item is a success any more: a matched item has a
      product, an unmatched one kept its product and barcode cells. */
  lemma NenhumSucessoDepois(t: Table, lookup: Option<seq<Entrada>>, i: nat)
    requires WellFormed(t) && !Intocado(t, lookup) && i < |t.rows|
    ensures !Sucesso(Executar(t, lookup).rows[i], lookup.value)
  {
    var r := Executar(t, lookup);
    ExecutarEfeito(t, lookup, i);
    if Get(t.rows[i], Produto) == Null && !Sucesso(t.rows[i], lookup.value) {
      assert CodigoEan in r.cols && Produto in r.cols;
      assert Get(r.rows[i], CodigoEan) == Get(t.rows[i], CodigoEan);
      assert Get(r.rows[i], Produto) == Get(t.rows[i], Produto);
    }
  }

  lemma AtualizadaSemSucesso(t: Table, l: seq<Entrada>)
    requires WellFormed(t)
    requires forall i :: 0 <= i < |t.rows| ==> !Sucesso(t.rows[i], l)
    ensures Atualizada(t, l) == t
  {
  }

  /** Running the step again changes nothing: the items it matched now have
      a product, and the others still find nothing. */
  lemma ExecutarIdempotente(t: Table, lookup: Option<seq<Entrada>>)
    requires WellFormed(t)
    ensures Executar(Executar(t, lookup), lookup) == Executar(t, lookup)
  {
    var r := Executar(t, lookup);
    if !Intocado(t, lookup) && !Intocado(r, lookup) {
      forall i | 0 <= i < |r.rows| ensures !Sucesso(r.rows[i], lookup.value) {
        NenhumSucessoDepois(t, lookup, i);
      }
      AtualizadaSemSucesso(r, lookup.value);
      DropColsNada(r, EhTemp);
    }
  }

  /** `limpar_colunas_temporarias`: the listed helper columns that are
      present are dropped, every other column is kept with its cells. */
  function LimparColunasTemporarias(t: Table): (r: Table)
    requires WellFormed(t)
    ensures WellFormed(r) && |r.rows| == |t.rows|
    ensures forall c :: c in r.cols <==>
              c in t.cols && c !in ["codigo_ean_original", "cod_anvisa_original", "EAN_KEY", "REG_KEY", "match_via"]
    ensures forall i, c :: 0 <= i < |r.rows| && c in r.cols ==> r.rows[i][c] == t.rows[i][c]
  {
    DropCols(t, c => c in ["codigo_ean_original", "cod_anvisa_original", "EAN_KEY", "REG_KEY", "match_via"])
  }

  // ---------------------------------------------------------------------------
  // converter_tipos_finais
  // ---------------------------------------------------------------------------

  const ColunasInteiras: seq<string> := ["ano_emissao", "mes_emissao", "ID_CMED_PRODUTO", "REGISTRO", "QUANTIDADE UNIDADES"]

  /** `pd.to_numeric(errors='coerce')` on one cell; `numero` reads a text as
      a number (missing when it is not one). */
  function ParaNumero(v: Value, numero: string -> Option<real>): Option<real> {
    match v
    case Null => None
    case Num(x) => Some(x)
    case Str(s) => numero(s)
    case Flag(b) => Some(if b then 1.0 else 0.0)
  }

  predicate Integral(x: real) { x == x.Floor as real }

  /** A number `astype('Int64')` cannot take without losing its fraction. */
  predicate Fracionario(t: Table, numero: string -> Option<real>) {
    exists i, c | 0 <= i < |t.rows| && c in ColunasInteiras ::
      c in t.cols && ParaNumero(Get(t.rows[i], c), numero).Some? && !Integral(ParaNumero(Get(t.rows[i], c), numero).value)
  }

  /** `converter_tipos_finais`: every listed column the frame has becomes a
      nullable integer (unreadable cells missing); a fractional value makes
      the cast raise. */
  function ConverterTiposFinais(t: Table, numero: string -> Option<real>): (r: Result<Table>)
    requires WellFormed(t)
    ensures r.Err? <==> Fracionario(t, numero)
    ensures r.Ok? ==> WellFormed(r.value) && r.value.cols == t.cols && |r.value.rows| == |t.rows|
    ensures r.Ok? ==> forall i, c :: 0 <= i < |t.rows| && c in t.cols && c !in ColunasInteiras ==>
              r.value.rows[i][c] == t.rows[i][c]
    ensures r.Ok? ==> forall i, c :: 0 <= i < |t.rows| && c in t.cols && c in ColunasInteiras ==>
              match ParaNumero(t.rows[i][c], numero)
              case None => r.value.rows[i][c] == Null
              case Some(x) => r.value.rows[i][c] == Num(x) && Integral(x)
  {
    if Fracionario(t, numero) then Err(CastError("cannot safely cast non-equivalent float64 to int64"))
    else
      Ok(Table(t.cols, seq(|t.rows|, i requires 0 <= i < |t.rows| =>
        map c | c in t.rows[i] :: if c in ColunasInteiras then
          (match ParaNumero(t.rows[i][c], numero) case None => Null case Some(x) => Num(x))
        else t.rows[i][c])))
  }
}
