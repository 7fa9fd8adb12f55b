/** The numeric side of presentation normalisation: how the number tokens
    of a dosage block ("2 5 MG ML", "500 MG", "9 1 MG ML BOLSA") are read as
    decimal values written with a comma. */
module ApresentacaoValores {
  import opened Wrappers
  import opened Text
  import opened Seqs
  import opened Dates

  // ---------------------------------------------------------------------------
  // Decimal formatting
  // ---------------------------------------------------------------------------

  /** `str.isdigit()`: a non-empty run of digits. */
  predicate Numeral(x: string) { |x| > 0 && AllDigits(x) }

  /** How `str(n)` writes a number: digits, no leading zero unless the
      number is zero. */
  predicate Canonico(x: string) { Numeral(x) && (x[0] == '0' ==> |x| == 1) }

  lemma NatTextCanonico(n: nat)
    ensures Canonico(NatText(n))
  {
  }

  /** A leading zero does not change the value of a digit string. */
  lemma {:induction false} ZeroAEsquerda(y: string)
    requires AllDigits(y)
    ensures DigitsValue("0" + y) == DigitsValue(y)
    decreases |y|
  {
    if |y| > 0 {
      var z := "0" + y;
      assert z[..|z| - 1] == "0" + y[..|y| - 1];
      assert z[|z| - 1] == y[|y| - 1];
      ZeroAEsquerda(y[..|y| - 1]);
    } else {
      assert "0" + y == "0";
      assert ("0")[..0] == "";
    }
  }

  /** A numeral that does not start with '0' is worth at least 1. */
  lemma {:induction false} SemZeroPositivo(x: string)
    requires Numeral(x) && x[0] != '0'
    ensures DigitsValue(x) >= 1
    decreases |x|
  {
    if |x| > 1 {
      SemZeroPositivo(x[..|x| - 1]);
    } else {
      assert x[..0] == "";
    }
  }

  /** `str` gives back a canonical numeral: printing is the inverse of
      reading on canonical text. */
  lemma {:induction false} CanonicoImpresso(x: string)
    requires Canonico(x)
    ensures NatText(DigitsValue(x)) == x
    decreases |x|
  {
    var n := |x|;
    var d := x[n - 1] as int - '0' as int;
    if n == 1 {
      assert x[..0] == "";
      assert x == [DigitChar(d)];
    } else {
      var p := x[..n - 1];
      assert p[0] == x[0];
      SemZeroPositivo(p);
      CanonicoImpresso(p);
      var v := DigitsValue(x);
      assert v == 10 * DigitsValue(p) + d;
      assert v / 10 == DigitsValue(p) && v % 10 == d;
      assert x == p + [DigitChar(d)];
    }
  }

  /** `str(int(x))` for a numeral, computed as Python's `int` reads it:
      leading zeros go, and an all-zero numeral becomes "0". The result is
      the canonical writing of the numeral's value. */
  function SemZerosEsquerda(x: string): (r: string)
    requires Numeral(x)
    ensures Canonico(r)
    ensures r == NatText(DigitsValue(x))
    decreases |x|
  {
    if |x| > 1 && x[0] == '0' then
      assert x == "0" + x[1..];
      ZeroAEsquerda(x[1..]);
      SemZerosEsquerda(x[1..])
    else
      CanonicoImpresso(x);
      x
  }

  /** The fraction test of `_fmt_decimal`: `not frac or set(frac) == {"0"}`. */
  predicate FracaoVazia(frac: Option<string>) {
    frac.None? || AllZeros(frac.value)
  }

  /** `_fmt_decimal(intpart, frac)`: the integer part is the value of
      `intpart` written canonically ("0" when it is not a numeral), and a
      fraction that is absent, empty or all zeros is dropped; otherwise the
      fraction follows a comma verbatim. */
  function FmtDecimal(intpart: string, frac: Option<string>): (r: string)
    ensures var i := if Numeral(intpart) then NatText(DigitsValue(intpart)) else "0";
            if FracaoVazia(frac) then r == i else r == i + "," + frac.value
  {
    var i := if Numeral(intpart) then SemZerosEsquerda(intpart) else "0";
    if FracaoVazia(frac) then i else i + "," + frac.value
  }

  /** A value as the parsers write it: a canonical integer part, then
      possibly a comma and a fraction of digits that are not all zeros. */
  predicate Decimal(v: string) {
    var ps := SplitOn(v, ',');
    (|ps| == 1 && Canonico(ps[0]))
    || (|ps| == 2 && Canonico(ps[0]) && Numeral(ps[1]) && !AllZeros(ps[1]))
  }

  /** Reading a formatted value back: splitting at the comma gives the
      value of the integer part and the fraction verbatim. */
  lemma FmtDecimalLido(intpart: string, frac: Option<string>)
    requires frac.Some? ==> Numeral(frac.value)
    ensures var ps := SplitOn(FmtDecimal(intpart, frac), ',');
            var v := if Numeral(intpart) then DigitsValue(intpart) else 0;
            && Numeral(ps[0]) && DigitsValue(ps[0]) == v
            && (FracaoVazia(frac) ==> |ps| == 1)
            && (!FracaoVazia(frac) ==> |ps| == 2 && ps[1] == frac.value)
  {
    var i := if Numeral(intpart) then NatText(DigitsValue(intpart)) else "0";
    var v := if Numeral(intpart) then DigitsValue(intpart) else 0;
    NatTextCanonico(v);
    NatTextRoundTrip(v);
    assert i == NatText(v);
    assert ',' !in i by {
      assert forall k :: 0 <= k < |i| ==> IsDigit(i[k]);
    }
    if FracaoVazia(frac) {
      SplitOnNoSep(i, ',');
    } else {
      var f := frac.value;
      assert ',' !in f by {
        assert forall k :: 0 <= k < |f| ==> IsDigit(f[k]);
      }
      SplitOnWordSep(i, f, ',');
      SplitOnNoSep(f, ',');
      assert i + "," + f == i + [','] + f;
    }
  }

  /** With a numeral fraction (or none), `_fmt_decimal` writes a value of
      the shape above. */
  lemma FmtDecimalDecimal(intpart: string, frac: Option<string>)
    requires frac.Some? ==> Numeral(frac.value)
    ensures Decimal(FmtDecimal(intpart, frac))
  {
    FmtDecimalLido(intpart, frac);
    var v := if Numeral(intpart) then DigitsValue(intpart) else 0;
    NatTextCanonico(v);
    var ps := SplitOn(FmtDecimal(intpart, frac), ',');
    var i := if Numeral(intpart) then NatText(DigitsValue(intpart)) else "0";
    assert ',' !in i by {
      assert forall k :: 0 <= k < |i| ==> IsDigit(i[k]);
    }
    if FracaoVazia(frac) {
      SplitOnNoSep(i, ',');
    } else {
      SplitOnWordSep(i, frac.value, ',');
      assert i + "," + frac.value == i + [','] + frac.value;
    }
    assert ps[0] == i;
  }

  // ---------------------------------------------------------------------------
  // Pairing the tokens of BOLSA and PO blocks
  // ---------------------------------------------------------------------------

  function EhNumeral(x: string): bool { Numeral(x) }

  /** `[x for x in nums if x.isdigit()]`. */
  function Digitos(nums: seq<string>): (ds: seq<string>)
    ensures forall k :: 0 <= k < |ds| ==> Numeral(ds[k])
  {
    Filter(nums, EhNumeral)
  }

  /** The arguments of one `_fmt_decimal` call: an integer part and an
      optional fraction. The parsers decide the parts; formatting them is a
      separate, uniform step. */
  datatype Parte = Parte(inteiro: string, fracao: Option<string>)

  function Formatar(ps: seq<Parte>): (r: seq<string>)
    ensures |r| == |ps|
    ensures forall k :: 0 <= k < |r| ==> r[k] == FmtDecimal(ps[k].inteiro, ps[k].fracao)
  {
    if |ps| == 0 then [] else [FmtDecimal(ps[0].inteiro, ps[0].fracao)] + Formatar(ps[1..])
  }

  /** The `k`-th value when the tokens are paired left to right: tokens
      `2k` and `2k+1` as integer part and fraction, the last one alone
      when the count is odd. */
  function Par(ds: seq<string>, k: nat): Parte
    requires 2 * k < |ds|
  {
    Parte(ds[2 * k], if 2 * k + 1 < |ds| then Some(ds[2 * k + 1]) else None)
  }

  /** The loop of `_parse_values_po_g` from token `2j`: a token and the
      next digit token form one value; a token with no digit token after it
      stands alone. */
  function PoGDe(ds: seq<string>, j: nat): (r: seq<Parte>)
    requires forall k :: 0 <= k < |ds| ==> Numeral(ds[k])
    ensures 2 * j <= |ds| ==> |ds| <= 2 * (j + |r|) <= |ds| + 1
    ensures forall k :: 0 <= k < |r| ==> 2 * (j + k) < |ds| && r[k] == Par(ds, j + k)
    decreases |ds| - 2 * j
  {
    var i := 2 * j;
    if i >= |ds| then []
    else if i + 1 < |ds| && Numeral(ds[i + 1]) then [Parte(ds[i], Some(ds[i + 1]))] + PoGDe(ds, j + 1)
    else [Parte(ds[i], None)]
  }

  /** The values `_parse_values_po_g` formats: non-digit tokens are dropped
      and the rest are paired greedily left to right, so there are ceil(n/2)
      values for n digit tokens. */
  function PartesPoG(nums: seq<string>): (r: seq<Parte>)
    ensures var ds := Digitos(nums);
            && |r| == (|ds| + 1) / 2
            && forall k :: 0 <= k < |r| ==> 2 * k < |ds| && r[k] == Par(ds, k)
  {
    PoGDe(Digitos(nums), 0)
  }

  function ParseValuesPoG(nums: seq<string>): seq<string> {
    Formatar(PartesPoG(nums))
  }

  /** The even branch of `_parse_values_bolsa`: `for i in range(0, n, 2)`
      from `i = 2j`. */
  function ParesEsquerda(ds: seq<string>, j: nat): (r: seq<Parte>)
    requires |ds| % 2 == 0
    ensures 2 * j <= |ds| ==> |ds| == 2 * (j + |r|)
    ensures forall k :: 0 <= k < |r| ==> 2 * (j + k) + 1 < |ds| && r[k] == Par(ds, j + k)
    decreases |ds| - 2 * j
  {
    var i := 2 * j;
    if i >= |ds| then [] else [Parte(ds[i], Some(ds[i + 1]))] + ParesEsquerda(ds, j + 1)
  }

  /** The odd branch of `_parse_values_bolsa` up to index `2h`: while
      `i > 0`, tokens `i-1` and `i` form a value. The source appends these
      from the right and reverses the list at the end; building it by
      prepending gives the same list. */
  function ParesDireita(ds: seq<string>, h: nat): (r: seq<Parte>)
    requires 2 * h < |ds|
    ensures |r| == h
    ensures forall m :: 0 <= m < h ==> r[m] == Parte(ds[2 * m + 1], Some(ds[2 * m + 2]))
  {
    if h == 0 then [] else ParesDireita(ds, h - 1) + [Parte(ds[2 * h - 1], Some(ds[2 * h]))]
  }

  /** The odd branch of `_parse_values_bolsa`: the index starts at the
      last token and, the count being odd, ends at 0, so the first token is
      left alone before the pairs. */
  function BolsaImpar(ds: seq<string>): (r: seq<Parte>)
    requires |ds| % 2 == 1
    ensures 2 * |r| == |ds| + 1
    ensures r[0] == Parte(ds[0], None)
    ensures forall k :: 1 <= k < |r| ==> 2 * k < |ds| && r[k] == Parte(ds[2 * k - 1], Some(ds[2 * k]))
  {
    var ps := ParesDireita(ds, (|ds| - 1) / 2);
    var r := [Parte(ds[0], None)] + ps;
    assert forall k :: 1 <= k < |r| ==> r[k] == ps[k - 1];
    r
  }

  /** The values `_parse_values_bolsa` formats: non-digit tokens are
      dropped; an even count is paired left to right; an odd count keeps the
      first token alone and pairs the others from the right, the values kept
      in text order. There are ceil(n/2) values for n digit tokens. */
  function PartesBolsa(nums: seq<string>): (r: seq<Parte>)
    ensures var ds := Digitos(nums);
            && |r| == (|ds| + 1) / 2
            && (|ds| % 2 == 0 ==> forall k :: 0 <= k < |r| ==> 2 * k + 1 < |ds| && r[k] == Par(ds, k))
            && (|ds| % 2 == 1 ==>
                  && r[0] == Parte(ds[0], None)
                  && forall k :: 1 <= k < |r| ==> 2 * k < |ds| && r[k] == Parte(ds[2 * k - 1], Some(ds[2 * k])))
  {
    var ds := Digitos(nums);
    if |ds| == 0 then []
    else if |ds| % 2 == 0 then ParesEsquerda(ds, 0)
    else BolsaImpar(ds)
  }

  function ParseValuesBolsa(nums: seq<string>): seq<string> {
    Formatar(PartesBolsa(nums))
  }

  lemma ParesIguais(ds: seq<string>)
    requires |ds| % 2 == 0
    requires forall k :: 0 <= k < |ds| ==> Numeral(ds[k])
    ensures ParesEsquerda(ds, 0) == PoGDe(ds, 0)
  {
    MesmosPares(ds, ParesEsquerda(ds, 0), PoGDe(ds, 0));
  }

  /** Two lists of the token pairs of an even count, both as long as the
      pairs, are the same list. */
  lemma MesmosPares(ds: seq<string>, a: seq<Parte>, b: seq<Parte>)
    requires |ds| % 2 == 0 && |ds| == 2 * |a| && |ds| <= 2 * |b| <= |ds| + 1
    requires forall k :: 0 <= k < |a| ==> a[k] == Par(ds, k)
    requires forall k :: 0 <= k < |b| ==> b[k] == Par(ds, k)
    ensures a == b
  {
    assert |a| == |b|;
    assert forall k :: 0 <= k < |a| ==> a[k] == b[k];
  }

  lemma ImparComoPo(ds: seq<string>)
    requires |ds| % 2 == 1
    requires forall k :: 0 <= k < |ds| ==> Numeral(ds[k])
    ensures BolsaImpar(ds) == [Parte(ds[0], None)] + PoGDe(ds[1..], 0)
  {
    var t := ds[1..];
    var a := BolsaImpar(ds);
    var p := PoGDe(t, 0);
    var b := [Parte(ds[0], None)] + p;
    assert 2 * |p| == |t|;
    forall k | 1 <= k < |a|
      ensures a[k] == b[k]
    {
      assert b[k] == p[k - 1] == Par(t, k - 1);
      assert t[2 * (k - 1)] == ds[2 * k - 1] && t[2 * (k - 1) + 1] == ds[2 * k];
    }
  }

  /** BOLSA and PO pairing agree on an even count; on an odd count BOLSA
      pairs everything after the first token the way PO pairs it. */
  lemma BolsaEPo(nums: seq<string>)
    ensures var ds := Digitos(nums);
            && (|ds| % 2 == 0 ==> PartesBolsa(nums) == PartesPoG(nums))
            && (|ds| % 2 == 1 ==> PartesBolsa(nums) == [Parte(ds[0], None)] + PartesPoG(ds[1..]))
  {
    var ds := Digitos(nums);
    if |ds| % 2 == 1 {
      var t := ds[1..];
      FilterAll(t, EhNumeral);
      assert Digitos(t) == t;
      ImparComoPo(ds);
    } else if |ds| > 0 {
      ParesIguais(ds);
    }
  }

  /** `|Digitos(nums)|` is the number of digit tokens. */
  lemma {:induction false} ContaDigitos(nums: seq<string>)
    ensures |Digitos(nums)| == Count(nums, EhNumeral)
  {
    if |nums| > 0 {
      ContaDigitos(nums[1..]);
    }
  }

  // ---------------------------------------------------------------------------
  // `_parse_values`
  // ---------------------------------------------------------------------------

  /** What `_parse_values` decides with: the block's units and the flags of
      the whole presentation. */
  datatype Contexto = Contexto(u1: string, u2: Option<string>, composto: bool, bolsa: bool, po: bool)

  /** `dual_unit = bool(u2)`. */
  predicate Dupla(c: Contexto) { c.u2.Some? && c.u2.value != "" }

  predicate EhMgMl(c: Contexto) { Dupla(c) && c.u1 == "MG" && c.u2 == Some("ML") }

  predicate EhMgG(c: Contexto) { Dupla(c) && c.u1 == "MG" && c.u2 == Some("G") }

  /** A fraction is a digit run or absent. */
  predicate FracaoNumeral(p: Parte) { p.fracao.Some? ==> Numeral(p.fracao.value) }

  /** One turn of the main loop of `_parse_values`, for the digit token
      `a = nums[i]`: the arguments of the value it appends and the index
      the next turn starts from. */
  datatype Passo = Passo(parte: Parte, prox: nat)

  function Vazio(): Option<string> { None }

  /** The branches of the main loop (lines 242-284 of the source):
      composite MG/ML and MG/G blocks take a short second token as the
      fraction; otherwise a one-digit MG token takes a three-digit one; a
      "10" after a longer composite MG token is left alone; a zero integer
      part takes up to five digits (or, for composite G, a 3-4 digit token
      is the value itself); any other token takes a one- or two-digit
      fraction. `str(int(cand))` is what `_fmt_decimal(cand, None)`
      writes, so that branch appends the part `(cand, None)`. */
  function PassoDe(nums: seq<string>, i: nat, c: Contexto): (p: Passo)
    requires i < |nums| && Numeral(nums[i])
    ensures i + 1 <= p.prox <= i + 2 && p.prox <= |nums|
    ensures FracaoNumeral(p.parte)
    ensures p.parte.inteiro == nums[i] || (p.prox == i + 2 && p.parte == Parte(nums[i + 1], None))
    ensures p.prox == i + 2 ==> Numeral(nums[i + 1])
    ensures p.parte.fracao.Some? ==> p.prox == i + 2 && StartsWith(nums[i + 1], p.parte.fracao.value)
  {
    var a := nums[i];
    var j := i + 1;
    var n := |nums|;
    var proximo := j < n && Numeral(nums[j]);
    if c.composto && Dupla(c) then
      if EhMgMl(c) && proximo && |a| == 1 && 1 <= |nums[j]| <= 3 then
        var b := nums[j];
        var f := if |b| <= 2 then b else b[..2];
        assert b[..|f|] == f;
        Passo(Parte(a, Some(f)), j + 1)
      else if EhMgMl(c) && proximo && |a| >= 2 && 1 <= |nums[j]| <= 2 && nums[j] != "10" then
        Passo(Parte(a, Some(nums[j])), j + 1)
      else if EhMgG(c) && proximo && 1 <= |nums[j]| <= 2 then
        Passo(Parte(a, Some(nums[j])), j + 1)
      else Passo(Parte(a, Vazio()), j)
    else if !Dupla(c) && c.u1 == "MG" && |a| == 1 && proximo && |nums[j]| == 3 then
      Passo(Parte(a, Some(nums[j])), j + 1)
    else if !Dupla(c) && c.u1 == "MG" && c.composto && j < n && nums[j] == "10" && |a| >= 2 then
      Passo(Parte(a, Vazio()), j)
    else if AllZeros(a) then
      if proximo && c.composto && !Dupla(c) && c.u1 == "G" && 3 <= |nums[j]| <= 4 then
        Passo(Parte(nums[j], Vazio()), j + 1)
      else if proximo && 1 <= |nums[j]| <= 5 then
        Passo(Parte(a, Some(nums[j])), j + 1)
      else Passo(Parte(a, Vazio()), j)
    else if proximo && 1 <= |nums[j]| <= 2 then
      if nums[j] == "0" && j + 1 < n && Numeral(nums[j + 1]) then
        Passo(Parte(a, Some("0")), j + 1)
      else
        Passo(Parte(a, Some(nums[j])), j + 1)
    else Passo(Parte(a, Vazio()), j)
  }

  /** The main loop of `_parse_values` from index `i`: a token that is not
      a digit run is skipped; every digit token starts one value, which may
      consume the token after it. So there are at least half as many values
      as digit tokens, and at most as many. */
  function Laco(nums: seq<string>, i: nat, c: Contexto): (r: seq<Parte>)
    requires i <= |nums|
    ensures |r| <= Count(nums[i..], EhNumeral) <= 2 * |r|
    ensures forall k :: 0 <= k < |r| ==> FracaoNumeral(r[k]) && Numeral(r[k].inteiro)
    decreases |nums| - i
  {
    if i == |nums| then []
    else
      assert nums[i..][1..] == nums[i + 1..];
      if !Numeral(nums[i]) then Laco(nums, i + 1, c)
      else
        var p := PassoDe(nums, i, c);
        var t := Laco(nums, p.prox, c);
        if p.prox == i + 2 then
          assert nums[i + 1..][1..] == nums[i + 2..];
          [p.parte] + t
        else
          [p.parte] + t
  }

  /** `''.join(nums)`. */
  function Juntar(nums: seq<string>): string { Join(nums, "") }

  /** `any(len(n) >= 4 for n in nums)`. */
  predicate AlgumLongo(nums: seq<string>) { exists k :: 0 <= k < |nums| && |nums[k]| >= 4 }

  /** `_parse_values`: BOLSA pairing only for composite-unit MG/ML blocks
      of a BOLSA presentation, PO pairing only for single-unit G blocks of a
      PO presentation, UI tokens kept as they are when there are several and
      one has four digits or more (otherwise run together into one value),
      and the main loop for everything else. */
  function ParseValues(nums: seq<string>, c: Contexto): (r: seq<string>)
    ensures c.bolsa && EhMgMl(c) ==> r == ParseValuesBolsa(nums)
    ensures !(c.bolsa && EhMgMl(c)) && c.po && !Dupla(c) && c.u1 == "G" ==> r == ParseValuesPoG(nums)
    ensures !(c.bolsa && EhMgMl(c)) && !(c.po && !Dupla(c) && c.u1 == "G") && c.u1 == "UI" ==>
              r == (if |nums| > 1 && AlgumLongo(nums) then nums else [Juntar(nums)])
    ensures !(c.bolsa && EhMgMl(c)) && !(c.po && !Dupla(c) && c.u1 == "G") && c.u1 != "UI" ==>
              r == Formatar(Laco(nums, 0, c))
    ensures c.u1 != "UI" ==>
              (forall k :: 0 <= k < |r| ==> Decimal(r[k])) && |r| <= Count(nums, EhNumeral) <= 2 * |r|
    ensures c.u1 == "UI" ==> Join(r, "") == Join(nums, "") && (r == nums || |r| == 1)
  {
    ContaDigitos(nums);
    if c.bolsa && Dupla(c) && c.u1 == "MG" && c.u2 == Some("ML") then
      PartesBolsaNumerais(nums);
      FormatarDecimal(PartesBolsa(nums));
      ParseValuesBolsa(nums)
    else if c.po && !Dupla(c) && c.u1 == "G" then
      PartesPoGNumerais(nums);
      FormatarDecimal(PartesPoG(nums));
      ParseValuesPoG(nums)
    else if c.u1 == "UI" then
      if |nums| > 1 && AlgumLongo(nums) then nums else [Juntar(nums)]
    else
      assert nums[0..] == nums;
      FormatarDecimal(Laco(nums, 0, c));
      Formatar(Laco(nums, 0, c))
  }

  /** Outside UI blocks every value is a canonical decimal, and the number
      of values lies between half the digit tokens and all of them. */
  lemma ValoresDecimais(nums: seq<string>, c: Contexto)
    requires c.u1 != "UI"
    ensures var r := ParseValues(nums, c);
            && (forall k :: 0 <= k < |r| ==> Decimal(r[k]))
            && |r| <= Count(nums, EhNumeral) <= 2 * |r|
  {
    ContaDigitos(nums);
    var ps: seq<Parte>;
    if c.bolsa && EhMgMl(c) {
      ps := PartesBolsa(nums);
      PartesBolsaNumerais(nums);
    } else if c.po && !Dupla(c) && c.u1 == "G" {
      ps := PartesPoG(nums);
      PartesPoGNumerais(nums);
    } else {
      assert nums[0..] == nums;
      ps := Laco(nums, 0, c);
    }
    assert ParseValues(nums, c) == Formatar(ps);
    FormatarDecimal(ps);
  }

  lemma PartesBolsaNumerais(nums: seq<string>)
    ensures var ps := PartesBolsa(nums);
            && (forall k :: 0 <= k < |ps| ==> FracaoNumeral(ps[k]))
            && |ps| <= |Digitos(nums)| <= 2 * |ps|
  {
    var ps := PartesBolsa(nums);
    var ds := Digitos(nums);
    forall k | 0 <= k < |ps|
      ensures FracaoNumeral(ps[k])
    {
      if |ds| % 2 == 1 && k >= 1 {
        assert ps[k].fracao == Some(ds[2 * k]);
      }
    }
  }

  lemma PartesPoGNumerais(nums: seq<string>)
    ensures var ps := PartesPoG(nums);
            && (forall k :: 0 <= k < |ps| ==> FracaoNumeral(ps[k]))
            && |ps| <= |Digitos(nums)| <= 2 * |ps|
  {
    var ps := PartesPoG(nums);
    var ds := Digitos(nums);
    forall k | 0 <= k < |ps|
      ensures FracaoNumeral(ps[k])
    {
      assert ps[k] == Par(ds, k);
    }
  }

  /** Formatting parts whose fractions are digit runs gives canonical
      decimals. */
  lemma FormatarDecimal(ps: seq<Parte>)
    requires forall k :: 0 <= k < |ps| ==> FracaoNumeral(ps[k])
    ensures forall k :: 0 <= k < |ps| ==> Decimal(Formatar(ps)[k])
  {
    forall k | 0 <= k < |ps|
      ensures Decimal(Formatar(ps)[k])
    {
      FmtDecimalDecimal(ps[k].inteiro, ps[k].fracao);
    }
  }
}
