/** Government-sphere classification of invoice recipients
    (`nfe_etapa20_classificacao_esfera.py`): a left join on the cleaned CNPJ,
    removal of excluded recipients, manual overrides (municipal = 1, then
    estadual = 2) and a default of 1. */
module Esfera {
  import opened Wrappers
  import opened Text
  import opened Seqs

  /** `_normalize`: missing becomes "", then trimmed and upper-cased. */
  function Normalize(v: Option<string>): string {
    Upper(Strip(v.GetOr("")))
  }

  /** The join key: the normalised text without non-digits, left-padded
      with zeros to 14 characters (longer keys are kept whole). */
  function CnpjKey(v: Option<string>): string {
    ZFill(KeepDigits(Normalize(v)), 14)
  }

  /** The key is all digits, at least 14 long, and ends with the digits of
      the normalised text (the whole key when those are 14 or more). */
  lemma CnpjKeyShape(v: Option<string>)
    ensures AllDigits(CnpjKey(v)) && |CnpjKey(v)| >= 14
    ensures EndsWith(CnpjKey(v), KeepDigits(Normalize(v)))
    ensures |KeepDigits(Normalize(v))| >= 14 ==> CnpjKey(v) == KeepDigits(Normalize(v))
    ensures Normalize(v) == Upper(Normalize(v)) && (v.None? ==> Normalize(v) == "")
  {
    UpperIsUpper(Strip(v.GetOr("")));
  }

  /** A missing CNPJ on either side gives the all-zero key, so missing
      CNPJs join with each other. */
  lemma MissingKeysJoin()
    ensures CnpjKey(None) == Repeat('0', 14)
  {
    assert Normalize(None) == "";
  }

  /** The key does not depend on punctuation: re-keying a key keeps it. */
  lemma CnpjKeyIdempotent(v: Option<string>)
    ensures CnpjKey(Some(CnpjKey(v))) == CnpjKey(v)
  {
    var k := CnpjKey(v);
    CnpjKeyShape(v);
    DigitsNormalizeFixed(k);
    KeepDigitsId(k);
    ZFillLong(k, 14);
  }

  lemma DigitsNormalizeFixed(k: string)
    requires AllDigits(k)
    ensures Normalize(Some(k)) == k
  {
    StripNoSpace(k);
    UpperDigits(k);
  }

  lemma UpperDigits(k: string)
    requires AllDigits(k)
    ensures Upper(k) == k
  {
  }

  lemma KeepDigitsId(k: string)
    requires AllDigits(k)
    ensures KeepDigits(k) == k
  {
  }

  lemma ZFillLong(k: string, n: nat)
    requires |k| >= n
    ensures ZFill(k, n) == k
  {
  }

  datatype Destinatario = Destinatario(
    cpfCnpj: Option<string>,
    nomeFantasia: Option<string>,
    razaoSocial: Option<string>)

  /** A row of the sphere table (read with every column as text). */
  datatype EsferaLinha = EsferaLinha(cnpj: Option<string>, idEsfera: Option<string>)

  /** The name lists the classification consults, matched against the
      normalised `NOME_FANTASIA` and `RAZAO_SOCIAL`. */
  datatype Listas = Listas(
    excluirFantasia: set<string>,
    excluirRazao: set<string>,
    municipalFantasia: set<string>,
    municipalRazao: set<string>,
    estadualRazao: set<string>)

  /** The lists the module defines. */
  function ListasFonte(): Listas {
    Listas(
      {"HOSPITAL DE GUARNICAO DE JOAO PESSOA", "BASE ADMINISTRATIVA DA GUARNICAO DE JOAO PESSOA"},
      {"FUNDACAO PARQUE TECNOLOGICO DA PARAIBA", "INSTITUTO DOS CEGOS DA PARAIBA ADALGISA CUNHA",
       "ESPACO CIDADANIA E OPORTUNIDADES SOCIAIS"},
      {"FARMADANTAS", "INTERVENCAO PUBLICA", "PREFEITURA MUNICIPAL DE TRIUNFO"},
      {"INSTITUTO ACQUA - ACAO, CIDADANIA, QUALIDADE URBANA E AMBIENTAL",
       "MUNICIPIO DE QUEIMADAS", "MUNICIPIO DE SANTA LUZIA", "FUNDO MUNICIPAL DE SAUDE",
       "HELIOSMAN BIDO DA COSTA", "MARIA JOSENE DE ARRUDA ANDRADE",
       "DIAS COMERCIO DE PRODUTOS FARMACEUTICOS LTDA", "F. ECONOMICA LTDA",
       "VIDA NATURALIS COMERCIO ATACADISTA LTDA", "ENEIDE ALVARENGA TERTO VIEIRA RAMALHO",
       "PAULO DOUGLAS DE AZEVEDO TEOTONIO LTDA", "MARIA JOSE DE ARAUJO SILVA CUNHA",
       "CONGREGACAO DAS IRMAS DOS POBRES DE SANTA CATARINA DE SENA - PROVINCIA SAGRADO CORACAO DE JESUS"},
      {"CRUZ VERMELHA BRASILEIRA FILIAL DO ESTADO DO RIO GRANDE DO SUL"})
  }

  predicate Excluido(l: Listas, d: Destinatario) {
    Normalize(d.nomeFantasia) in l.excluirFantasia || Normalize(d.razaoSocial) in l.excluirRazao
  }

  predicate Estadual(l: Listas, d: Destinatario) { Normalize(d.razaoSocial) in l.estadualRazao }

  predicate Municipal(l: Listas, d: Destinatario) {
    Normalize(d.nomeFantasia) in l.municipalFantasia || Normalize(d.razaoSocial) in l.municipalRazao
  }

  /** A joined row: the recipient and the `ID_ESFERA` text the join gave. */
  datatype Juncao = Juncao(dest: Destinatario, idEsfera: Option<string>)

  function DestKey(d: Destinatario): string { CnpjKey(d.cpfCnpj) }

  function LinhaKey(e: EsferaLinha): string { CnpjKey(e.cnpj) }

  /** A left merge of recipients with table rows on the given keys: one row
      per matching table row, in table order, or one row with a missing id
      when nothing matches. */
  function JuntarPor(ds: seq<Destinatario>, dkey: Destinatario -> string,
                     tabela: seq<EsferaLinha>, tkey: EsferaLinha -> string): seq<Juncao>
  {
    if |ds| == 0 then []
    else
      var ms := WithKey(tabela, tkey, dkey(ds[0]));
      (if |ms| == 0 then [Juncao(ds[0], None)]
       else seq(|ms|, i requires 0 <= i < |ms| => Juncao(ds[0], ms[i].idEsfera)))
      + JuntarPor(ds[1..], dkey, tabela, tkey)
  }

  /** `df.merge(tabela, left_on=_CPF_CNPJ_KEY, right_on=_CNPJ_KEY, how='left')`. */
  function Juntar(ds: seq<Destinatario>, tabela: seq<EsferaLinha>): seq<Juncao> {
    JuntarPor(ds, DestKey, tabela, LinhaKey)
  }

  /** The value an override leaves in `ID_ESFERA`, before numeric coercion. */
  datatype Id = Texto(s: Option<string>) | Fixo(n: int)

  /** Municipal overrides, then estadual ones (which win on conflict). */
  function Sobrescrever(l: Listas, j: Juncao): (r: Id)
    ensures Estadual(l, j.dest) ==> r == Fixo(2)
    ensures !Estadual(l, j.dest) && Municipal(l, j.dest) ==> r == Fixo(1)
    ensures !Estadual(l, j.dest) && !Municipal(l, j.dest) ==> r == Texto(j.idEsfera)
  {
    var v := if Normalize(j.dest.nomeFantasia) in l.municipalFantasia then Fixo(1) else Texto(j.idEsfera);
    var v := if Normalize(j.dest.razaoSocial) in l.municipalRazao then Fixo(1) else v;
    if Normalize(j.dest.razaoSocial) in l.estadualRazao then Fixo(2) else v
  }

  predicate IsInteger(x: real) { x == x.Floor as real }

  /** `to_numeric(errors='coerce')`, `fillna(1)` and the cast to a nullable
      integer. `parse` is pandas' number parser; a non-integral value makes
      the cast raise. */
  function IdFinal(v: Id, parse: string -> Option<real>): (r: Result<int>)
    ensures v.Fixo? ==> r == Ok(v.n)
    ensures v.Texto? && (v.s.None? || parse(v.s.value).None?) ==> r == Ok(1)
    ensures v.Texto? && v.s.Some? && parse(v.s.value).Some? ==>
              (r.Ok? <==> IsInteger(parse(v.s.value).value))
              && (r.Ok? ==> r.value as real == parse(v.s.value).value)
  {
    match v
    case Fixo(n) => Ok(n)
    case Texto(s) =>
      if s.None? then Ok(1)
      else match parse(s.value)
        case None => Ok(1)
        case Some(x) => if IsInteger(x) then Ok(x.Floor) else Err(CastError("cannot cast to Int64"))
  }

  datatype Classificado = Classificado(dest: Destinatario, idEsfera: int)

  /** The numeric `ID_ESFERA` of every row; the first failing cast fails
      the whole column. */
  function Finalizar(l: Listas, js: seq<Juncao>, parse: string -> Option<real>): (r: Result<seq<Classificado>>)
    ensures r.Ok? ==> |r.value| == |js|
    ensures r.Ok? ==> forall i :: 0 <= i < |js| ==>
              r.value[i].dest == js[i].dest && IdFinal(Sobrescrever(l, js[i]), parse) == Ok(r.value[i].idEsfera)
    ensures r.Err? <==> exists i :: 0 <= i < |js| && IdFinal(Sobrescrever(l, js[i]), parse).Err?
  {
    if |js| == 0 then Ok([])
    else
      var head := IdFinal(Sobrescrever(l, js[0]), parse);
      var tail := Finalizar(l, js[1..], parse);
      assert forall i :: 1 <= i < |js| ==> js[i] == js[1..][i - 1];
      if head.Err? then Err(head.error)
      else if tail.Err? then Err(tail.error)
      else Ok([Classificado(js[0].dest, head.value)] + tail.value)
  }

  /** The exclusion mask `mask_nf & mask_rs`, on recipients and on joined rows. */
  function NaoExcluido(l: Listas): Destinatario -> bool {
    (d: Destinatario) => !Excluido(l, d)
  }

  function JuncaoMantida(l: Listas): Juncao -> bool {
    (j: Juncao) => !Excluido(l, j.dest)
  }

  /** The joined rows that survive the exclusion filter, in order. */
  function Mantidos(l: Listas, ds: seq<Destinatario>, tabela: seq<EsferaLinha>): seq<Juncao> {
    Filter(Juntar(ds, tabela), JuncaoMantida(l))
  }

  /** `classificar(df, tabela_esfera)` with the name lists `l`: every joined
      row that is not excluded comes out, in order, with the id its override
      and the numeric cast give it; the cast of the column fails exactly
      when one of those rows fails it. So no excluded recipient survives, an
      estadual one is 2, a municipal one (not estadual) is 1, and a
      recipient on no list keeps the table's id, or 1 when there is none. */
  function ClassificarCom(l: Listas, ds: seq<Destinatario>, tabela: seq<EsferaLinha>,
                          parse: string -> Option<real>): (r: Result<seq<Classificado>>)
    ensures var js := Mantidos(l, ds, tabela);
            r.Ok? ==> |r.value| == |js| && forall i :: 0 <= i < |js| ==>
              r.value[i].dest == js[i].dest && IdFinal(Sobrescrever(l, js[i]), parse) == Ok(r.value[i].idEsfera)
    ensures var js := Mantidos(l, ds, tabela);
            r.Err? <==> exists i :: 0 <= i < |js| && IdFinal(Sobrescrever(l, js[i]), parse).Err?
    ensures r.Ok? ==> forall i :: 0 <= i < |r.value| ==> !Excluido(l, r.value[i].dest)
    ensures r.Ok? ==> forall i :: 0 <= i < |r.value| && Estadual(l, r.value[i].dest) ==> r.value[i].idEsfera == 2
    ensures r.Ok? ==> forall i :: 0 <= i < |r.value| ==>
              (!Estadual(l, r.value[i].dest) && Municipal(l, r.value[i].dest) ==> r.value[i].idEsfera == 1)
  {
    var js := Mantidos(l, ds, tabela);
    Finalizar(l, js, parse)
  }

  /** The `ID_ESFERA` text a left merge on keys gives a recipient with key
      `k` when the table's keys are distinct: that of the row with the key,
      missing when none has it. */
  function IdPor(tabela: seq<EsferaLinha>, tkey: EsferaLinha -> string, k: string): Option<string> {
    var ms := WithKey(tabela, tkey, k);
    if |ms| == 0 then None else ms[0].idEsfera
  }

  function IdDaTabela(tabela: seq<EsferaLinha>, d: Destinatario): Option<string> {
    IdPor(tabela, LinhaKey, DestKey(d))
  }

  /** With distinct sphere-table keys, the classification is per recipient:
      exactly the recipients on no exclusion list come out, in order, each
      with the id its override and the cast give to its table id; the cast
      fails exactly when some kept recipient's id fails it. */
  lemma ClassificarPorDestinatario(l: Listas, ds: seq<Destinatario>, tabela: seq<EsferaLinha>,
                                   parse: string -> Option<real>)
    requires DistinctKeys(tabela, LinhaKey)
    ensures var fs := Filter(ds, NaoExcluido(l)); var r := ClassificarCom(l, ds, tabela, parse);
            r.Ok? ==> |r.value| == |fs| && forall i :: 0 <= i < |fs| ==>
              r.value[i].dest == fs[i] &&
              IdFinal(Sobrescrever(l, Juncao(fs[i], IdDaTabela(tabela, fs[i]))), parse) == Ok(r.value[i].idEsfera)
    ensures var fs := Filter(ds, NaoExcluido(l)); var r := ClassificarCom(l, ds, tabela, parse);
            r.Err? <==> (exists i :: 0 <= i < |fs| &&
                           IdFinal(Sobrescrever(l, Juncao(fs[i], IdDaTabela(tabela, fs[i]))), parse).Err?)
  {
    var fs := Filter(ds, NaoExcluido(l));
    var js := Mantidos(l, ds, tabela);
    MantidosPor(ds, DestKey, tabela, LinhaKey, NaoExcluido(l), JuncaoMantida(l));
    assert forall i :: 0 <= i < |fs| ==> js[i] == Juncao(fs[i], IdDaTabela(tabela, fs[i]));
  }

  /** With distinct sphere-table keys, a kept recipient on no list gets the
      table's id for its CNPJ, or 1 when the table has no row for it or its
      id does not parse (`to_numeric(errors='coerce')` then `fillna(1)`). */
  lemma ClassificarSemLista(l: Listas, ds: seq<Destinatario>, tabela: seq<EsferaLinha>,
                            parse: string -> Option<real>)
    requires DistinctKeys(tabela, LinhaKey)
    ensures var fs := Filter(ds, NaoExcluido(l)); var r := ClassificarCom(l, ds, tabela, parse);
            r.Ok? ==> |r.value| == |fs| && forall i :: 0 <= i < |fs| && !Estadual(l, fs[i]) && !Municipal(l, fs[i]) ==>
              var t := IdDaTabela(tabela, fs[i]);
              (t.None? || parse(t.value).None? ==> r.value[i].idEsfera == 1) &&
              (t.Some? && parse(t.value).Some? ==> r.value[i].idEsfera as real == parse(t.value).value)
  {
    ClassificarPorDestinatario(l, ds, tabela, parse);
  }

  /** With distinct table keys, the joined rows a mask on their recipient
      keeps are the recipients the mask keeps, each with its table id. */
  lemma {:induction false} MantidosPor(ds: seq<Destinatario>, dkey: Destinatario -> string,
                                       tabela: seq<EsferaLinha>, tkey: EsferaLinha -> string,
                                       p: Destinatario -> bool, q: Juncao -> bool)
    requires DistinctKeys(tabela, tkey)
    requires forall j: Juncao :: q(j) == p(j.dest)
    ensures var fs := Filter(ds, p); var js := Filter(JuntarPor(ds, dkey, tabela, tkey), q);
            |js| == |fs| && forall i :: 0 <= i < |fs| ==> js[i] == Juncao(fs[i], IdPor(tabela, tkey, dkey(fs[i])))
  {
    if |ds| > 0 {
      MantidosPor(ds[1..], dkey, tabela, tkey, p, q);
      var h := Juncao(ds[0], IdPor(tabela, tkey, dkey(ds[0])));
      var rest := JuntarPor(ds[1..], dkey, tabela, tkey);
      var fr, jr := Filter(ds[1..], p), Filter(rest, q);
      JuntarPorCabeca(ds, dkey, tabela, tkey);
      FilterCons(h, rest, q);
      FilterCons(ds[0], ds[1..], p);
      assert ds == [ds[0]] + ds[1..];
      assert q(h) == p(ds[0]);
      if p(ds[0]) {
        ConsPonto(ds[0], fr, h, jr, tabela, tkey, dkey);
      }
    }
  }

  lemma ConsPonto(d: Destinatario, fr: seq<Destinatario>, h: Juncao, jr: seq<Juncao>,
                  tabela: seq<EsferaLinha>, tkey: EsferaLinha -> string, dkey: Destinatario -> string)
    requires h == Juncao(d, IdPor(tabela, tkey, dkey(d)))
    requires |jr| == |fr| && forall i :: 0 <= i < |fr| ==> jr[i] == Juncao(fr[i], IdPor(tabela, tkey, dkey(fr[i])))
    ensures var fs, js := [d] + fr, [h] + jr;
            |js| == |fs| && forall i :: 0 <= i < |fs| ==> js[i] == Juncao(fs[i], IdPor(tabela, tkey, dkey(fs[i])))
  {
    var fs, js := [d] + fr, [h] + jr;
    forall i | 1 <= i < |fs| ensures js[i] == Juncao(fs[i], IdPor(tabela, tkey, dkey(fs[i]))) {
      assert js[i] == jr[i - 1] && fs[i] == fr[i - 1];
    }
  }

  /** With distinct table keys, the merge gives the first recipient one row
      carrying its table id, followed by the merge of the rest. */
  lemma JuntarPorCabeca(ds: seq<Destinatario>, dkey: Destinatario -> string,
                        tabela: seq<EsferaLinha>, tkey: EsferaLinha -> string)
    requires |ds| > 0 && DistinctKeys(tabela, tkey)
    ensures JuntarPor(ds, dkey, tabela, tkey)
            == [Juncao(ds[0], IdPor(tabela, tkey, dkey(ds[0])))] + JuntarPor(ds[1..], dkey, tabela, tkey)
  {
    AtMostOneWithKey(tabela, tkey, dkey(ds[0]));
    var ms := WithKey(tabela, tkey, dkey(ds[0]));
    if |ms| > 0 {
      assert seq(|ms|, i requires 0 <= i < |ms| => Juncao(ds[0], ms[i].idEsfera)) == [Juncao(ds[0], ms[0].idEsfera)];
    }
  }

  /** `classificar(df, tabela_esfera)` with the module's own lists. */
  function Classificar(ds: seq<Destinatario>, tabela: seq<EsferaLinha>, parse: string -> Option<real>)
    : Result<seq<Classificado>>
  {
    ClassificarCom(ListasFonte(), ds, tabela, parse)
  }

  /** With a sphere table whose keys are distinct, the join adds no rows:
      one joined row per recipient, in order. */
  lemma JuntarUnico(ds: seq<Destinatario>, tabela: seq<EsferaLinha>)
    requires DistinctKeys(tabela, LinhaKey)
    ensures |Juntar(ds, tabela)| == |ds|
    ensures forall i :: 0 <= i < |ds| ==> Juntar(ds, tabela)[i].dest == ds[i]
  {
    JuntarPorUnico(ds, DestKey, tabela, LinhaKey);
  }

  lemma {:induction false} JuntarPorUnico(ds: seq<Destinatario>, dkey: Destinatario -> string,
                                          tabela: seq<EsferaLinha>, tkey: EsferaLinha -> string)
    requires DistinctKeys(tabela, tkey)
    ensures |JuntarPor(ds, dkey, tabela, tkey)| == |ds|
    ensures forall i :: 0 <= i < |ds| ==> JuntarPor(ds, dkey, tabela, tkey)[i].dest == ds[i]
  {
    if |ds| > 0 {
      JuntarPorUnico(ds[1..], dkey, tabela, tkey);
      var h := JuntarHead(ds, dkey, tabela, tkey);
      var r := JuntarPor(ds, dkey, tabela, tkey);
      var rest := JuntarPor(ds[1..], dkey, tabela, tkey);
      forall i | 1 <= i < |ds| ensures r[i].dest == ds[i] {
        assert r[i] == rest[i - 1];
        assert ds[i] == ds[1..][i - 1];
      }
    }
  }

  lemma JuntarHead(ds: seq<Destinatario>, dkey: Destinatario -> string,
                   tabela: seq<EsferaLinha>, tkey: EsferaLinha -> string) returns (h: Juncao)
    requires |ds| > 0 && DistinctKeys(tabela, tkey)
    ensures JuntarPor(ds, dkey, tabela, tkey) == [h] + JuntarPor(ds[1..], dkey, tabela, tkey) && h.dest == ds[0]
  {
    AtMostOneWithKey(tabela, tkey, dkey(ds[0]));
    var ms := WithKey(tabela, tkey, dkey(ds[0]));
    if |ms| == 0 {
      h := Juncao(ds[0], None);
    } else {
      h := Juncao(ds[0], ms[0].idEsfera);
      assert seq(|ms|, i requires 0 <= i < |ms| => Juncao(ds[0], ms[i].idEsfera)) == [h];
    }
  }
}
