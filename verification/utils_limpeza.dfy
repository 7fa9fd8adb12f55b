/** Defensive column hygiene around merges (`src/modules/utils_limpeza.py`):
    pandas names a repeated column `X.1`, `X.2`, ... and a merge suffixes a
    clashing right-hand column; these helpers keep such columns out of the
    pipeline's frames. */
module UtilsLimpeza {
  import opened Wrappers
  import opened Text
  import opened Seqs
  import opened Frame

  /** The column looks like a pandas duplicate (`'.1'`, `'.2'` or `'.3'`
      anywhere in its name). */
  predicate DupSuffix(c: string) {
    Contains(c, ".1") || Contains(c, ".2") || Contains(c, ".3")
  }

  predicate DropSuffix(c: string) { EndsWith(c, "_DROP") }

  /** `limpar_colunas_duplicadas`: drops exactly the duplicate-looking
      columns, keeping every other column, its place and its cells. */
  function LimparColunasDuplicadas(t: Table): (r: Table)
    requires WellFormed(t)
    ensures WellFormed(r) && |r.rows| == |t.rows|
    ensures forall c :: c in r.cols <==> c in t.cols && !DupSuffix(c)
    ensures forall i, c :: 0 <= i < |r.rows| && c in r.cols ==> r.rows[i][c] == t.rows[i][c]
  {
    DropCols(t, DupSuffix)
  }

  datatype How = LeftJoin | InnerJoin

  /** The right-hand rows whose `rkey` cell equals the left row's `lkey`
      cell (pandas matches missing keys with missing keys). */
  function Matches(l: Row, right: seq<Row>, lkey: string, rkey: string): seq<Row> {
    WithKey(right, ColKey(rkey), Get(l, lkey))
  }

  /** A left row extended with the cells of the right-hand columns `extra`
      taken from `m` (all missing when there is no match). */
  function Extend(l: Row, m: Option<Row>, extra: seq<string>): Row {
    l + map c | c in extra :: (if m.Some? then Get(m.value, c) else Null)
  }

  function ExtendAll(l: Row, ms: seq<Row>, extra: seq<string>): (r: seq<Row>)
    ensures |r| == |ms|
  {
    seq(|ms|, i requires 0 <= i < |ms| => Extend(l, Some(ms[i]), extra))
  }

  /** The rows of `pd.merge(left, right, left_on=lkey, right_on=rkey,
      how=how)`: left rows in order, each repeated once per matching right
      row (in right order); an unmatched left row is kept once, padded, by a
      left join and dropped by an inner one. */
  function MergeRows(left: seq<Row>, right: seq<Row>, lkey: string, rkey: string, extra: seq<string>, how: How): seq<Row> {
    if |left| == 0 then []
    else
      var ms := Matches(left[0], right, lkey, rkey);
      (if |ms| > 0 then ExtendAll(left[0], ms, extra)
       else if how == LeftJoin then [Extend(left[0], None, extra)]
       else [])
      + MergeRows(left[1..], right, lkey, rkey, extra, how)
  }

  /** The columns `merge_seguro` treats as conflicting: shared by both sides,
      other than the key. */
  predicate Conflicting(left: Table, right: Table, key: string, c: string) {
    c in left.cols && c in right.cols && c != key
  }

  /** The right-hand columns the merged frame receives. */
  function ExtraCols(left: Table, right: Table, key: string): (r: seq<string>)
    ensures forall c :: c in r <==> c in right.cols && c !in left.cols && c != key
  {
    Filter(right.cols, c => c !in left.cols && c != key)
  }

  /** `merge_seguro(left, right, on=key, how=how)`: conflicting right columns
      are removed before the merge, then every `_DROP` column and every
      duplicate-looking column is removed. A key missing from either side is
      pandas' `KeyError`. */
  function MergeSeguro(left: Table, right: Table, key: string, how: How): (r: Result<Table>)
    requires WellFormed(left) && WellFormed(right)
    ensures r.Err? <==> key !in left.cols || key !in right.cols
    ensures r.Ok? ==> WellFormed(r.value)
    ensures r.Ok? ==> forall c :: c in r.value.cols <==>
              (c in left.cols || (c in right.cols && !Conflicting(left, right, key, c)))
              && !DropSuffix(c) && !DupSuffix(c)
  {
    if key !in left.cols || key !in right.cols then Err(ValueError("KeyError: " + key))
    else
      var extra := ExtraCols(left, right, key);
      FilterNoDup(right.cols, c => c !in left.cols && c != key);
      var cols := UnionCols(left.cols, extra);
      var rows := MergeRows(left.rows, right.rows, key, key, extra, how);
      var merged := Table(cols, rows);
      MergeRowsFit(left, right.rows, key, key, extra, how);
      var r := DropCols(merged, c => DropSuffix(c) || DupSuffix(c));
      Ok(r)
  }

  lemma {:induction false} MergeRowsFitFrom(lrows: seq<Row>, lcols: seq<string>, right: seq<Row>, lkey: string,
                                            rkey: string, extra: seq<string>, how: How)
    requires forall i :: 0 <= i < |lrows| ==> lrows[i].Keys == ColSet(lcols)
    ensures forall i :: 0 <= i < |MergeRows(lrows, right, lkey, rkey, extra, how)| ==>
              MergeRows(lrows, right, lkey, rkey, extra, how)[i].Keys == ColSet(lcols) + ColSet(extra)
  {
    if |lrows| > 0 {
      MergeRowsFitFrom(lrows[1..], lcols, right, lkey, rkey, extra, how);
    }
  }

  /** Every merged row has exactly the left columns and the extra ones. */
  lemma MergeRowsFit(left: Table, right: seq<Row>, lkey: string, rkey: string, extra: seq<string>, how: How)
    requires WellFormed(left) && NoDup(extra)
    ensures forall i :: 0 <= i < |MergeRows(left.rows, right, lkey, rkey, extra, how)| ==>
              MergeRows(left.rows, right, lkey, rkey, extra, how)[i].Keys == ColSet(UnionCols(left.cols, extra))
  {
    MergeRowsFitFrom(left.rows, left.cols, right, lkey, rkey, extra, how);
    assert ColSet(UnionCols(left.cols, extra)) == ColSet(left.cols) + ColSet(extra);
  }

  /** With a right-hand side whose keys are distinct, a left merge keeps
      exactly one output row per left row, and that row agrees with the left
      row on every left column. */
  lemma {:induction false} LeftMergeRowCount(left: seq<Row>, right: seq<Row>, lkey: string, rkey: string, extra: seq<string>)
    requires DistinctKeys(right, ColKey(rkey))
    ensures |MergeRows(left, right, lkey, rkey, extra, LeftJoin)| == |left|
    ensures forall i, c :: 0 <= i < |left| && c in left[i] && c !in extra ==>
              c in MergeRows(left, right, lkey, rkey, extra, LeftJoin)[i]
              && MergeRows(left, right, lkey, rkey, extra, LeftJoin)[i][c] == left[i][c]
  {
    if |left| > 0 {
      LeftMergeRowCount(left[1..], right, lkey, rkey, extra);
      var h := LeftMergeHead(left, right, lkey, rkey, extra);
      var rest := MergeRows(left[1..], right, lkey, rkey, extra, LeftJoin);
      var r := MergeRows(left, right, lkey, rkey, extra, LeftJoin);
      assert r == [h] + rest;
      forall i, c | 0 <= i < |left| && c in left[i] && c !in extra
        ensures c in r[i] && r[i][c] == left[i][c]
      {
        if i > 0 {
          assert r[i] == rest[i - 1];
          assert left[i] == left[1..][i - 1];
        }
      }
    }
  }

  /** The first output row of a left merge against distinct keys. */
  lemma LeftMergeHead(left: seq<Row>, right: seq<Row>, lkey: string, rkey: string, extra: seq<string>) returns (h: Row)
    requires |left| > 0 && DistinctKeys(right, ColKey(rkey))
    ensures MergeRows(left, right, lkey, rkey, extra, LeftJoin) == [h] + MergeRows(left[1..], right, lkey, rkey, extra, LeftJoin)
    ensures forall c :: c in left[0] && c !in extra ==> c in h && h[c] == left[0][c]
  {
    AtMostOneMatch(left[0], right, lkey, rkey);
    var ms := Matches(left[0], right, lkey, rkey);
    if |ms| > 0 {
      h := Extend(left[0], Some(ms[0]), extra);
      assert ExtendAll(left[0], ms, extra) == [h];
    } else {
      h := Extend(left[0], None, extra);
    }
  }

  lemma AtMostOneMatch(l: Row, right: seq<Row>, lkey: string, rkey: string)
    requires DistinctKeys(right, ColKey(rkey))
    ensures |Matches(l, right, lkey, rkey)| <= 1
  {
    AtMostOneWithKey(right, ColKey(rkey), Get(l, lkey));
  }

  /** A left merge neither loses nor invents a value of a left column: every
      left row yields at least one output row, each agreeing with it there. */
  lemma {:induction false} LeftMergeKeys(left: seq<Row>, right: seq<Row>, lkey: string, rkey: string,
                                         extra: seq<string>, c: string)
    requires c !in extra
    ensures KeysOf(MergeRows(left, right, lkey, rkey, extra, LeftJoin), ColKey(c)) == KeysOf(left, ColKey(c))
  {
    if |left| > 0 {
      var block := LeftMergeBlock(left, right, lkey, rkey, extra, c);
      var rest := MergeRows(left[1..], right, lkey, rkey, extra, LeftJoin);
      LeftMergeKeys(left[1..], right, lkey, rkey, extra, c);
      KeysOfAppend(block, rest, ColKey(c));
      KeysOfAppend([left[0]], left[1..], ColKey(c));
      assert [left[0]] + left[1..] == left;
    }
  }

  /** The output rows of the first left row all carry its value of `c`. */
  lemma LeftMergeBlock(left: seq<Row>, right: seq<Row>, lkey: string, rkey: string, extra: seq<string>, c: string)
    returns (block: seq<Row>)
    requires |left| > 0 && c !in extra
    ensures MergeRows(left, right, lkey, rkey, extra, LeftJoin) == block + MergeRows(left[1..], right, lkey, rkey, extra, LeftJoin)
    ensures KeysOf(block, ColKey(c)) == {Get(left[0], c)}
  {
    var ms := Matches(left[0], right, lkey, rkey);
    block := if |ms| > 0 then ExtendAll(left[0], ms, extra) else [Extend(left[0], None, extra)];
    assert ColKey(c)(block[0]) == Get(left[0], c);
  }

  /** `validar_integridade_colunas`: passes iff no column is duplicate-looking,
      none ends in `_DROP` and none is entirely missing; a failure raises
      `ValueError` when asked to. */
  function ValidarIntegridadeColunas(t: Table, raiseOnError: bool): (r: Result<bool>)
    ensures r == Ok(true) <==>
      forall c :: c in t.cols ==> !DupSuffix(c) && !DropSuffix(c) && !AllNull(t, c)
    ensures r.Err? <==> raiseOnError && r != Ok(true)
  {
    var problems := exists c :: c in t.cols && (DupSuffix(c) || DropSuffix(c) || AllNull(t, c));
    if !problems then Ok(true)
    else if raiseOnError then Err(ValueError("validation failed"))
    else Ok(false)
  }
}
