/** Column-generic data frames: the operations the pipeline applies to
    frames whose columns it does not know in advance (dropping helper
    columns, aligning to a schema, concatenating, merging). A row maps each
    column name of its frame to a cell; `Null` is pandas' missing value. */
module Frame {
  import opened Seqs

  datatype Value = Null | Str(s: string) | Num(x: real) | Flag(b: bool)

  type Row = map<string, Value>

  datatype Table = Table(cols: seq<string>, rows: seq<Row>)

  function ColSet(cols: seq<string>): set<string> {
    set c | c in cols
  }

  /** Column names are distinct and every row has exactly the frame's
      columns. */
  predicate WellFormed(t: Table) {
    NoDup(t.cols) && forall i :: 0 <= i < |t.rows| ==> t.rows[i].Keys == ColSet(t.cols)
  }

  /** The cell of column `c`; a column the row lacks reads as missing. */
  function Get(r: Row, c: string): Value {
    if c in r then r[c] else Null
  }

  /** Rows of well-formed tables with the same columns are equal when
      they agree on every column. */
  lemma SameRow(a: Table, b: Table, i: nat)
    requires WellFormed(a) && WellFormed(b) && a.cols == b.cols && i < |a.rows| && i < |b.rows|
    requires forall c :: c in a.cols ==> Get(a.rows[i], c) == Get(b.rows[i], c)
    ensures a.rows[i] == b.rows[i]
  {
    assert a.rows[i].Keys == b.rows[i].Keys;
  }

  /** The cells of column `c`, as a key function over rows. */
  function ColKey(c: string): Row -> Value { (m: Row) => Get(m, c) }

  /** Rows agreeing cell by cell on `c` with rows of distinct `c` values
      have distinct `c` values too. */
  lemma DistinctGet(a: seq<Row>, b: seq<Row>, c: string)
    requires |a| == |b| && forall i :: 0 <= i < |a| ==> Get(a[i], c) == Get(b[i], c)
    requires DistinctKeys(b, ColKey(c))
    ensures DistinctKeys(a, ColKey(c))
  {
    DistinctKeysPointwise(a, ColKey(c), b, ColKey(c));
  }

  /** `str(valor)`, as `astype(str)` applies it: a text cell is its text;
      other cells go through `repr`, Python's conversion of numbers and of
      the missing value (`"nan"`), which the model does not spell out. */
  function Texto(v: Value, repr: Value -> string): string {
    if v.Str? then v.s else repr(v)
  }

  function Restrict(r: Row, keep: string -> bool): Row {
    map c | c in r && keep(c) :: r[c]
  }

  function Not(p: string -> bool): string -> bool { (c: string) => !p(c) }

  /** `df.drop(columns=[c for c in df.columns if drop(c)])`. */
  function DropCols(t: Table, drop: string -> bool): (r: Table)
    requires WellFormed(t)
    ensures WellFormed(r)
    ensures forall c :: c in r.cols <==> c in t.cols && !drop(c)
    ensures |r.rows| == |t.rows|
    ensures forall i, c :: 0 <= i < |r.rows| && c in r.cols ==> r.rows[i][c] == t.rows[i][c]
  {
    var keep := Not(drop);
    FilterNoDup(t.cols, keep);
    Table(Filter(t.cols, keep), seq(|t.rows|, i requires 0 <= i < |t.rows| => Restrict(t.rows[i], keep)))
  }

  /** Dropping columns, read through `Get`: a kept column keeps its cells. */
  lemma DropGet(t: Table, drop: string -> bool)
    requires WellFormed(t)
    ensures forall i, c :: 0 <= i < |t.rows| && !drop(c) ==> Get(DropCols(t, drop).rows[i], c) == Get(t.rows[i], c)
  {
    var r := DropCols(t, drop);
    forall i, c | 0 <= i < |t.rows| && !drop(c) ensures Get(r.rows[i], c) == Get(t.rows[i], c) {
      assert r.rows[i].Keys == ColSet(r.cols) && t.rows[i].Keys == ColSet(t.cols);
    }
  }

  /** Dropping columns the frame does not have leaves it as it is. */
  lemma DropColsNada(t: Table, drop: string -> bool)
    requires WellFormed(t) && forall c :: c in t.cols ==> !drop(c)
    ensures DropCols(t, drop) == t
  {
    var r := DropCols(t, drop);
    FilterAll(t.cols, Not(drop));
    forall i | 0 <= i < |r.rows| ensures r.rows[i] == t.rows[i] {
      assert r.rows[i].Keys == t.rows[i].Keys;
    }
  }

  /** `df.reindex(columns=schema)`: exactly the schema's columns, in the
      schema's order; a column the frame lacks is all missing. */
  function Reindex(t: Table, schema: seq<string>): (r: Table)
    requires NoDup(schema)
    ensures WellFormed(r) && r.cols == schema && |r.rows| == |t.rows|
    ensures forall i, c :: 0 <= i < |r.rows| && c in schema ==> r.rows[i][c] == Get(t.rows[i], c)
  {
    Table(schema, seq(|t.rows|, i requires 0 <= i < |t.rows| =>
      map c | c in schema :: Get(t.rows[i], c)))
  }

  /** Aligning twice to the same schema aligns once. */
  lemma ReindexIdempotent(t: Table, schema: seq<string>)
    requires NoDup(schema)
    ensures Reindex(Reindex(t, schema), schema) == Reindex(t, schema)
  {
    var r := Reindex(t, schema);
    var rr := Reindex(r, schema);
    forall i | 0 <= i < |rr.rows| ensures rr.rows[i] == r.rows[i] {
      assert rr.rows[i].Keys == r.rows[i].Keys;
    }
  }

  /** `df[mask]`. */
  function FilterRows(t: Table, p: Row -> bool): (r: Table)
    requires WellFormed(t)
    ensures WellFormed(r) && r.cols == t.cols
    ensures forall i :: 0 <= i < |r.rows| ==> p(r.rows[i]) && r.rows[i] in t.rows
    ensures forall i :: 0 <= i < |t.rows| && p(t.rows[i]) ==> t.rows[i] in r.rows
  {
    Table(t.cols, Filter(t.rows, p))
  }

  /** The column names of `a` followed by those of `b` that `a` lacks: the
      columns of `pd.concat([a, b])` and of a merge. */
  function UnionCols(a: seq<string>, b: seq<string>): (r: seq<string>)
    requires NoDup(a) && NoDup(b)
    ensures NoDup(r)
    ensures forall c :: c in r <==> c in a || c in b
    ensures |a| <= |r| && r[..|a|] == a
  {
    var extra := Filter(b, Ausente(a));
    FilterNoDup(b, Ausente(a));
    var r := a + extra;
    assert forall i, j :: 0 <= i < |a| <= j < |r| ==> r[i] != r[j] by {
      forall i, j | 0 <= i < |a| <= j < |r| ensures r[i] != r[j] {
        assert r[j] == extra[j - |a|];
      }
    }
    assert forall i, j :: |a| <= i < j < |r| ==> r[i] != r[j] by {
      forall i, j | |a| <= i < j < |r| ensures r[i] != r[j] {
        assert r[i] == extra[i - |a|] && r[j] == extra[j - |a|];
      }
    }
    assert r[..|a|] == a;
    r
  }

  /** The mask of the names `a` lacks. */
  function Ausente(a: seq<string>): string -> bool { (c: string) => c !in a }

  /** Nothing is added to the empty list but `b` itself. */
  lemma UnionColsVazio(b: seq<string>)
    requires NoDup(b)
    ensures UnionCols([], b) == b
  {
    FilterAll(b, Ausente([]));
  }

  /** A list united with itself is itself. */
  lemma UnionColsIgual(a: seq<string>)
    requires NoDup(a)
    ensures UnionCols(a, a) == a
  {
    FilterNone(a, Ausente(a));
  }

  /** `pd.concat([a, b], ignore_index=True)`: rows of `a` then rows of `b`,
      each padded with missing cells for the columns it lacks. */
  function Concat(a: Table, b: Table): (r: Table)
    requires WellFormed(a) && WellFormed(b)
    ensures WellFormed(r)
    ensures |r.rows| == |a.rows| + |b.rows|
    ensures forall c :: c in r.cols <==> c in a.cols || c in b.cols
    ensures forall i, c :: 0 <= i < |a.rows| && c in r.cols ==> r.rows[i][c] == Get(a.rows[i], c)
    ensures forall i, c :: 0 <= i < |b.rows| && c in r.cols ==> r.rows[|a.rows| + i][c] == Get(b.rows[i], c)
  {
    var u := UnionCols(a.cols, b.cols);
    Table(u, Reindex(a, u).rows + Reindex(b, u).rows)
  }

  /** Concatenation, read through `Get`: row `i` of `a` keeps its cells. */
  lemma ConcatGetA(a: Table, b: Table, i: nat, c: string)
    requires WellFormed(a) && WellFormed(b) && i < |a.rows|
    ensures Get(Concat(a, b).rows[i], c) == Get(a.rows[i], c)
  {
    var r := Concat(a, b);
    assert r.rows[i].Keys == ColSet(r.cols);
    assert a.rows[i].Keys == ColSet(a.cols);
  }

  /** Concatenation, read through `Get`: row `i` of `b` comes after the rows
      of `a` with its cells. */
  lemma ConcatGetB(a: Table, b: Table, i: nat, c: string)
    requires WellFormed(a) && WellFormed(b) && i < |b.rows|
    ensures Get(Concat(a, b).rows[|a.rows| + i], c) == Get(b.rows[i], c)
  {
    var r := Concat(a, b);
    assert r.rows[|a.rows| + i].Keys == ColSet(r.cols);
    assert b.rows[i].Keys == ColSet(b.cols);
  }

  /** `df[c] = f(row)` for every row: an existing column keeps its place, a
      new one is appended. */
  function SetCol(t: Table, c: string, f: Row -> Value): (r: Table)
    requires WellFormed(t)
    ensures WellFormed(r) && |r.rows| == |t.rows|
    ensures c in t.cols ==> r.cols == t.cols
    ensures c !in t.cols ==> r.cols == t.cols + [c]
    ensures forall i :: 0 <= i < |r.rows| ==> r.rows[i] == t.rows[i][c := f(t.rows[i])]
  {
    var cols := if c in t.cols then t.cols else t.cols + [c];
    assert ColSet(cols) == ColSet(t.cols) + {c};
    Table(cols, seq(|t.rows|, i requires 0 <= i < |t.rows| => t.rows[i][c := f(t.rows[i])]))
  }

  /** A column with no non-missing value (`df[c].isna().all()`, which holds
      on a frame without rows). */
  predicate AllNull(t: Table, c: string) {
    forall i :: 0 <= i < |t.rows| ==> Get(t.rows[i], c) == Null
  }

  /** The mask `df[c].notna()`: the row's cell in `c` is present. */
  function NotNull(c: string): Row -> bool { (r: Row) => Get(r, c) != Null }

  /** `(df[df[c].notna()], df[df[c].isna()])`: the rows with a value in
      `c`, then the rows without one, both in input order. */
  function SplitNotNull(t: Table, c: string): (r: (Table, Table))
    requires WellFormed(t)
    ensures WellFormed(r.0) && r.0.cols == t.cols && WellFormed(r.1) && r.1.cols == t.cols
    ensures forall i :: 0 <= i < |r.0.rows| ==> Get(r.0.rows[i], c) != Null
    ensures forall i :: 0 <= i < |r.1.rows| ==> Get(r.1.rows[i], c) == Null
  {
    (FilterRows(t, NotNull(c)), FilterRows(t, Neg(NotNull(c))))
  }

  /** The two parts hold every row of the input exactly as often as the
      input does, each part keeping the input order. */
  lemma SplitNotNullPartition(t: Table, c: string)
    requires WellFormed(t)
    ensures multiset(SplitNotNull(t, c).0.rows) + multiset(SplitNotNull(t, c).1.rows) == multiset(t.rows)
    ensures Subsequence(SplitNotNull(t, c).0.rows, t.rows) && Subsequence(SplitNotNull(t, c).1.rows, t.rows)
  {
    FilterSplit(t.rows, NotNull(c));
    FilterSubsequence(t.rows, NotNull(c));
    FilterSubsequence(t.rows, Neg(NotNull(c)));
  }
}
