/**
 The relational layer the disaggregation engine works on: rows with named
 scalar cells and one numeric value column, tables with a declared set of
 columns, key tuples read off a list of key columns, and the sums the engine
 takes over sequences of rows.
 */
module Tables {

  type Column = string

  /** A scalar cell. Numbers and strings never compare equal to each other. */
  datatype Cell = Num(n: real) | Text(s: string)

  /** The tuple of a row's cells at a list of key columns, in list order. */
  type Key = seq<Cell>

  /** One row: its named cells, and the cell of the value column read as a number. */
  datatype Row = Row(cells: map<Column, Cell>, value: real)

  /** A table: the columns it declares and its rows, in order. */
  datatype Table = Table(columns: set<Column>, rows: seq<Row>)

  /** A table in which every row carries every declared column. */
  predicate WellFormed(t: Table) {
    forall r :: r in t.rows ==> t.columns <= r.cells.Keys
  }

  /** True iff every column of `ks` is declared by `t`. */
  predicate Declares(t: Table, ks: seq<Column>) {
    forall c :: c in ks ==> c in t.columns
  }

  predicate HasColumns(r: Row, ks: seq<Column>) {
    forall c :: c in ks ==> c in r.cells
  }

  predicate AllHave(rows: seq<Row>, ks: seq<Column>) {
    forall r :: r in rows ==> HasColumns(r, ks)
  }

  function KeyOf(r: Row, ks: seq<Column>): Key
    requires HasColumns(r, ks)
  {
    if ks == [] then [] else [r.cells[ks[0]]] + KeyOf(r, ks[1..])
  }

  /** The distinct key tuples of a sequence of rows (what `drop_duplicates` keeps). */
  function KeySet(rows: seq<Row>, ks: seq<Column>): set<Key>
    requires AllHave(rows, ks)
  {
    set r | r in rows :: KeyOf(r, ks)
  }

  /** Total of the value column. */
  function Sum(rows: seq<Row>): real {
    if rows == [] then 0.0 else rows[0].value + Sum(rows[1..])
  }

  /** Total of the value column over the rows whose key tuple is `k`. */
  function GroupSum(rows: seq<Row>, ks: seq<Column>, k: Key): real
    requires AllHave(rows, ks)
  {
    if rows == [] then 0.0
    else (if KeyOf(rows[0], ks) == k then rows[0].value else 0.0) + GroupSum(rows[1..], ks, k)
  }

  /** Number of rows whose key tuple is `k`. */
  function GroupCount(rows: seq<Row>, ks: seq<Column>, k: Key): nat
    requires AllHave(rows, ks)
  {
    if rows == [] then 0
    else (if KeyOf(rows[0], ks) == k then 1 else 0) + GroupCount(rows[1..], ks, k)
  }

  /** A key that no row carries has an empty group. */
  lemma {:induction false} GroupSumAbsent(rows: seq<Row>, ks: seq<Column>, k: Key)
    requires AllHave(rows, ks)
    requires k !in KeySet(rows, ks)
    ensures GroupSum(rows, ks, k) == 0.0
  {
    if rows != [] {
      assert KeySet(rows[1..], ks) <= KeySet(rows, ks);
      GroupSumAbsent(rows[1..], ks, k);
    }
  }

  /** In a group of non-negative values, no member exceeds the group total. */
  lemma {:induction false} MemberBelowGroupSum(rows: seq<Row>, ks: seq<Column>, r: Row)
    requires AllHave(rows, ks)
    requires forall x :: x in rows ==> x.value >= 0.0
    requires r in rows
    ensures 0.0 <= r.value <= GroupSum(rows, ks, KeyOf(r, ks))
  {
    if rows[0] != r {
      MemberBelowGroupSum(rows[1..], ks, r);
    } else {
      GroupSumNonNegative(rows[1..], ks, KeyOf(r, ks));
    }
  }

  lemma {:induction false} GroupSumNonNegative(rows: seq<Row>, ks: seq<Column>, k: Key)
    requires AllHave(rows, ks)
    requires forall x :: x in rows ==> x.value >= 0.0
    ensures GroupSum(rows, ks, k) >= 0.0
  {
    if rows != [] {
      GroupSumNonNegative(rows[1..], ks, k);
    }
  }

  /**
   `a` is `b` with some elements deleted: its elements occur in `b` in the
   same order. Matching each element of `a` to its first occurrence in what
   is left of `b` finds such an occurrence whenever one exists.
   */
  predicate IsSubsequence<T(==)>(a: seq<T>, b: seq<T>)
    decreases |b|
  {
    if a == [] then true
    else if b == [] then false
    else if a[0] == b[0] then IsSubsequence(a[1..], b[1..])
    else IsSubsequence(a, b[1..])
  }

  /** A subsequence of the tail of `b` is a subsequence of `b`. */
  lemma {:induction false} SubsequenceTail<T>(a: seq<T>, b: seq<T>)
    requires b != [] && IsSubsequence(a, b[1..])
    ensures IsSubsequence(a, b)
    decreases |b|, |a|
  {
    if a != [] && a[0] == b[0] {
      SubsequenceDropHead(a, b[1..]);
    }
  }

  /** Dropping the first element of a subsequence leaves a subsequence. */
  lemma {:induction false} SubsequenceDropHead<T>(a: seq<T>, b: seq<T>)
    requires a != [] && IsSubsequence(a, b)
    ensures IsSubsequence(a[1..], b)
    decreases |b|, |a|
  {
    if a[0] == b[0] {
      if a[1..] != [] {
        SubsequenceTail(a[1..], b);
      }
    } else {
      SubsequenceDropHead(a, b[1..]);
      SubsequenceTail(a[1..], b);
    }
  }
}
