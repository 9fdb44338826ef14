/** A tabular batch of readings, as the pipeline's data frames hold it: an ordered list of
    column names and, per row, one cell per column. A cell is missing (pandas' NaN or None),
    a number or a text value. */
module Frames {
  import opened Common

  datatype Cell = Missing | Num(x: real) | Text(s: string)

  type Row = map<string, Cell>

  datatype Frame = Frame(columns: seq<string>, rows: seq<Row>)

  function ColumnSet(columns: seq<string>): set<string>
  {
    set c | c in columns
  }

  /** Column names are distinct and every row has exactly the frame's columns. */
  ghost predicate Wf(f: Frame)
  {
    && Distinct(f.columns)
    && forall k :: 0 <= k < |f.rows| ==> f.rows[k].Keys == ColumnSet(f.columns)
  }

  /** pandas' `DataFrame.empty`: true when either axis has length zero. */
  predicate Empty(f: Frame)
  {
    |f.rows| == 0 || |f.columns| == 0
  }

  /** The cell of `row` in column `c`; a row without that column reads as missing. */
  function Get(row: Row, c: string): Cell
  {
    if c in row then row[c] else Missing
  }

  /** Column `c` holds numbers only (and missing cells), as a float column does. */
  ghost predicate NumericColumn(f: Frame, c: string)
  {
    forall k :: 0 <= k < |f.rows| ==> !Get(f.rows[k], c).Text?
  }

  /** Some row holds a text value in column `c`. */
  predicate HasText(rows: seq<Row>, c: string)
  {
    rows != [] && (HasText(rows[..|rows| - 1], c) || Get(rows[|rows| - 1], c).Text?)
  }

  /** A column holds text exactly when it is not numeric. */
  lemma {:induction false} HasTextNotNumeric(f: Frame, c: string)
    ensures HasText(f.rows, c) <==> !NumericColumn(f, c)
    decreases |f.rows|
  {
    if f.rows != [] {
      var init, last := f.rows[..|f.rows| - 1], f.rows[|f.rows| - 1];
      HasTextNotNumeric(Frame(f.columns, init), c);
      assert forall k :: 0 <= k < |init| ==> f.rows[k] == init[k];
      if !HasText(f.rows, c) {
        forall k | 0 <= k < |f.rows| ensures !Get(f.rows[k], c).Text? {
          if k < |init| {
            assert !Get(init[k], c).Text?;
          }
        }
      }
    }
  }

  /** The column list after `df[c] = ...`: an existing column keeps its place, a new one goes last. */
  function WithColumn(columns: seq<string>, c: string): (r: seq<string>)
    ensures ColumnSet(r) == ColumnSet(columns) + {c}
    ensures c in columns ==> r == columns
    ensures c !in columns ==> r == columns + [c]
    ensures Distinct(columns) ==> Distinct(r)
  {
    if c in columns then columns else columns + [c]
  }

  /** No cell of the row is missing. */
  predicate Complete(row: Row)
  {
    forall c :: c in row ==> row[c] != Missing
  }

  /** `tension * courant / 1000`, missing when either operand is. */
  function Power(tension: Cell, courant: Cell): Cell
  {
    if tension.Num? && courant.Num? then Num(tension.x * courant.x / 1000.0) else Missing
  }

  /** The numbers of column `c`, in row order, skipping missing cells. */
  function NumValues(rows: seq<Row>, c: string): (xs: seq<real>)
    ensures |xs| <= |rows|
  {
    if rows == [] then []
    else
      var cell := Get(rows[|rows| - 1], c);
      NumValues(rows[..|rows| - 1], c) + (if cell.Num? then [cell.x] else [])
  }

  /** Number of rows whose cell in column `c` is missing. */
  function MissingCount(rows: seq<Row>, c: string): (n: nat)
    ensures n <= |rows|
  {
    if rows == [] then 0
    else MissingCount(rows[..|rows| - 1], c) + (if Get(rows[|rows| - 1], c) == Missing then 1 else 0)
  }

  /** `df[df[c] == v]`: the rows whose cell in column `c` is `v`, in order. */
  function SelectRows(rows: seq<Row>, c: string, v: Cell): (r: seq<Row>)
    ensures |r| <= |rows|
  {
    if rows == [] then []
    else SelectRows(rows[..|rows| - 1], c, v) + (if Get(rows[|rows| - 1], c) == v then [rows[|rows| - 1]] else [])
  }

  /** The selected rows are exactly the input's rows with that cell, in input order, each
      position kept once: a row that occurs twice with that cell is selected twice. */
  lemma SelectRowsSelect(rows: seq<Row>, c: string, v: Cell)
    ensures forall r :: r in SelectRows(rows, c, v) <==> r in rows && Get(r, c) == v
    ensures SubsequenceOf(SelectRows(rows, c, v), rows)
    ensures KeepsExactly(SelectRows(rows, c, v), rows, seq(|rows|, k requires 0 <= k < |rows| => Get(rows[k], c) == v))
    ensures (forall k :: 0 <= k < |rows| ==> Get(rows[k], c) != v) <==> SelectRows(rows, c, v) == []
  {
    SelectRowsMembers(rows, c, v);
    SelectRowsExact(rows, c, v);
    SelectRowsOrder(rows, c, v);
    if SelectRows(rows, c, v) == [] {
      forall k | 0 <= k < |rows| ensures Get(rows[k], c) != v {
        assert rows[k] in rows;
      }
    }
  }

  lemma {:induction false} SelectRowsMembers(rows: seq<Row>, c: string, v: Cell)
    ensures forall r :: r in SelectRows(rows, c, v) <==> r in rows && Get(r, c) == v
  {
    if rows != [] {
      var init, last := rows[..|rows| - 1], rows[|rows| - 1];
      SelectRowsMembers(init, c, v);
      assert rows == init + [last];
    }
  }

  lemma {:induction false} SelectRowsOrder(rows: seq<Row>, c: string, v: Cell)
    ensures SubsequenceOf(SelectRows(rows, c, v), rows)
  {
    if rows == [] {
      SubsequenceOfEmpty(rows);
    } else {
      var init, last := rows[..|rows| - 1], rows[|rows| - 1];
      SelectRowsOrder(init, c, v);
      assert rows == init + [last];
      SubsequenceOfExtend(SelectRows(init, c, v), init, last, Get(last, c) == v);
    }
  }

  lemma {:induction false} SelectRowsExact(rows: seq<Row>, c: string, v: Cell)
    ensures KeepsExactly(SelectRows(rows, c, v), rows, seq(|rows|, k requires 0 <= k < |rows| => Get(rows[k], c) == v))
  {
    var keep := seq(|rows|, k requires 0 <= k < |rows| => Get(rows[k], c) == v);
    if rows == [] {
      KeepsExactlyEmpty(rows, keep);
    } else {
      var init, last := rows[..|rows| - 1], rows[|rows| - 1];
      SelectRowsExact(init, c, v);
      var keep0 := seq(|init|, k requires 0 <= k < |init| => Get(init[k], c) == v);
      assert rows == init + [last];
      assert keep == keep0 + [Get(last, c) == v];
      KeepsExactlyExtend(SelectRows(init, c, v), init, keep0, last, Get(last, c) == v);
    }
  }

  /** The annotation convention `anomalie == 1`. */
  predicate Flagged(row: Row)
  {
    Get(row, "anomalie") == Num(1.0)
  }

  /** `df[df["anomalie"] == 1]`: the flagged rows, in order. */
  function FlaggedRows(rows: seq<Row>): (r: seq<Row>)
    ensures |r| <= |rows|
  {
    SelectRows(rows, "anomalie", Num(1.0))
  }
}
