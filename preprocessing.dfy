/** Feature preparation before scoring (services/data_preprocessing.py): rows with any missing
    cell are dropped, then power is recomputed on every remaining row. */
module Preprocessing {
  import opened Common
  import opened Frames

  /** The row after `df["puissance"] = df["tension"] * df["courant"] / 1000`. */
  function WithPower(row: Row): Row
  {
    row["puissance" := Power(Get(row, "tension"), Get(row, "courant"))]
  }

  /** `dropna()` followed by the power overwrite, row by row. */
  function PreprocessedRows(rows: seq<Row>): (r: seq<Row>)
    ensures |r| <= |rows|
  {
    if rows == [] then []
    else
      var row := rows[|rows| - 1];
      PreprocessedRows(rows[..|rows| - 1]) + (if Complete(row) then [WithPower(row)] else [])
  }

  /** The outcome of `preprocess`: reading the tension or courant column of a batch that lacks
      it raises a KeyError. */
  function Preprocessed(f: Frame): Result<Frame>
  {
    if "tension" !in f.columns then Err("KeyError: 'tension'")
    else if "courant" !in f.columns then Err("KeyError: 'courant'")
    else Ok(Frame(WithColumn(f.columns, "puissance"), PreprocessedRows(f.rows)))
  }

  /** `preprocess`: one pass that drops incomplete rows and overwrites power on the others. */
  method Preprocess(f: Frame) returns (r: Result<Frame>)
    requires NumericColumn(f, "tension") && NumericColumn(f, "courant")
    ensures r == Preprocessed(f)
  {
    if "tension" !in f.columns { return Err("KeyError: 'tension'"); }
    if "courant" !in f.columns { return Err("KeyError: 'courant'"); }
    var kept: seq<Row> := [];
    for i := 0 to |f.rows|
      invariant kept == PreprocessedRows(f.rows[..i])
    {
      var row := f.rows[i];
      if Complete(row) {
        kept := kept + [row["puissance" := Power(Get(row, "tension"), Get(row, "courant"))]];
      }
      assert f.rows[..i + 1][..i] == f.rows[..i];
    }
    assert f.rows[..|f.rows|] == f.rows;
    r := Ok(Frame(WithColumn(f.columns, "puissance"), kept));
  }

  /** The power-mapped input, against which order is stated. */
  function AllWithPower(rows: seq<Row>): (r: seq<Row>)
    ensures |r| == |rows|
    ensures forall k :: 0 <= k < |rows| ==> r[k] == WithPower(rows[k])
  {
    seq(|rows|, k requires 0 <= k < |rows| => WithPower(rows[k]))
  }

  /** Each output row is a complete input row with power recomputed, every complete input row
      is kept, and the kept rows keep their relative order: the output is the power-mapped
      input with exactly the complete positions kept, so a complete row that occurs twice is
      kept twice. */
  lemma {:induction false} PreprocessedSelection(rows: seq<Row>)
    ensures forall r :: r in PreprocessedRows(rows) ==> exists j :: 0 <= j < |rows| && Complete(rows[j]) && r == WithPower(rows[j])
    ensures forall j :: 0 <= j < |rows| && Complete(rows[j]) ==> WithPower(rows[j]) in PreprocessedRows(rows)
    ensures SubsequenceOf(PreprocessedRows(rows), AllWithPower(rows))
    ensures KeepsExactly(PreprocessedRows(rows), AllWithPower(rows), seq(|rows|, k requires 0 <= k < |rows| => Complete(rows[k])))
  {
    PreprocessedExact(rows);
    if rows == [] {
      SubsequenceOfEmpty(AllWithPower(rows));
    } else {
      var init, last := rows[..|rows| - 1], rows[|rows| - 1];
      PreprocessedSelection(init);
      assert AllWithPower(rows) == AllWithPower(init) + [WithPower(last)];
      SubsequenceOfExtend(PreprocessedRows(init), AllWithPower(init), WithPower(last), Complete(last));
      forall r | r in PreprocessedRows(rows)
        ensures exists j :: 0 <= j < |rows| && Complete(rows[j]) && r == WithPower(rows[j])
      {
        if r in PreprocessedRows(init) {
          var j :| 0 <= j < |init| && Complete(init[j]) && r == WithPower(init[j]);
          assert rows[j] == init[j];
        } else {
          assert r == WithPower(rows[|rows| - 1]);
        }
      }
      forall j | 0 <= j < |rows| && Complete(rows[j]) ensures WithPower(rows[j]) in PreprocessedRows(rows) {
        if j < |init| { assert rows[j] == init[j]; }
      }
    }
  }

  lemma {:induction false} PreprocessedExact(rows: seq<Row>)
    ensures KeepsExactly(PreprocessedRows(rows), AllWithPower(rows), seq(|rows|, k requires 0 <= k < |rows| => Complete(rows[k])))
  {
    var keep := seq(|rows|, k requires 0 <= k < |rows| => Complete(rows[k]));
    if rows == [] {
      KeepsExactlyEmpty(AllWithPower(rows), keep);
    } else {
      var init, last := rows[..|rows| - 1], rows[|rows| - 1];
      PreprocessedExact(init);
      var keep0 := seq(|init|, k requires 0 <= k < |init| => Complete(init[k]));
      assert keep == keep0 + [Complete(last)];
      assert AllWithPower(rows) == AllWithPower(init) + [WithPower(last)];
      KeepsExactlyExtend(PreprocessedRows(init), AllWithPower(init), keep0, WithPower(last), Complete(last));
    }
  }

  /** The output is as long as the input exactly when no input row has a missing cell. */
  lemma {:induction false} PreprocessedLength(rows: seq<Row>)
    ensures |PreprocessedRows(rows)| == |rows| <==> forall k :: 0 <= k < |rows| ==> Complete(rows[k])
  {
    if rows != [] {
      var init := rows[..|rows| - 1];
      PreprocessedLength(init);
      assert forall k :: 0 <= k < |init| ==> rows[k] == init[k];
      assert (forall k :: 0 <= k < |rows| ==> Complete(rows[k]))
         <==> (forall k :: 0 <= k < |init| ==> Complete(init[k])) && Complete(rows[|rows| - 1]);
    }
  }

  /** Over a well-formed batch with numeric tension and courant columns, a complete row gets
      a present power equal to tension * courant / 1000 and stays complete. */
  lemma WithPowerComplete(row: Row)
    requires Complete(row) && "tension" in row && "courant" in row
    requires !row["tension"].Text? && !row["courant"].Text?
    ensures Complete(WithPower(row))
    ensures Get(WithPower(row), "tension").Num? && Get(WithPower(row), "courant").Num?
    ensures Get(WithPower(row), "puissance") == Num(row["tension"].x * row["courant"].x / 1000.0)
  {
  }

  /** Rows whose tension and courant cells are present keys and never text. */
  ghost predicate NumericRows(rows: seq<Row>)
  {
    forall k :: 0 <= k < |rows| ==>
      "tension" in rows[k] && "courant" in rows[k] && !rows[k]["tension"].Text? && !rows[k]["courant"].Text?
  }

  /** The power invariant on one row: tension and courant present, power their product / 1000. */
  predicate PowerConsistent(row: Row)
  {
    && Get(row, "tension").Num? && Get(row, "courant").Num?
    && Get(row, "puissance") == Num(Get(row, "tension").x * Get(row, "courant").x / 1000.0)
  }

  /** After preprocessing no cell is missing, and every row satisfies the power invariant,
      whatever power the input carried. */
  lemma {:induction false} PreprocessedRowsInvariant(rows: seq<Row>)
    requires NumericRows(rows)
    ensures forall k :: 0 <= k < |PreprocessedRows(rows)| ==>
      Complete(PreprocessedRows(rows)[k]) && PowerConsistent(PreprocessedRows(rows)[k])
  {
    if rows != [] {
      var init, last := rows[..|rows| - 1], rows[|rows| - 1];
      assert NumericRows(init) by {
        forall k | 0 <= k < |init|
          ensures "tension" in init[k] && "courant" in init[k] && !init[k]["tension"].Text? && !init[k]["courant"].Text?
        {
          assert init[k] == rows[k];
        }
      }
      PreprocessedRowsInvariant(init);
      var prev, out := PreprocessedRows(init), PreprocessedRows(rows);
      forall k | 0 <= k < |out| ensures Complete(out[k]) && PowerConsistent(out[k]) {
        if k < |prev| {
          assert out[k] == prev[k];
        } else {
          assert Complete(last) && out[k] == WithPower(last);
          WithPowerComplete(last);
        }
      }
    }
  }

  lemma PreprocessedInvariant(f: Frame)
    requires Wf(f) && NumericColumn(f, "tension") && NumericColumn(f, "courant")
    requires Preprocessed(f).Ok?
    ensures forall k :: 0 <= k < |Preprocessed(f).value.rows| ==>
      Complete(Preprocessed(f).value.rows[k]) && PowerConsistent(Preprocessed(f).value.rows[k])
  {
    forall k | 0 <= k < |f.rows|
      ensures "tension" in f.rows[k] && "courant" in f.rows[k]
      ensures !f.rows[k]["tension"].Text? && !f.rows[k]["courant"].Text?
    {
      assert f.rows[k].Keys == ColumnSet(f.columns);
      assert !Get(f.rows[k], "tension").Text? && !Get(f.rows[k], "courant").Text?;
    }
    PreprocessedRowsInvariant(f.rows);
    assert Preprocessed(f).value.rows == PreprocessedRows(f.rows);
  }

  /** Preprocessing keeps the frame well formed. */
  lemma PreprocessedWf(f: Frame)
    requires Wf(f) && Preprocessed(f).Ok?
    ensures Wf(Preprocessed(f).value)
  {
    PreprocessedKeys(f.rows, f.columns);
  }

  /** Rows with exactly the columns `columns` come out with exactly those and "puissance". */
  lemma {:induction false} PreprocessedKeys(rows: seq<Row>, columns: seq<string>)
    requires forall k :: 0 <= k < |rows| ==> rows[k].Keys == ColumnSet(columns)
    ensures forall k :: 0 <= k < |PreprocessedRows(rows)| ==>
      PreprocessedRows(rows)[k].Keys == ColumnSet(WithColumn(columns, "puissance"))
  {
    if rows != [] {
      var init, last := rows[..|rows| - 1], rows[|rows| - 1];
      PreprocessedKeys(init, columns);
      assert WithPower(last).Keys == last.Keys + {"puissance"};
    }
  }

  /** On rows that are complete and already carry the recomputed power, preprocessing
      changes nothing. */
  lemma {:induction false} PreprocessedFixpoint(rows: seq<Row>)
    requires forall k :: 0 <= k < |rows| ==> Complete(rows[k]) && WithPower(rows[k]) == rows[k]
    ensures PreprocessedRows(rows) == rows
  {
    if rows != [] {
      PreprocessedFixpoint(rows[..|rows| - 1]);
    }
  }

  /** Preprocessing is idempotent. */
  lemma PreprocessIdempotent(f: Frame)
    requires Wf(f) && NumericColumn(f, "tension") && NumericColumn(f, "courant")
    requires Preprocessed(f).Ok?
    ensures Preprocessed(Preprocessed(f).value) == Preprocessed(f)
  {
    var out := Preprocessed(f).value;
    PreprocessedInvariant(f);
    forall k | 0 <= k < |out.rows| ensures Complete(out.rows[k]) && WithPower(out.rows[k]) == out.rows[k] {
      var row := out.rows[k];
      assert "puissance" in row by {
        assert Get(row, "puissance").Num?;
      }
      assert Power(Get(row, "tension"), Get(row, "courant")) == row["puissance"];
      assert row["puissance" := row["puissance"]] == row;
    }
    PreprocessedFixpoint(out.rows);
    assert "puissance" in out.columns;
  }
}
