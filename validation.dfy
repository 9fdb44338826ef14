/** Validation and cleaning of a raw batch against the utility's physical ranges, and the
    advisory data-quality report (scripts/data_validation.py). */
module DataValidation {
  import opened Common
  import opened Frames

  const TensionMin: real := 180.0
  const TensionMax: real := 250.0
  const CourantMin: real := 0.0
  const CourantMax: real := 30.0

  /** The mandatory columns, in the order they are checked. */
  const Required: seq<string> := ["tension", "courant", "zone"]

  /** A cell passes the mask `(col >= lo) & (col <= hi)`: a missing cell never does. */
  predicate InRange(cell: Cell, lo: real, hi: real)
  {
    cell.Num? && lo <= cell.x <= hi
  }

  /** The cell after `df.loc[~mask, col] = NaN`: out-of-range values become missing. */
  function RangeChecked(cell: Cell, lo: real, hi: real): (r: Cell)
    ensures r == cell || r == Missing
    ensures r != Missing <==> InRange(cell, lo, hi)
  {
    if InRange(cell, lo, hi) then cell else Missing
  }

  /** The first mandatory column absent from `columns`, as the error the check raises. */
  function FirstAbsent(required: seq<string>, columns: seq<string>): (r: Option<string>)
    ensures r.None? <==> forall c :: c in required ==> c in columns
  {
    if required == [] then None
    else if required[0] !in columns then Some("Colonne manquante: " + required[0])
    else FirstAbsent(required[1..], columns)
  }

  /** Once the first `k` mandatory columns are known to be present, the check continues with the rest. */
  lemma {:induction false} FirstAbsentAfterPresent(required: seq<string>, columns: seq<string>, k: nat)
    requires k < |required| && required[k] !in columns
    requires forall c :: c in required[..k] ==> c in columns
    ensures FirstAbsent(required, columns) == Some("Colonne manquante: " + required[k])
  {
    if k > 0 {
      assert required[0] in required[..k];
      assert required[1..][..k - 1] == required[1..k];
      forall c | c in required[1..][..k - 1] ensures c in columns {
        assert c in required[..k];
      }
      FirstAbsentAfterPresent(required[1..], columns, k - 1);
    }
  }

  /** The error `validate_sonelgaz_data` raises before touching the batch, if any. */
  function InputError(f: Frame): Option<string>
  {
    if Empty(f) then Some("DataFrame vide") else FirstAbsent(Required, f.columns)
  }

  /** The cells the validator adds to a row whose tension and courant are already checked:
      power when the batch had no puissance column, the stamp when it had no timestamp. */
  function Extend(row: Row, addPower: bool, addStamp: bool, stamp: string): Row
  {
    var r1 := if addPower then row["puissance" := Power(Get(row, "tension"), Get(row, "courant"))] else row;
    if addStamp then r1["timestamp" := Text(stamp)] else r1
  }

  /** One row after the range masks and the derived columns, before the drop. */
  function CleanRow(row: Row, addPower: bool, addStamp: bool, stamp: string): Row
  {
    var t := RangeChecked(Get(row, "tension"), TensionMin, TensionMax);
    var c := RangeChecked(Get(row, "courant"), CourantMin, CourantMax);
    Extend(row["tension" := t]["courant" := c], addPower, addStamp, stamp)
  }

  /** Survives `dropna(subset=["tension", "courant"])`. */
  predicate Retained(row: Row)
  {
    Get(row, "tension") != Missing && Get(row, "courant") != Missing
  }

  function CleanRows(rows: seq<Row>, addPower: bool, addStamp: bool, stamp: string): (r: seq<Row>)
    ensures |r| <= |rows|
  {
    if rows == [] then []
    else
      var row := CleanRow(rows[|rows| - 1], addPower, addStamp, stamp);
      CleanRows(rows[..|rows| - 1], addPower, addStamp, stamp) + (if Retained(row) then [row] else [])
  }

  /** The column list after the derived columns are added, each only when absent. */
  function ValidatedColumns(columns: seq<string>): seq<string>
  {
    WithColumn(WithColumn(columns, "puissance"), "timestamp")
  }

  /** The outcome of `validate_sonelgaz_data` on a batch whose tension and courant columns are
      numeric; `stamp` is the formatted current time. */
  function Validated(f: Frame, stamp: string): Result<Frame>
  {
    match InputError(f)
    case Some(e) => Err(e)
    case None =>
      Ok(Frame(ValidatedColumns(f.columns),
               CleanRows(f.rows, "puissance" !in f.columns, "timestamp" !in f.columns, stamp)))
  }

  /** `validate_sonelgaz_data`: the error checks, then one pass that masks out-of-range values,
      adds the absent derived columns and drops the rows left without tension or courant. */
  method Validate(f: Frame, stamp: string) returns (r: Result<Frame>)
    requires NumericColumn(f, "tension") && NumericColumn(f, "courant")
    ensures r == Validated(f, stamp)
  {
    if Empty(f) {
      return Err("DataFrame vide");
    }
    var missing := CheckRequired(f.columns);
    if missing.Some? {
      return Err(missing.value);
    }
    var addPower := "puissance" !in f.columns;
    var addStamp := "timestamp" !in f.columns;
    var columns := f.columns;
    if addPower { columns := columns + ["puissance"]; }
    if addStamp { columns := columns + ["timestamp"]; }
    var kept := CleanBatch(f.rows, addPower, addStamp, stamp);
    r := Ok(Frame(columns, kept));
  }

  /** The mandatory columns, checked in order. */
  method CheckRequired(columns: seq<string>) returns (e: Option<string>)
    ensures e == FirstAbsent(Required, columns)
  {
    for k := 0 to |Required|
      invariant forall c :: c in Required[..k] ==> c in columns
    {
      if Required[k] !in columns {
        FirstAbsentAfterPresent(Required, columns, k);
        return Some("Colonne manquante: " + Required[k]);
      }
    }
    assert Required[..|Required|] == Required;
    return None;
  }

  /** The pass over the rows: mask, derive, drop. */
  method CleanBatch(rows: seq<Row>, addPower: bool, addStamp: bool, stamp: string) returns (kept: seq<Row>)
    ensures kept == CleanRows(rows, addPower, addStamp, stamp)
  {
    kept := [];
    var i := 0;
    while i < |rows|
      invariant 0 <= i <= |rows|
      invariant kept == CleanRows(rows[..i], addPower, addStamp, stamp)
    {
      var row := rows[i];
      var t := Get(row, "tension");
      if !(t.Num? && TensionMin <= t.x <= TensionMax) { t := Missing; }
      var c := Get(row, "courant");
      if !(c.Num? && CourantMin <= c.x <= CourantMax) { c := Missing; }
      row := row["tension" := t]["courant" := c];
      if addPower { row := row["puissance" := Power(t, c)]; }
      if addStamp { row := row["timestamp" := Text(stamp)]; }
      if t != Missing && c != Missing {
        kept := kept + [row];
      }
      assert rows[..i + 1][..i] == rows[..i];
      i := i + 1;
    }
    assert rows[..i] == rows;
  }

  // ---------------------------------------------------------------------------------------
  // What validation guarantees

  lemma ValidateEmpty(f: Frame, stamp: string)
    requires Empty(f)
    ensures Validated(f, stamp) == Err("DataFrame vide")
  {
  }

  /** On a non-empty batch the mandatory columns are checked in the order tension, courant,
      zone, and the first absent one is named; the batch is accepted iff none is absent. */
  lemma ValidateRequiredColumns(f: Frame, stamp: string)
    requires !Empty(f)
    ensures Validated(f, stamp).Ok? <==> "tension" in f.columns && "courant" in f.columns && "zone" in f.columns
    ensures "tension" !in f.columns ==> Validated(f, stamp) == Err("Colonne manquante: tension")
    ensures "tension" in f.columns && "courant" !in f.columns ==> Validated(f, stamp) == Err("Colonne manquante: courant")
    ensures "tension" in f.columns && "courant" in f.columns && "zone" !in f.columns ==> Validated(f, stamp) == Err("Colonne manquante: zone")
  {
    if "tension" in f.columns && "courant" !in f.columns {
      assert Required[..1] == ["tension"];
      FirstAbsentAfterPresent(Required, f.columns, 1);
    } else if "tension" in f.columns && "zone" !in f.columns {
      assert Required[..2] == ["tension", "courant"];
      FirstAbsentAfterPresent(Required, f.columns, 2);
    }
  }

  /** The rows whose tension and courant are both present and inside their ranges. */
  predicate InRangeRow(row: Row)
  {
    InRange(Get(row, "tension"), TensionMin, TensionMax) && InRange(Get(row, "courant"), CourantMin, CourantMax)
  }

  function InRangeRows(rows: seq<Row>): (r: seq<Row>)
    ensures |r| <= |rows|
  {
    if rows == [] then []
    else InRangeRows(rows[..|rows| - 1]) + (if InRangeRow(rows[|rows| - 1]) then [rows[|rows| - 1]] else [])
  }

  function ExtendAll(rows: seq<Row>, addPower: bool, addStamp: bool, stamp: string): (r: seq<Row>)
    ensures |r| == |rows|
    ensures forall k :: 0 <= k < |rows| ==> r[k] == Extend(rows[k], addPower, addStamp, stamp)
  {
    seq(|rows|, k requires 0 <= k < |rows| => Extend(rows[k], addPower, addStamp, stamp))
  }

  /** Masking followed by the drop is the same as keeping the in-range rows untouched: values
      are never clamped, and a row with both values in range is never lost. */
  lemma {:induction false} CleanRowsAreInRangeRows(rows: seq<Row>, addPower: bool, addStamp: bool, stamp: string)
    ensures CleanRows(rows, addPower, addStamp, stamp) == ExtendAll(InRangeRows(rows), addPower, addStamp, stamp)
  {
    if rows != [] {
      var init, row := rows[..|rows| - 1], rows[|rows| - 1];
      CleanRowsAreInRangeRows(init, addPower, addStamp, stamp);
      var cleaned := CleanRow(row, addPower, addStamp, stamp);
      assert Retained(cleaned) <==> InRangeRow(row);
      if InRangeRow(row) {
        assert row["tension" := Get(row, "tension")]["courant" := Get(row, "courant")] == row;
      }
      var a := ExtendAll(InRangeRows(init), addPower, addStamp, stamp);
      var extra := if InRangeRow(row) then [row] else [];
      assert InRangeRows(rows) == InRangeRows(init) + extra;
      assert ExtendAll(InRangeRows(init) + extra, addPower, addStamp, stamp) == a + ExtendAll(extra, addPower, addStamp, stamp);
    }
  }

  /** The in-range rows are exactly the input's in-range rows, in input order, each position
      kept once: an in-range row that occurs twice is kept twice. */
  lemma {:induction false} InRangeRowsSelect(rows: seq<Row>)
    ensures forall r :: r in InRangeRows(rows) <==> r in rows && InRangeRow(r)
    ensures SubsequenceOf(InRangeRows(rows), rows)
    ensures KeepsExactly(InRangeRows(rows), rows, seq(|rows|, k requires 0 <= k < |rows| => InRangeRow(rows[k])))
  {
    var keep := seq(|rows|, k requires 0 <= k < |rows| => InRangeRow(rows[k]));
    if rows == [] {
      SubsequenceOfEmpty(rows);
      KeepsExactlyEmpty(rows, keep);
    } else {
      var init, last := rows[..|rows| - 1], rows[|rows| - 1];
      InRangeRowsSelect(init);
      assert rows == init + [last];
      SubsequenceOfExtend(InRangeRows(init), init, last, InRangeRow(last));
      var keep0 := seq(|init|, k requires 0 <= k < |init| => InRangeRow(init[k]));
      assert keep == keep0 + [InRangeRow(last)];
      KeepsExactlyExtend(InRangeRows(init), init, keep0, last, InRangeRow(last));
    }
  }

  /** An accepted batch: its rows are the input's in-range rows, in order and with their
      multiplicity, each extended by the derived columns; every retained value is inside its
      range; the column list grows by the absent derived columns only. */
  lemma ValidatedRows(f: Frame, stamp: string)
    requires Validated(f, stamp).Ok?
    ensures var out := Validated(f, stamp).value;
      && out.columns == ValidatedColumns(f.columns)
      && out.rows == ExtendAll(InRangeRows(f.rows), "puissance" !in f.columns, "timestamp" !in f.columns, stamp)
      && (forall r :: r in InRangeRows(f.rows) <==> r in f.rows && InRangeRow(r))
      && SubsequenceOf(InRangeRows(f.rows), f.rows)
      && KeepsExactly(InRangeRows(f.rows), f.rows, seq(|f.rows|, k requires 0 <= k < |f.rows| => InRangeRow(f.rows[k])))
      && forall k :: 0 <= k < |out.rows| ==>
           && InRange(Get(out.rows[k], "tension"), TensionMin, TensionMax)
           && InRange(Get(out.rows[k], "courant"), CourantMin, CourantMax)
  {
    var addPower, addStamp := "puissance" !in f.columns, "timestamp" !in f.columns;
    CleanRowsAreInRangeRows(f.rows, addPower, addStamp, stamp);
    InRangeRowsSelect(f.rows);
    var sel := InRangeRows(f.rows);
    forall k | 0 <= k < |sel|
      ensures InRange(Get(ExtendAll(sel, addPower, addStamp, stamp)[k], "tension"), TensionMin, TensionMax)
      ensures InRange(Get(ExtendAll(sel, addPower, addStamp, stamp)[k], "courant"), CourantMin, CourantMax)
    {
      assert sel[k] in sel;
    }
  }

  /** Power is derived only when the batch had no puissance column; an existing column is
      kept as it was, never recomputed. */
  lemma ValidatedPower(f: Frame, stamp: string)
    requires Validated(f, stamp).Ok?
    ensures var out := Validated(f, stamp).value;
      && ("puissance" !in f.columns ==> forall k :: 0 <= k < |out.rows| ==>
            Get(out.rows[k], "tension").Num? && Get(out.rows[k], "courant").Num? &&
            Get(out.rows[k], "puissance") == Power(Get(out.rows[k], "tension"), Get(out.rows[k], "courant")))
      && |out.rows| == |InRangeRows(f.rows)|
      && ("puissance" in f.columns ==> forall k :: 0 <= k < |out.rows| ==>
            Get(out.rows[k], "puissance") == Get(InRangeRows(f.rows)[k], "puissance"))
  {
    ValidatedRows(f, stamp);
  }

  /** A batch without timestamps gets the same single stamp on every row; existing
      timestamps are left alone. */
  lemma ValidatedTimestamp(f: Frame, stamp: string)
    requires Validated(f, stamp).Ok?
    ensures var out := Validated(f, stamp).value;
      && ("timestamp" !in f.columns ==> forall k :: 0 <= k < |out.rows| ==> Get(out.rows[k], "timestamp") == Text(stamp))
      && |out.rows| == |InRangeRows(f.rows)|
      && ("timestamp" in f.columns ==> forall k :: 0 <= k < |out.rows| ==>
            Get(out.rows[k], "timestamp") == Get(InRangeRows(f.rows)[k], "timestamp"))
  {
    ValidatedRows(f, stamp);
  }

  /** Validation keeps the frame well formed. */
  lemma {:induction false} ValidatedWf(f: Frame, stamp: string)
    requires Wf(f) && Validated(f, stamp).Ok?
    ensures Wf(Validated(f, stamp).value)
  {
    ValidatedRows(f, stamp);
    var out := Validated(f, stamp).value;
    var sel := InRangeRows(f.rows);
    forall k | 0 <= k < |out.rows| ensures out.rows[k].Keys == ColumnSet(out.columns) {
      assert sel[k] in sel;
      assert sel[k] in f.rows;
      ExtendKeys(sel[k], f.columns, stamp);
    }
  }

  /** A row holding exactly the batch's columns holds exactly the validated columns once extended. */
  lemma ExtendKeys(row: Row, columns: seq<string>, stamp: string)
    requires row.Keys == ColumnSet(columns)
    ensures Extend(row, "puissance" !in columns, "timestamp" !in columns, stamp).Keys == ColumnSet(ValidatedColumns(columns))
  {
  }

  // ---------------------------------------------------------------------------------------
  // Data-quality report

  /** An advisory finding. `LowVariance` carries the sample variance; its condition
      `std < 0.1` is `variance < 0.01`, the standard deviation being its non-negative root. */
  datatype Issue = NoData | MissingValues(column: string, count: nat) | LowVariance(column: string, variance: real)

  function Mean(xs: seq<real>): real
    requires |xs| > 0
  {
    SumReals(xs) / (|xs| as real)
  }

  function SquaredDeviations(xs: seq<real>, m: real): real
  {
    if xs == [] then 0.0 else SquaredDeviations(xs[..|xs| - 1], m) + (xs[|xs| - 1] - m) * (xs[|xs| - 1] - m)
  }

  /** pandas' `std()` squared: sample variance (divisor n - 1) over the present values; with
      fewer than two values it is NaN, which no comparison accepts. */
  function SampleVariance(xs: seq<real>): Option<real>
  {
    if |xs| < 2 then None else Some(SquaredDeviations(xs, Mean(xs)) / ((|xs| - 1) as real))
  }

  function MissingIssues(columns: seq<string>, rows: seq<Row>): seq<Issue>
  {
    if columns == [] then []
    else
      var c := columns[|columns| - 1];
      var n := MissingCount(rows, c);
      MissingIssues(columns[..|columns| - 1], rows) + (if n > 0 then [MissingValues(c, n)] else [])
  }

  function VarianceIssue(f: Frame, c: string): seq<Issue>
  {
    if c !in f.columns then []
    else match SampleVariance(NumValues(f.rows, c))
      case Some(v) => if v < 0.01 then [LowVariance(c, v)] else []
      case None => []
  }

  function VarianceIssues(f: Frame, columns: seq<string>): seq<Issue>
  {
    if columns == [] then []
    else VarianceIssues(f, columns[..|columns| - 1]) + VarianceIssue(f, columns[|columns| - 1])
  }

  /** The columns whose spread is checked, in order. */
  const VarianceChecked: seq<string> := ["tension", "courant"]

  function QualityIssues(f: Frame): seq<Issue>
  {
    if Empty(f) then [NoData]
    else MissingIssues(f.columns, f.rows) + VarianceIssues(f, VarianceChecked)
  }

  /** `df[c].std()` raises TypeError on a present column that holds text. */
  predicate StdRaises(f: Frame, c: string)
  {
    c in f.columns && HasText(f.rows, c)
  }

  /** `detect_data_quality_issues` with its error path: "no data" for an empty batch; else the
      spread check of tension or courant raises on a text cell, discarding the issues found so
      far; else the report is `QualityIssues`. */
  function QualityReport(f: Frame): Result<seq<Issue>>
  {
    if Empty(f) then Ok([NoData])
    else if StdRaises(f, "tension") || StdRaises(f, "courant") then Err("TypeError: could not convert to numeric")
    else Ok(QualityIssues(f))
  }

  /** The report raises exactly when the batch is non-empty and tension or courant is present
      with a text cell; otherwise it is the specified list of issues. */
  lemma QualityReportRaises(f: Frame)
    ensures QualityReport(f).Err? <==>
      !Empty(f) && (("tension" in f.columns && !NumericColumn(f, "tension")) || ("courant" in f.columns && !NumericColumn(f, "courant")))
    ensures QualityReport(f).Ok? ==> QualityReport(f).value == QualityIssues(f)
  {
    HasTextNotNumeric(f, "tension");
    HasTextNotNumeric(f, "courant");
  }

  /** The per-column count of `df.isnull().sum()`. */
  method CountMissing(rows: seq<Row>, c: string) returns (count: nat)
    ensures count == MissingCount(rows, c)
  {
    count := 0;
    for j := 0 to |rows|
      invariant count == MissingCount(rows[..j], c)
    {
      if Get(rows[j], c) == Missing { count := count + 1; }
      assert rows[..j + 1][..j] == rows[..j];
    }
    assert rows[..|rows|] == rows;
  }

  /** `detect_data_quality_issues`: grows the list column by column; the spread check raises
      on a text cell in tension or courant. */
  method DetectQualityIssues(f: Frame) returns (r: Result<seq<Issue>>)
    ensures r == QualityReport(f)
    ensures Empty(f) <==> r == Ok([NoData])
    ensures r.Err? <==>
      !Empty(f) && (("tension" in f.columns && !NumericColumn(f, "tension")) || ("courant" in f.columns && !NumericColumn(f, "courant")))
  {
    QualityReportRaises(f);
    if Empty(f) {
      return Ok([NoData]);
    }
    var missing := FindMissing(f);
    var low := FindLowVariance(f);
    if low.Err? {
      return Err(low.error);
    }
    var issues := missing + low.value;
    MissingIssuesSound(f.columns, f.rows);
    VarianceIssuesLow(f, VarianceChecked);
    if |missing| > 0 {
      assert issues[0] == missing[0];
    } else if |issues| > 0 {
      assert issues[0] == low.value[0];
    }
    r := Ok(issues);
  }

  /** The per-column missing counts, column by column. */
  method FindMissing(f: Frame) returns (issues: seq<Issue>)
    ensures issues == MissingIssues(f.columns, f.rows)
  {
    issues := [];
    for i := 0 to |f.columns|
      invariant issues == MissingIssues(f.columns[..i], f.rows)
    {
      var c := f.columns[i];
      var count := CountMissing(f.rows, c);
      if count > 0 {
        issues := issues + [MissingValues(c, count)];
      }
      assert f.columns[..i + 1][..i] == f.columns[..i];
    }
    assert f.columns[..|f.columns|] == f.columns;
  }

  /** The spread checks on tension and courant; `std()` raises on the first of them that is
      present and holds text. */
  method FindLowVariance(f: Frame) returns (r: Result<seq<Issue>>)
    ensures r.Err? <==> StdRaises(f, "tension") || StdRaises(f, "courant")
    ensures r.Err? ==> r.error == "TypeError: could not convert to numeric"
    ensures r.Ok? ==> r.value == VarianceIssues(f, VarianceChecked)
  {
    var issues := [];
    for k := 0 to |VarianceChecked|
      invariant issues == VarianceIssues(f, VarianceChecked[..k])
      invariant forall j :: 0 <= j < k ==> !StdRaises(f, VarianceChecked[j])
    {
      var c := VarianceChecked[k];
      if c in f.columns {
        if HasText(f.rows, c) {
          return Err("TypeError: could not convert to numeric");
        }
        var v := SampleVariance(NumValues(f.rows, c));
        if v.Some? && v.value < 0.01 {
          issues := issues + [LowVariance(c, v.value)];
        }
      }
      assert VarianceChecked[..k + 1][..k] == VarianceChecked[..k];
    }
    assert VarianceChecked[..|VarianceChecked|] == VarianceChecked;
    r := Ok(issues);
  }

  /** The spread checks only ever report low variance. */
  lemma {:induction false} VarianceIssuesLow(f: Frame, columns: seq<string>)
    ensures forall i :: 0 <= i < |VarianceIssues(f, columns)| ==> VarianceIssues(f, columns)[i].LowVariance?
  {
    if columns != [] {
      VarianceIssuesLow(f, columns[..|columns| - 1]);
    }
  }

  function IssueColumns(issues: seq<Issue>): seq<string>
  {
    if issues == [] then []
    else IssueColumns(issues[..|issues| - 1]) + (if issues[|issues| - 1].NoData? then [] else [issues[|issues| - 1].column])
  }

  lemma {:induction false} IssueColumnsAppend(a: seq<Issue>, b: seq<Issue>)
    ensures IssueColumns(a + b) == IssueColumns(a) + IssueColumns(b)
  {
    if b != [] {
      assert (a + b)[..|a + b| - 1] == a + b[..|b| - 1];
      IssueColumnsAppend(a, b[..|b| - 1]);
    } else {
      assert a + b == a;
    }
  }

  /** Every missing-value issue names a column of the batch and carries its positive count. */
  lemma {:induction false} MissingIssuesSound(columns: seq<string>, rows: seq<Row>)
    ensures forall i :: 0 <= i < |MissingIssues(columns, rows)| ==>
      && MissingIssues(columns, rows)[i].MissingValues?
      && MissingIssues(columns, rows)[i].column in columns
      && MissingIssues(columns, rows)[i].count == MissingCount(rows, MissingIssues(columns, rows)[i].column)
      && MissingIssues(columns, rows)[i].count > 0
  {
    if columns != [] {
      var init := columns[..|columns| - 1];
      MissingIssuesSound(init, rows);
      assert forall c :: c in init ==> c in columns;
    }
  }

  /** Every column with a missing cell is reported, with its count. */
  lemma {:induction false} MissingIssuesComplete(columns: seq<string>, rows: seq<Row>)
    ensures forall c :: c in columns && MissingCount(rows, c) > 0 ==> MissingValues(c, MissingCount(rows, c)) in MissingIssues(columns, rows)
  {
    if columns != [] {
      var init, last := columns[..|columns| - 1], columns[|columns| - 1];
      MissingIssuesComplete(init, rows);
      assert columns == init + [last];
    }
  }

  /** The missing-value issues come in column order. */
  lemma {:induction false} MissingIssuesOrdered(columns: seq<string>, rows: seq<Row>)
    ensures SubsequenceOf(IssueColumns(MissingIssues(columns, rows)), columns)
  {
    if columns == [] {
      SubsequenceOfEmpty(columns);
    } else {
      var init, c := columns[..|columns| - 1], columns[|columns| - 1];
      MissingIssuesOrdered(init, rows);
      assert columns == init + [c];
      var n := MissingCount(rows, c);
      var extra := if n > 0 then [MissingValues(c, n)] else [];
      IssueColumnsAppend(MissingIssues(init, rows), extra);
      assert IssueColumns(extra) == if n > 0 then [c] else [] by {
        if n > 0 { assert extra[..0] == []; }
      }
      SubsequenceOfExtend(IssueColumns(MissingIssues(init, rows)), init, c, n > 0);
    }
  }

  lemma VarianceIssuesChecked(f: Frame)
    ensures VarianceIssues(f, VarianceChecked) == VarianceIssue(f, "tension") + VarianceIssue(f, "courant")
  {
    var vc := VarianceChecked;
    assert vc[..|vc| - 1] == ["tension"];
    assert vc[..|vc| - 1][..0] == [];
    assert VarianceIssues(f, ["tension"]) == VarianceIssues(f, []) + VarianceIssue(f, "tension");
  }

  lemma VarianceReport(f: Frame)
    ensures forall c, v :: LowVariance(c, v) in VarianceIssues(f, VarianceChecked) <==>
      (c == "tension" || c == "courant") && c in f.columns && SampleVariance(NumValues(f.rows, c)) == Some(v) && v < 0.01
  {
    VarianceIssuesChecked(f);
  }

  /** The report on a non-empty batch: the missing-value issues in column order, then a
      low-variance issue for tension and then courant, each exactly when that column is present
      and has at least two values whose sample variance is below 0.01. */
  lemma QualityIssuesShape(f: Frame)
    requires !Empty(f)
    ensures NoData !in QualityIssues(f)
    ensures forall c :: c in f.columns && MissingCount(f.rows, c) > 0 ==> MissingValues(c, MissingCount(f.rows, c)) in QualityIssues(f)
    ensures forall c, n :: MissingValues(c, n) in QualityIssues(f) ==> c in f.columns && n == MissingCount(f.rows, c) && n > 0
    ensures forall c, v :: LowVariance(c, v) in QualityIssues(f) <==>
      (c == "tension" || c == "courant") && c in f.columns && SampleVariance(NumValues(f.rows, c)) == Some(v) && v < 0.01
    ensures SubsequenceOf(IssueColumns(MissingIssues(f.columns, f.rows)), f.columns)
  {
    MissingIssuesSound(f.columns, f.rows);
    MissingIssuesComplete(f.columns, f.rows);
    MissingIssuesOrdered(f.columns, f.rows);
    VarianceIssuesLow(f, VarianceChecked);
    VarianceReport(f);
    var m := MissingIssues(f.columns, f.rows);
    var v := VarianceIssues(f, VarianceChecked);
    assert QualityIssues(f) == m + v;
    assert forall x :: x in m ==> x.MissingValues?;
    assert forall x :: x in v ==> x.LowVariance?;
    assert forall x :: x in m + v <==> x in m || x in v;
  }
}
