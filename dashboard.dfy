/** The dashboard's two-stage annotation of a batch (app.py): a fixed threshold on the detector's
    score flags anomalous readings, the classifier names the fault of the flagged ones only, and
    the resulting alerts are shown in criticality order. */
module Dashboard {
  import opened Common
  import opened Frames
  import opened Models
  import opened AlertEngine

  /** Readings scoring strictly below this are anomalous. */
  const AnomalyThreshold: real := -0.5

  /** Stage one on one row: the score, the flag `score < -0.5` as 0 or 1, and the label "OK". */
  function ScoreRow(row: Row, score: real): Row
  {
    row["anomalie_score" := Num(score)]
       ["anomalie" := Num(if score < AnomalyThreshold then 1.0 else 0.0)]
       ["panne_predite" := Text("OK")]
  }

  function ScoredRows(rows: seq<Row>, scores: seq<real>): (r: seq<Row>)
    requires |scores| == |rows|
    ensures |r| == |rows|
  {
    seq(|rows|, k requires 0 <= k < |rows| => ScoreRow(rows[k], scores[k]))
  }

  /** The fallback when a feature column is absent: `anomalie = 0` and `panne_predite = "OK"`. */
  function DefaultRow(row: Row): Row
  {
    row["anomalie" := Num(0.0)]["panne_predite" := Text("OK")]
  }

  function DefaultRows(rows: seq<Row>): (r: seq<Row>)
    ensures |r| == |rows|
  {
    seq(|rows|, k requires 0 <= k < |rows| => DefaultRow(rows[k]))
  }

  /** The columns after the three stage-one assignments. */
  function ScoredColumns(columns: seq<string>): seq<string>
  {
    WithColumn(WithColumn(WithColumn(columns, "anomalie_score"), "anomalie"), "panne_predite")
  }

  /** `df.loc[mask, FEATURES]`: the features of the flagged rows, in row order. */
  function MaskedFeatures(rows: seq<Row>): (r: seq<Features>)
    ensures |r| == |FlaggedRows(rows)|
  {
    FeaturesOfRows(FlaggedRows(rows))
  }

  /** The cells of column `c`, row by row. */
  function ColumnOf(rows: seq<Row>, c: string): (r: seq<Cell>)
    ensures |r| == |rows|
  {
    seq(|rows|, k requires 0 <= k < |rows| => Get(rows[k], c))
  }

  /** `df.loc[mask, col] = values`: the j-th flagged row receives the j-th value; the other rows
      are left alone, except that a column created by the assignment reads as missing there. */
  function WriteMasked(rows: seq<Row>, col: string, values: seq<Cell>): (r: seq<Row>)
    requires |values| == |FlaggedRows(rows)|
    ensures |r| == |rows|
  {
    if rows == [] then []
    else
      var init, last := rows[..|rows| - 1], rows[|rows| - 1];
      var n := |FlaggedRows(init)|;
      if Flagged(last) then WriteMasked(init, col, values[..n]) + [last[col := values[n]]]
      else WriteMasked(init, col, values) + [if col in last then last else last[col := Missing]]
  }

  function Texts(labels: seq<string>): (r: seq<Cell>)
    ensures |r| == |labels|
  {
    seq(|labels|, j requires 0 <= j < |labels| => Text(labels[j]))
  }

  function Nums(xs: seq<real>): (r: seq<Cell>)
    ensures |r| == |xs|
  {
    seq(|xs|, j requires 0 <= j < |xs| => Num(xs[j]))
  }

  function Repeat(cell: Cell, n: nat): (r: seq<Cell>)
    ensures |r| == n
  {
    seq(n, _ => cell)
  }

  /** `max` of a non-empty row of probabilities. */
  function MaxOf(xs: seq<real>): (m: real)
    requires |xs| > 0
    ensures m in xs
    ensures forall i :: 0 <= i < |xs| ==> xs[i] <= m
  {
    if |xs| == 1 then xs[0]
    else
      var m' := MaxOf(xs[..|xs| - 1]);
      assert forall i :: 0 <= i < |xs| - 1 ==> xs[i] == xs[..|xs| - 1][i];
      if xs[|xs| - 1] > m' then xs[|xs| - 1] else m'
  }

  /** What the guarded classification block produced. */
  datatype Stage2 = Labelled(labels: seq<string>, confidence: Option<seq<real>>) | Failed(message: string)

  /** The classification block on the flagged features `x`: the labels, then, when the model
      has `predict_proba`, each row's largest class probability. Any exception inside the block
      (a raising call, a result of the wrong length, a probability row with no class) is caught. */
  function Classify(clf: Classifier, x: seq<Features>): (o: Stage2)
    ensures o.Labelled? ==> |o.labels| == |x|
    ensures o.Labelled? && o.confidence.Some? ==> |o.confidence.value| == |x|
  {
    match clf.predict(x)
    case Err(e) => Failed(e)
    case Ok(labels) =>
      if |labels| != |x| then Failed("ValueError: shape mismatch")
      else match clf.predictProba
        case None => Labelled(labels, None)
        case Some(proba) =>
          match proba(x)
          case Err(e) => Failed(e)
          case Ok(p) =>
            if ProbaFails(Ok(p), |x|) then Failed("ValueError: shape mismatch")
            else Labelled(labels, Some(seq(|p|, j requires 0 <= j < |p| => MaxOf(p[j]))))
  }

  /** The block yields the classifier's labels and, when it has `predict_proba`, the largest
      probability of each row; it fails exactly when a call raises or a result has the wrong
      shape. */
  lemma ClassifyOutcome(clf: Classifier, x: seq<Features>)
    ensures var o := Classify(clf, x);
      && (o.Labelled? ==> clf.predict(x) == Ok(o.labels))
      && (o.Labelled? ==> (o.confidence.Some? <==> clf.predictProba.Some?))
      && (o.Labelled? && o.confidence.Some? ==>
            && clf.predictProba.value(x).Ok?
            && |clf.predictProba.value(x).value| == |x|
            && forall j :: 0 <= j < |x| ==>
                 |clf.predictProba.value(x).value[j]| > 0
                 && o.confidence.value[j] == MaxOf(clf.predictProba.value(x).value[j]))
      && (o.Failed? <==>
            || clf.predict(x).Err?
            || |clf.predict(x).value| != |x|
            || (clf.predictProba.Some? && ProbaFails(clf.predictProba.value(x), |x|)))
  {
  }

  /** `predict_proba` raised, or its result cannot be reduced and written back. */
  predicate ProbaFails(p: Result<seq<seq<real>>>, n: nat)
  {
    p.Err? || |p.value| != n || exists j :: 0 <= j < |p.value| && |p.value[j]| == 0
  }

  /** Stage one: scores for every row, or the exception that ends the block. */
  function ScoreBatch(f: Frame, det: Detector): Result<seq<Row>>
  {
    match det.scoreSamples(FeaturesOfRows(f.rows))
    case Err(e) => Err(e)
    case Ok(scores) =>
      if |scores| != |f.rows| then Err("ValueError: Length of values does not match length of index")
      else Ok(ScoredRows(f.rows, scores))
  }

  /** Stage two on the scored rows: nothing to do without a flagged row. */
  function Classified(columns: seq<string>, scored: seq<Row>, clf: Classifier): Frame
  {
    var x := MaskedFeatures(scored);
    if |x| == 0 then Frame(columns, scored)
    else match Classify(clf, x)
      case Failed(_) => Frame(columns, WriteMasked(scored, "panne_predite", Repeat(Text("Inconnu"), |x|)))
      case Labelled(labels, None) => Frame(columns, WriteMasked(scored, "panne_predite", Texts(labels)))
      case Labelled(labels, Some(conf)) =>
        var labelled := WriteMasked(scored, "panne_predite", Texts(labels));
        WriteMaskedCount(scored, "panne_predite", Texts(labels));
        Frame(WithColumn(columns, "confiance"), WriteMasked(labelled, "confiance", Nums(conf)))
  }

  /** The annotated batch. A failure of the detector is not caught. */
  function Annotated(f: Frame, det: Detector, clf: Classifier): Result<Frame>
  {
    if !HasFeatureColumns(f.columns) then
      Ok(Frame(WithColumn(WithColumn(f.columns, "anomalie"), "panne_predite"), DefaultRows(f.rows)))
    else match ScoreBatch(f, det)
      case Err(e) => Err(e)
      case Ok(scored) => Ok(Classified(ScoredColumns(f.columns), scored, clf))
  }

  /** The flagged-row prefix count grows with the prefix. */
  lemma {:induction false} FlaggedPrefix(rows: seq<Row>, i: nat)
    requires i <= |rows|
    ensures |FlaggedRows(rows[..i])| <= |FlaggedRows(rows)|
    decreases |rows|
  {
    if i < |rows| {
      var init := rows[..|rows| - 1];
      assert rows[..i] == init[..i];
      FlaggedPrefix(init, i);
    } else {
      assert rows[..i] == rows;
    }
  }

  /** `df.loc[mask, col] = values` in one pass, a cursor walking through `values`. */
  method WriteMaskedRows(rows: seq<Row>, col: string, values: seq<Cell>) returns (out: seq<Row>)
    requires |values| == |FlaggedRows(rows)|
    ensures out == WriteMasked(rows, col, values)
  {
    out := [];
    var j := 0;
    for i := 0 to |rows|
      invariant j == |FlaggedRows(rows[..i])|
      invariant j <= |values|
      invariant out == WriteMasked(rows[..i], col, values[..j])
    {
      var row := rows[i];
      assert rows[..i + 1][..i] == rows[..i];
      assert rows[..i + 1][i] == row;
      FlaggedPrefix(rows, i + 1);
      if Get(row, "anomalie") == Num(1.0) {
        assert values[..j + 1][..j] == values[..j];
        out := out + [row[col := values[j]]];
        j := j + 1;
      } else if col in row {
        out := out + [row];
      } else {
        out := out + [row[col := Missing]];
      }
    }
    assert rows[..|rows|] == rows;
    assert values[..j] == values;
  }

  /** Writing a column other than the flag keeps every row's flag, hence the flagged rows. */
  lemma WriteMaskedFlags(rows: seq<Row>, col: string, values: seq<Cell>)
    requires col != "anomalie" && |values| == |FlaggedRows(rows)|
    ensures |FlaggedRows(WriteMasked(rows, col, values))| == |FlaggedRows(rows)|
    ensures forall k :: 0 <= k < |rows| ==> Flagged(WriteMasked(rows, col, values)[k]) == Flagged(rows[k])
  {
    WriteMaskedKeepsFlags(rows, col, values);
    SameFlagsSameCount(WriteMasked(rows, col, values), rows);
  }

  /** Writing a column other than the flag keeps the number of flagged rows. */
  lemma WriteMaskedCount(rows: seq<Row>, col: string, values: seq<Cell>)
    requires col != "anomalie" && |values| == |FlaggedRows(rows)|
    ensures |FlaggedRows(WriteMasked(rows, col, values))| == |FlaggedRows(rows)|
  {
    WriteMaskedFlags(rows, col, values);
  }

  lemma {:induction false} WriteMaskedKeepsFlags(rows: seq<Row>, col: string, values: seq<Cell>)
    requires col != "anomalie" && |values| == |FlaggedRows(rows)|
    ensures forall k :: 0 <= k < |rows| ==> Flagged(WriteMasked(rows, col, values)[k]) == Flagged(rows[k])
  {
    if rows != [] {
      var init, last := rows[..|rows| - 1], rows[|rows| - 1];
      var n := |FlaggedRows(init)|;
      var vs := if Flagged(last) then values[..n] else values;
      WriteMaskedKeepsFlags(init, col, vs);
      var r := WriteMasked(rows, col, values);
      var prev := WriteMasked(init, col, vs);
      assert r == prev + [r[|r| - 1]];
      forall k | 0 <= k < |rows| ensures Flagged(r[k]) == Flagged(rows[k]) {
        if k < |init| {
          assert r[k] == prev[k];
          assert rows[k] == init[k];
        }
      }
    }
  }

  /** Two row lists flagged alike have as many flagged rows. */
  lemma {:induction false} SameFlagsSameCount(a: seq<Row>, b: seq<Row>)
    requires |a| == |b| && forall k :: 0 <= k < |a| ==> Flagged(a[k]) == Flagged(b[k])
    ensures |FlaggedRows(a)| == |FlaggedRows(b)|
  {
    if a != [] {
      var a', b' := a[..|a| - 1], b[..|b| - 1];
      forall k | 0 <= k < |a'| ensures Flagged(a'[k]) == Flagged(b'[k]) {
        assert a'[k] == a[k] && b'[k] == b[k];
      }
      SameFlagsSameCount(a', b');
    }
  }

  /** Each output row is its input row with only `col` written, and a row that is not flagged
      keeps the value it had there (missing when it had no such column). */
  lemma {:induction false} WriteMaskedShape(rows: seq<Row>, col: string, values: seq<Cell>)
    requires |values| == |FlaggedRows(rows)|
    ensures forall k :: 0 <= k < |rows| ==>
      WriteMasked(rows, col, values)[k] == rows[k][col := Get(WriteMasked(rows, col, values)[k], col)]
    ensures forall k :: 0 <= k < |rows| && !Flagged(rows[k]) ==>
      Get(WriteMasked(rows, col, values)[k], col) == Get(rows[k], col)
  {
    if rows != [] {
      var init, last := rows[..|rows| - 1], rows[|rows| - 1];
      var n := |FlaggedRows(init)|;
      var vs := if Flagged(last) then values[..n] else values;
      WriteMaskedShape(init, col, vs);
      var r := WriteMasked(rows, col, values);
      var prev := WriteMasked(init, col, vs);
      assert r == prev + [r[|r| - 1]];
      if !Flagged(last) && col in last {
        assert last[col := last[col]] == last;
      }
      forall k | 0 <= k < |init| ensures r[k] == prev[k] && rows[k] == init[k] { }
    }
  }

  /** The written column of the j-th flagged row holds the j-th value. */
  lemma {:induction false} WriteMaskedColumn(rows: seq<Row>, col: string, values: seq<Cell>)
    requires col != "anomalie" && |values| == |FlaggedRows(rows)|
    ensures ColumnOf(FlaggedRows(WriteMasked(rows, col, values)), col) == values
  {
    if rows != [] {
      var init, last := rows[..|rows| - 1], rows[|rows| - 1];
      var n := |FlaggedRows(init)|;
      var vs := if Flagged(last) then values[..n] else values;
      WriteMaskedColumn(init, col, vs);
      var r := WriteMasked(rows, col, values);
      var prev := WriteMasked(init, col, vs);
      assert r[..|r| - 1] == prev;
      var x := r[|r| - 1];
      assert Flagged(x) == Flagged(last);
      assert FlaggedRows(r) == FlaggedRows(prev) + (if Flagged(last) then [x] else []);
      if Flagged(last) {
        assert values == vs + [values[n]];
        assert ColumnOf(FlaggedRows(r), col) == ColumnOf(FlaggedRows(prev), col) + [values[n]];
      }
    }
  }

  /** Cell by cell: the written column of the j-th flagged row holds the j-th value, in row
      order; any other column, and the written column of a row that is not flagged, reads as
      before. No key is lost and only `col` may be added. */
  lemma WriteMaskedCells(rows: seq<Row>, col: string, values: seq<Cell>)
    requires col != "anomalie" && |values| == |FlaggedRows(rows)|
    ensures ColumnOf(FlaggedRows(WriteMasked(rows, col, values)), col) == values
    ensures forall k, c :: 0 <= k < |rows| && c != col ==> Get(WriteMasked(rows, col, values)[k], c) == Get(rows[k], c)
    ensures forall k :: 0 <= k < |rows| && !Flagged(rows[k]) ==> Get(WriteMasked(rows, col, values)[k], col) == Get(rows[k], col)
    ensures forall k :: 0 <= k < |rows| ==> WriteMasked(rows, col, values)[k].Keys == rows[k].Keys + {col}
  {
    WriteMaskedShape(rows, col, values);
    WriteMaskedColumn(rows, col, values);
  }

  /** Writing a column other than the flag keeps the flagged rows' cells of every other column. */
  lemma {:induction false} WriteMaskedOtherColumn(rows: seq<Row>, col: string, values: seq<Cell>, c: string)
    requires col != "anomalie" && c != col && |values| == |FlaggedRows(rows)|
    ensures ColumnOf(FlaggedRows(WriteMasked(rows, col, values)), c) == ColumnOf(FlaggedRows(rows), c)
  {
    if rows != [] {
      var init, last := rows[..|rows| - 1], rows[|rows| - 1];
      var n := |FlaggedRows(init)|;
      var vs := if Flagged(last) then values[..n] else values;
      WriteMaskedOtherColumn(init, col, vs, c);
      var r := WriteMasked(rows, col, values);
      var prev := WriteMasked(init, col, vs);
      assert r[..|r| - 1] == prev;
      var x := r[|r| - 1];
      assert Flagged(x) == Flagged(last);
      assert FlaggedRows(r) == FlaggedRows(prev) + (if Flagged(last) then [x] else []);
      assert FlaggedRows(rows) == FlaggedRows(init) + (if Flagged(last) then [last] else []);
      if Flagged(last) {
        assert Get(x, c) == Get(last, c);
        assert ColumnOf(FlaggedRows(r), c) == ColumnOf(FlaggedRows(prev), c) + [Get(x, c)];
        assert ColumnOf(FlaggedRows(rows), c) == ColumnOf(FlaggedRows(init), c) + [Get(last, c)];
        assert ColumnOf(FlaggedRows(prev), c) == ColumnOf(FlaggedRows(init), c);
      } else {
        assert FlaggedRows(r) == FlaggedRows(prev);
        assert FlaggedRows(rows) == FlaggedRows(init);
      }
    }
  }

  /** `out` differs from `scored` at most in the label and confidence columns, and only on
      flagged rows. */
  ghost predicate StageTwoOnly(scored: seq<Row>, out: seq<Row>)
  {
    && |out| == |scored|
    && (forall k, c :: 0 <= k < |scored| && c != "panne_predite" && c != "confiance" ==> Get(out[k], c) == Get(scored[k], c))
    && forall k :: 0 <= k < |scored| && !Flagged(scored[k]) ==>
         && Get(out[k], "panne_predite") == Get(scored[k], "panne_predite")
         && Get(out[k], "confiance") == Get(scored[k], "confiance")
  }

  /** Stage two touches only the label and confidence columns, does not move a flag, and leaves
      the rows that are not flagged as stage one left them. */
  lemma ClassifiedCells(columns: seq<string>, scored: seq<Row>, clf: Classifier)
    ensures |Classified(columns, scored, clf).rows| == |scored|
    ensures forall k, c :: 0 <= k < |scored| && c != "panne_predite" && c != "confiance" ==>
      Get(Classified(columns, scored, clf).rows[k], c) == Get(scored[k], c)
    ensures forall k :: 0 <= k < |scored| && !Flagged(scored[k]) ==>
      && Get(Classified(columns, scored, clf).rows[k], "panne_predite") == Get(scored[k], "panne_predite")
      && Get(Classified(columns, scored, clf).rows[k], "confiance") == Get(scored[k], "confiance")
  {
    ClassifiedOnlyStageTwo(columns, scored, clf);
  }

  lemma ClassifiedOnlyStageTwo(columns: seq<string>, scored: seq<Row>, clf: Classifier)
    ensures StageTwoOnly(scored, Classified(columns, scored, clf).rows)
  {
    var x := MaskedFeatures(scored);
    if |x| > 0 {
      var o := Classify(clf, x);
      var out := Classified(columns, scored, clf).rows;
      if o.Failed? {
        assert out == WriteMasked(scored, "panne_predite", Repeat(Text("Inconnu"), |x|));
        LabelsOnly(scored, Repeat(Text("Inconnu"), |x|));
      } else if o.confidence.None? {
        assert out == WriteMasked(scored, "panne_predite", Texts(o.labels));
        LabelsOnly(scored, Texts(o.labels));
      } else {
        WriteMaskedCount(scored, "panne_predite", Texts(o.labels));
        assert out == WriteMasked(WriteMasked(scored, "panne_predite", Texts(o.labels)), "confiance", Nums(o.confidence.value));
        LabelsAndConfidenceOnly(scored, o.labels, o.confidence.value);
      }
    }
  }

  lemma LabelsOnly(scored: seq<Row>, values: seq<Cell>)
    requires |values| == |FlaggedRows(scored)|
    ensures StageTwoOnly(scored, WriteMasked(scored, "panne_predite", values))
  {
    WriteMaskedCells(scored, "panne_predite", values);
  }

  /** The labels, then the confidences, written on the flagged rows touch no other cell, and
      none of the rows that are not flagged. */
  lemma LabelsAndConfidenceOnly(scored: seq<Row>, labels: seq<string>, conf: seq<real>)
    requires |labels| == |FlaggedRows(scored)|
    requires |conf| == |FlaggedRows(WriteMasked(scored, "panne_predite", Texts(labels)))|
    ensures StageTwoOnly(scored, WriteMasked(WriteMasked(scored, "panne_predite", Texts(labels)), "confiance", Nums(conf)))
  {
    var labelled := WriteMasked(scored, "panne_predite", Texts(labels));
    WriteMaskedCells(scored, "panne_predite", Texts(labels));
    WriteMaskedFlags(scored, "panne_predite", Texts(labels));
    WriteMaskedCells(labelled, "confiance", Nums(conf));
  }

  /** Stage one on its own: each scored row keeps its other cells. */
  lemma ScoredCells(rows: seq<Row>, scores: seq<real>)
    requires |scores| == |rows|
    ensures forall k, c :: 0 <= k < |rows| && c != "anomalie_score" && c != "anomalie" && c != "panne_predite" ==>
      Get(ScoredRows(rows, scores)[k], c) == Get(rows[k], c)
    ensures forall k :: 0 <= k < |rows| ==>
      && Get(ScoredRows(rows, scores)[k], "anomalie_score") == Num(scores[k])
      && (Flagged(ScoredRows(rows, scores)[k]) <==> scores[k] < AnomalyThreshold)
      && (!Flagged(ScoredRows(rows, scores)[k]) ==> Get(ScoredRows(rows, scores)[k], "anomalie") == Num(0.0))
      && Get(ScoredRows(rows, scores)[k], "panne_predite") == Text("OK")
  {
  }

  /** Stage one: with the feature columns present and a score per row, each row carries its
      score and is flagged exactly when that score is strictly below -0.5 (so a score of exactly
      -0.5 is not anomalous). A scorer that raises, or returns the wrong number of scores, ends
      the annotation with its error. */
  lemma AnnotatedThreshold(f: Frame, det: Detector, clf: Classifier, scores: seq<real>)
    requires HasFeatureColumns(f.columns)
    requires det.scoreSamples(FeaturesOfRows(f.rows)) == Ok(scores)
    ensures Annotated(f, det, clf).Ok? <==> |scores| == |f.rows|
    ensures Annotated(f, det, clf).Ok? ==>
      && |Annotated(f, det, clf).value.rows| == |f.rows|
      && forall k :: 0 <= k < |f.rows| ==>
           && Get(Annotated(f, det, clf).value.rows[k], "anomalie_score") == Num(scores[k])
           && (Flagged(Annotated(f, det, clf).value.rows[k]) <==> scores[k] < AnomalyThreshold)
  {
    if |scores| == |f.rows| {
      ScoredCells(f.rows, scores);
      ClassifiedCells(ScoredColumns(f.columns), ScoredRows(f.rows, scores), clf);
    }
  }

  lemma AnnotatedDetectorRaises(f: Frame, det: Detector, clf: Classifier)
    requires HasFeatureColumns(f.columns) && det.scoreSamples(FeaturesOfRows(f.rows)).Err?
    ensures Annotated(f, det, clf) == Err(det.scoreSamples(FeaturesOfRows(f.rows)).error)
  {
  }

  /** Whatever the models answer, the flag is 0 or 1, a row flagged 0 is labelled "OK", and
      every column other than the four the annotation writes keeps its cells. */
  lemma AnnotatedConsistent(f: Frame, det: Detector, clf: Classifier, out: Frame)
    requires Annotated(f, det, clf) == Ok(out)
    ensures |out.rows| == |f.rows|
    ensures forall k :: 0 <= k < |out.rows| ==>
      Get(out.rows[k], "anomalie") == Num(0.0) || Get(out.rows[k], "anomalie") == Num(1.0)
    ensures forall k :: 0 <= k < |out.rows| && Get(out.rows[k], "anomalie") == Num(0.0) ==>
      Get(out.rows[k], "panne_predite") == Text("OK")
    ensures forall k, c :: 0 <= k < |out.rows| && c !in ["anomalie_score", "anomalie", "panne_predite", "confiance"] ==>
      Get(out.rows[k], c) == Get(f.rows[k], c)
  {
    if HasFeatureColumns(f.columns) {
      var scores := det.scoreSamples(FeaturesOfRows(f.rows)).value;
      var scored := ScoredRows(f.rows, scores);
      assert out == Classified(ScoredColumns(f.columns), scored, clf);
      ClassifiedConsistent(f.rows, scores, ScoredColumns(f.columns), clf);
    } else {
      assert out.rows == DefaultRows(f.rows);
    }
  }

  /** Stage two after stage one keeps the flag 0 or 1, a row flagged 0 labelled "OK", and the
      other columns' cells. */
  lemma ClassifiedConsistent(rows: seq<Row>, scores: seq<real>, columns: seq<string>, clf: Classifier)
    requires |scores| == |rows|
    ensures var out := Classified(columns, ScoredRows(rows, scores), clf).rows;
      && |out| == |rows|
      && (forall k :: 0 <= k < |out| ==> Get(out[k], "anomalie") == Num(0.0) || Get(out[k], "anomalie") == Num(1.0))
      && (forall k :: 0 <= k < |out| && Get(out[k], "anomalie") == Num(0.0) ==> Get(out[k], "panne_predite") == Text("OK"))
      && (forall k, c :: 0 <= k < |out| && c !in ["anomalie_score", "anomalie", "panne_predite", "confiance"] ==>
            Get(out[k], c) == Get(rows[k], c))
  {
    ScoredCells(rows, scores);
    ClassifiedCells(columns, ScoredRows(rows, scores), clf);
  }

  /** Without one of the three feature columns neither model is consulted: every row is
      flagged 0 and labelled "OK". */
  lemma AnnotatedFallback(f: Frame, det: Detector, clf: Classifier, det': Detector, clf': Classifier)
    requires !HasFeatureColumns(f.columns)
    ensures Annotated(f, det, clf).Ok?
    ensures forall k :: 0 <= k < |Annotated(f, det, clf).value.rows| ==>
      && Get(Annotated(f, det, clf).value.rows[k], "anomalie") == Num(0.0)
      && Get(Annotated(f, det, clf).value.rows[k], "panne_predite") == Text("OK")
    ensures Annotated(f, det, clf) == Annotated(f, det', clf')
  {
  }

  /** Two classifiers that answer alike on the flagged rows' features. */
  predicate AgreeOn(clf: Classifier, clf': Classifier, x: seq<Features>)
  {
    && clf.predict(x) == clf'.predict(x)
    && clf.predictProba.Some? == clf'.predictProba.Some?
    && (clf.predictProba.Some? ==> clf.predictProba.value(x) == clf'.predictProba.value(x))
  }

  /** The classifier is consulted only on the flagged rows: classifiers that agree there give
      the same annotation, and when no row scores below the threshold it is not consulted at all. */
  lemma ClassifierOnlyOnFlagged(f: Frame, det: Detector, clf: Classifier, clf': Classifier, scored: seq<Row>)
    requires HasFeatureColumns(f.columns) && ScoreBatch(f, det) == Ok(scored)
    requires AgreeOn(clf, clf', MaskedFeatures(scored))
    ensures Annotated(f, det, clf) == Annotated(f, det, clf')
  {
    var x := MaskedFeatures(scored);
    var columns := ScoredColumns(f.columns);
    assert Annotated(f, det, clf) == Ok(Classified(columns, scored, clf));
    assert Annotated(f, det, clf') == Ok(Classified(columns, scored, clf'));
    assert Classified(columns, scored, clf) == Classified(columns, scored, clf') by {
      assert Classify(clf, x) == Classify(clf', x);
    }
  }

  lemma NoAnomalyNoClassifier(f: Frame, det: Detector, clf: Classifier, clf': Classifier, scores: seq<real>)
    requires HasFeatureColumns(f.columns)
    requires det.scoreSamples(FeaturesOfRows(f.rows)) == Ok(scores) && |scores| == |f.rows|
    requires forall k :: 0 <= k < |scores| ==> scores[k] >= AnomalyThreshold
    ensures MaskedFeatures(ScoreBatch(f, det).value) == []
    ensures Annotated(f, det, clf) == Annotated(f, det, clf')
  {
    var scored := ScoredRows(f.rows, scores);
    ScoredCells(f.rows, scores);
    SelectRowsSelect(scored, "anomalie", Num(1.0));
  }

  /** A classification block that raises marks every flagged row "Inconnu", leaves the others
      "OK", adds no confidence column, and the annotation still succeeds. */
  lemma AnnotatedUnknown(f: Frame, det: Detector, clf: Classifier, scored: seq<Row>)
    requires HasFeatureColumns(f.columns) && ScoreBatch(f, det) == Ok(scored)
    requires MaskedFeatures(scored) != [] && Classify(clf, MaskedFeatures(scored)).Failed?
    ensures Annotated(f, det, clf).Ok?
    ensures Annotated(f, det, clf).value.columns == ScoredColumns(f.columns)
    ensures |Annotated(f, det, clf).value.rows| == |f.rows|
    ensures forall k :: 0 <= k < |f.rows| ==>
      Get(Annotated(f, det, clf).value.rows[k], "panne_predite")
        == (if Flagged(Annotated(f, det, clf).value.rows[k]) then Text("Inconnu") else Text("OK"))
  {
    var scores := det.scoreSamples(FeaturesOfRows(f.rows)).value;
    ScoredCells(f.rows, scores);
    var vs := Repeat(Text("Inconnu"), |MaskedFeatures(scored)|);
    var columns := ScoredColumns(f.columns);
    assert Annotated(f, det, clf) == Ok(Classified(columns, scored, clf));
    assert Classified(columns, scored, clf) == Frame(columns, WriteMasked(scored, "panne_predite", vs));
    WriteMaskedShape(scored, "panne_predite", vs);
    WriteMaskedFlags(scored, "panne_predite", vs);
    WriteMaskedConstant(scored, "panne_predite", Text("Inconnu"));
  }

  /** Writing one value on every flagged row puts that value on each of them. */
  lemma {:induction false} WriteMaskedConstant(rows: seq<Row>, col: string, v: Cell)
    ensures forall k :: 0 <= k < |rows| && Flagged(rows[k]) ==>
      Get(WriteMasked(rows, col, Repeat(v, |FlaggedRows(rows)|))[k], col) == v
  {
    if rows != [] {
      var init, last := rows[..|rows| - 1], rows[|rows| - 1];
      WriteMaskedConstant(init, col, v);
      var n := |FlaggedRows(init)|;
      var vs := Repeat(v, |FlaggedRows(rows)|);
      var r := WriteMasked(rows, col, vs);
      var prev := WriteMasked(init, col, Repeat(v, n));
      if Flagged(last) {
        assert vs[..n] == Repeat(v, n);
      } else {
        assert vs == Repeat(v, n);
      }
      assert r[..|r| - 1] == prev;
      forall k | 0 <= k < |rows| && Flagged(rows[k]) ensures Get(r[k], col) == v {
        if k < |init| { assert r[k] == prev[k]; assert rows[k] == init[k]; }
      }
    }
  }

  /** A classification block that succeeds writes the j-th label on the j-th flagged row and,
      when the model has `predict_proba`, the j-th confidence likewise (by the contract of
      `Classify`, the largest class probability of that row), in a column created if needed.
      Without `predict_proba` no confidence column is added and the existing one is untouched. */
  lemma AnnotatedLabels(f: Frame, det: Detector, clf: Classifier, scored: seq<Row>, labels: seq<string>, conf: Option<seq<real>>)
    requires HasFeatureColumns(f.columns) && ScoreBatch(f, det) == Ok(scored)
    requires MaskedFeatures(scored) != [] && Classify(clf, MaskedFeatures(scored)) == Labelled(labels, conf)
    ensures Annotated(f, det, clf).Ok?
    ensures ColumnOf(FlaggedRows(Annotated(f, det, clf).value.rows), "panne_predite") == Texts(labels)
    ensures conf.Some? ==>
      && "confiance" in Annotated(f, det, clf).value.columns
      && ColumnOf(FlaggedRows(Annotated(f, det, clf).value.rows), "confiance") == Nums(conf.value)
    ensures conf.None? ==>
      && Annotated(f, det, clf).value.columns == ScoredColumns(f.columns)
      && forall k :: 0 <= k < |f.rows| ==> Get(Annotated(f, det, clf).value.rows[k], "confiance") == Get(f.rows[k], "confiance")
  {
    assert Annotated(f, det, clf) == Ok(Classified(ScoredColumns(f.columns), scored, clf));
    if conf.Some? {
      ClassifiedWithConfidence(ScoredColumns(f.columns), scored, clf, labels, conf.value);
    } else {
      ClassifiedWithoutConfidence(ScoredColumns(f.columns), scored, clf, labels);
      var scores := det.scoreSamples(FeaturesOfRows(f.rows)).value;
      ScoredCells(f.rows, scores);
    }
  }

  /** Stage two with probabilities: the j-th label and the j-th confidence on the j-th flagged row. */
  lemma ClassifiedWithConfidence(columns: seq<string>, scored: seq<Row>, clf: Classifier, labels: seq<string>, conf: seq<real>)
    requires MaskedFeatures(scored) != [] && Classify(clf, MaskedFeatures(scored)) == Labelled(labels, Some(conf))
    ensures var g := Classified(columns, scored, clf);
      && g.columns == WithColumn(columns, "confiance")
      && ColumnOf(FlaggedRows(g.rows), "panne_predite") == Texts(labels)
      && ColumnOf(FlaggedRows(g.rows), "confiance") == Nums(conf)
  {
    var labelled := WriteMasked(scored, "panne_predite", Texts(labels));
    WriteMaskedFlags(scored, "panne_predite", Texts(labels));
    assert Classified(columns, scored, clf) == Frame(WithColumn(columns, "confiance"), WriteMasked(labelled, "confiance", Nums(conf)));
    WriteMaskedColumn(scored, "panne_predite", Texts(labels));
    WriteMaskedColumn(labelled, "confiance", Nums(conf));
    WriteMaskedOtherColumn(labelled, "confiance", Nums(conf), "panne_predite");
  }

  /** Stage two without probabilities: the j-th label on the j-th flagged row, and no
      confidence column written. */
  lemma ClassifiedWithoutConfidence(columns: seq<string>, scored: seq<Row>, clf: Classifier, labels: seq<string>)
    requires MaskedFeatures(scored) != [] && Classify(clf, MaskedFeatures(scored)) == Labelled(labels, None)
    ensures var g := Classified(columns, scored, clf);
      && g.columns == columns
      && ColumnOf(FlaggedRows(g.rows), "panne_predite") == Texts(labels)
      && |g.rows| == |scored|
      && forall k :: 0 <= k < |scored| ==> Get(g.rows[k], "confiance") == Get(scored[k], "confiance")
  {
    assert Classified(columns, scored, clf) == Frame(columns, WriteMasked(scored, "panne_predite", Texts(labels)));
    WriteMaskedCells(scored, "panne_predite", Texts(labels));
  }

  /** The dashboard's annotation of a batch, step by step: the fallback, or the three stage-one
      columns written row by row, then stage two on the flagged rows. */
  method Annotate(f: Frame, det: Detector, clf: Classifier) returns (r: Result<Frame>)
    ensures r == Annotated(f, det, clf)
  {
    var columns := f.columns;
    if !("tension" in columns && "courant" in columns && "puissance" in columns) {
      var rows := MarkDefault(f.rows);
      columns := WithColumn(WithColumn(columns, "anomalie"), "panne_predite");
      return Ok(Frame(columns, rows));
    }
    var scoring := det.scoreSamples(FeaturesOfRows(f.rows));
    if scoring.Err? {
      return Err(scoring.error);
    }
    var scores := scoring.value;
    if |scores| != |f.rows| {
      return Err("ValueError: Length of values does not match length of index");
    }
    columns := WithColumn(columns, "anomalie_score");
    columns := WithColumn(columns, "anomalie");
    columns := WithColumn(columns, "panne_predite");
    var rows := MarkScores(f.rows, scores);
    assert ScoreBatch(f, det) == Ok(rows);
    var g := ClassifyFlagged(columns, rows, clf);
    return Ok(g);
  }

  /** The fallback, row by row. */
  method MarkDefault(rows: seq<Row>) returns (out: seq<Row>)
    ensures out == DefaultRows(rows)
  {
    out := [];
    for i := 0 to |rows|
      invariant |out| == i
      invariant forall k :: 0 <= k < i ==> out[k] == DefaultRow(rows[k])
    {
      out := out + [rows[i]["anomalie" := Num(0.0)]["panne_predite" := Text("OK")]];
    }
  }

  /** Stage one, row by row. */
  method MarkScores(rows: seq<Row>, scores: seq<real>) returns (out: seq<Row>)
    requires |scores| == |rows|
    ensures out == ScoredRows(rows, scores)
  {
    out := [];
    for i := 0 to |rows|
      invariant |out| == i
      invariant forall k :: 0 <= k < i ==> out[k] == ScoreRow(rows[k], scores[k])
    {
      var flag := if scores[i] < AnomalyThreshold then 1.0 else 0.0;
      out := out + [rows[i]["anomalie_score" := Num(scores[i])]["anomalie" := Num(flag)]["panne_predite" := Text("OK")]];
    }
  }

  /** Stage two: the guarded classification of the flagged rows, written back with two masked
      assignments. */
  method ClassifyFlagged(columns: seq<string>, scored: seq<Row>, clf: Classifier) returns (g: Frame)
    ensures g == Classified(columns, scored, clf)
  {
    var x := MaskedFeatures(scored);
    if |x| == 0 {
      return Frame(columns, scored);
    }
    var outcome := Classify(clf, x);
    match outcome {
      case Failed(_) =>
        var rows := WriteMaskedRows(scored, "panne_predite", Repeat(Text("Inconnu"), |x|));
        g := Frame(columns, rows);
      case Labelled(labels, conf) =>
        var labelled := WriteMaskedRows(scored, "panne_predite", Texts(labels));
        if conf.Some? {
          WriteMaskedCount(scored, "panne_predite", Texts(labels));
          var rows := WriteMaskedRows(labelled, "confiance", Nums(conf.value));
          g := Frame(WithColumn(columns, "confiance"), rows);
        } else {
          g := Frame(columns, labelled);
        }
    }
  }

  /** The display order `{"Critique": 0, "Élevée": 1, "Modérée": 2}`. */
  function Rank(c: Criticality): nat
  {
    match c
    case Critique => 0
    case Elevee => 1
    case Moderee => 2
  }

  predicate SortedByRank(alerts: seq<Alert>)
  {
    forall i, j :: 0 <= i < j < |alerts| ==> Rank(alerts[i].criticite) <= Rank(alerts[j].criticite)
  }

  /** The alert table re-sorted by criticality rank: the same alerts, most critical first. */
  method SortByCriticality(alerts: seq<Alert>) returns (sorted: seq<Alert>)
    ensures multiset(sorted) == multiset(alerts)
    ensures SortedByRank(sorted)
  {
    var critical: seq<Alert> := [];
    var high: seq<Alert> := [];
    var moderate: seq<Alert> := [];
    for i := 0 to |alerts|
      invariant multiset(critical) + multiset(high) + multiset(moderate) == multiset(alerts[..i])
      invariant forall a :: a in critical ==> Rank(a.criticite) == 0
      invariant forall a :: a in high ==> Rank(a.criticite) == 1
      invariant forall a :: a in moderate ==> Rank(a.criticite) == 2
    {
      assert alerts[..i + 1] == alerts[..i] + [alerts[i]];
      match alerts[i].criticite {
        case Critique => critical := critical + [alerts[i]];
        case Elevee => high := high + [alerts[i]];
        case Moderee => moderate := moderate + [alerts[i]];
      }
    }
    assert alerts[..|alerts|] == alerts;
    sorted := critical + high + moderate;
    forall i, j | 0 <= i < j < |sorted| ensures Rank(sorted[i].criticite) <= Rank(sorted[j].criticite) {
      assert sorted[i] in critical || sorted[i] in high || sorted[i] in moderate;
      assert sorted[j] in critical || sorted[j] in high || sorted[j] in moderate;
      if j < |critical| {
        assert sorted[i] == critical[i] && sorted[j] == critical[j];
      } else if j < |critical| + |high| {
        assert sorted[j] == high[j - |critical|];
        if i >= |critical| { assert sorted[i] == high[i - |critical|]; } else { assert sorted[i] == critical[i]; }
      } else {
        assert sorted[j] == moderate[j - |critical| - |high|];
      }
    }
  }

  /** The "average confidence" figure: absent without a confidence column, the mean of its
      present values, and 0 when every value is missing. */
  function AverageConfidence(f: Frame): (r: Option<real>)
    ensures r.Some? <==> "confiance" in f.columns
    ensures r.Some? && NumValues(f.rows, "confiance") == [] ==> r.value == 0.0
  {
    if "confiance" !in f.columns then None
    else
      var xs := NumValues(f.rows, "confiance");
      Some(if |xs| == 0 then 0.0 else SumReals(xs) / (|xs| as real))
  }

  /** The present values of a column whose numbers all lie in [lo, hi] lie there too. */
  lemma {:induction false} NumValuesWithin(rows: seq<Row>, c: string, lo: real, hi: real)
    requires forall k :: 0 <= k < |rows| && Get(rows[k], c).Num? ==> lo <= Get(rows[k], c).x <= hi
    ensures forall i :: 0 <= i < |NumValues(rows, c)| ==> lo <= NumValues(rows, c)[i] <= hi
  {
    if rows != [] {
      var init := rows[..|rows| - 1];
      assert forall k :: 0 <= k < |init| ==> init[k] == rows[k];
      NumValuesWithin(init, c, lo, hi);
    }
  }

  /** Confidences that are probabilities average to a probability. */
  lemma AverageConfidenceBounds(f: Frame)
    requires "confiance" in f.columns
    requires forall k :: 0 <= k < |f.rows| && Get(f.rows[k], "confiance").Num? ==>
      0.0 <= Get(f.rows[k], "confiance").x <= 1.0
    ensures 0.0 <= AverageConfidence(f).value <= 1.0
  {
    var xs := NumValues(f.rows, "confiance");
    NumValuesWithin(f.rows, "confiance", 0.0, 1.0);
    SumRealsBounds(xs, 0.0, 1.0);
    if |xs| > 0 {
      var n := |xs| as real;
      assert SumReals(xs) / n <= 1.0 by {
        assert SumReals(xs) <= n * 1.0;
      }
    }
  }

  /** The delta beside the average: shown only above 0.8, as the excess over 0.8. */
  function ConfidenceDelta(avg: real): (r: Option<real>)
    ensures r.Some? <==> avg > 0.8
    ensures r.Some? ==> r.value > 0.0 && avg == 0.8 + r.value
  {
    if avg > 0.8 then Some(avg - 0.8) else None
  }
}
