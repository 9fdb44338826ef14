/** The two trained models, seen only through the capabilities the pipeline calls. Training
    and persistence belong to the machine-learning library and are not modelled. */
module Models {
  import opened Common
  import opened Frames

  /** The feature vector `[tension, courant, puissance]` of one reading, cells as they are. */
  datatype Features = Features(tension: Cell, courant: Cell, puissance: Cell)

  function FeaturesOf(row: Row): Features
  {
    Features(Get(row, "tension"), Get(row, "courant"), Get(row, "puissance"))
  }

  /** `df[FEATURES]`: one feature vector per row, in row order. */
  function FeaturesOfRows(rows: seq<Row>): (r: seq<Features>)
    ensures |r| == |rows|
  {
    seq(|rows|, k requires 0 <= k < |rows| => FeaturesOf(rows[k]))
  }

  predicate HasFeatureColumns(columns: seq<string>)
  {
    "tension" in columns && "courant" in columns && "puissance" in columns
  }

  /** The unsupervised detector: `score_samples` (lower is more anomalous) and `predict`
      (-1 for an outlier, 1 otherwise), each on a batch; either may raise. */
  datatype Detector = Detector(
    scoreSamples: seq<Features> -> Result<seq<real>>,
    predict: seq<Features> -> Result<seq<int>>)

  /** The fault classifier: its `classes_`, `predict`, and `predict_proba` when the model has
      one (one probability per class, in `classes_` order); the calls may raise. */
  datatype Classifier = Classifier(
    classes: seq<string>,
    predict: seq<Features> -> Result<seq<string>>,
    predictProba: Option<seq<Features> -> Result<seq<seq<real>>>>)

  /** The classifier is fitted on the fault rows only (`panne == 1`), never on normal readings,
      and on every fault row as often as it occurs. */
  function ClassifierTrainingRows(f: Frame): (r: seq<Row>)
    ensures forall row :: row in r <==> row in f.rows && Get(row, "panne") == Num(1.0)
    ensures SubsequenceOf(r, f.rows)
    ensures KeepsExactly(r, f.rows, seq(|f.rows|, k requires 0 <= k < |f.rows| => Get(f.rows[k], "panne") == Num(1.0)))
  {
    SelectRowsSelect(f.rows, "panne", Num(1.0));
    SelectRows(f.rows, "panne", Num(1.0))
  }
}
