/** The real-time prediction service (services/prediction_service.py): one reading at a time,
    the detector's outlier verdict, the fault class of outliers, a confidence, and an
    append-only history with windowed queries and aggregate statistics. The wall clock is the
    parameter `now`, in microseconds. */
module Prediction {
  import opened Common
  import opened Frames
  import opened Models

  const MicrosPerMinute: int := 60_000_000

  /** One entry of the history. */
  datatype Record = Record(timestamp: int, data: Row, anomaly: int, panneType: string, confidence: real)

  /** `probas[0][list(classes_).index(t)]`, or the exception that lookup raises: no
      `predict_proba`, a raising call, an unknown class or an index beyond the first row. */
  function ProbabilityOf(clf: Classifier, x: seq<Features>, t: string): (r: Result<real>)
    ensures r.Ok? <==>
      && clf.predictProba.Some? && clf.predictProba.value(x).Ok?
      && |clf.predictProba.value(x).value| > 0
      && t in clf.classes
      && IndexOf(clf.classes, t).value < |clf.predictProba.value(x).value[0]|
    ensures r.Ok? ==>
      var idx := IndexOf(clf.classes, t).value;
      clf.classes[idx] == t && r.value == clf.predictProba.value(x).value[0][idx]
  {
    match clf.predictProba
    case None => Err("AttributeError: predict_proba")
    case Some(proba) =>
      match proba(x)
      case Err(e) => Err(e)
      case Ok(probas) =>
        if |probas| == 0 then Err("IndexError: index 0 is out of bounds")
        else match IndexOf(clf.classes, t)
          case None => Err("ValueError: not in list")
          case Some(idx) =>
            if idx < |probas[0]| then Ok(probas[0][idx]) else Err("IndexError: index out of bounds")
  }

  /** `_calculate_confidence`: 0.95 for "OK"; otherwise the class probability, with 0.7 when
      the lookup raises. */
  function Confidence(clf: Classifier, x: seq<Features>, panneType: string): (c: real)
    ensures panneType == "OK" ==> c == 0.95
    ensures panneType != "OK" && ProbabilityOf(clf, x, panneType).Ok? ==> c == ProbabilityOf(clf, x, panneType).value
    ensures panneType != "OK" && ProbabilityOf(clf, x, panneType).Err? ==> c == 0.7
  {
    if panneType == "OK" then 0.95
    else match ProbabilityOf(clf, x, panneType)
      case Ok(p) => p
      case Err(_) => 0.7
  }

  predicate HasFeatures(point: Row)
  {
    "tension" in point && "courant" in point && "puissance" in point
  }

  /** The record `predict_anomaly` builds for `point` at time `now`, or the exception raised on
      the way: a reading without one of the features, a model call that raises, or an empty
      answer where the first element is read. */
  function PredictPoint(det: Detector, clf: Classifier, point: Row, now: int): Result<Record>
  {
    if !HasFeatures(point) then Err("KeyError: feature missing")
    else
      var x := [FeaturesOf(point)];
      match det.predict(x)
      case Err(e) => Err(e)
      case Ok(verdicts) =>
        if |verdicts| == 0 then Err("IndexError: index 0 is out of bounds")
        else if verdicts[0] != -1 then Ok(Record(now, point, 0, "OK", Confidence(clf, x, "OK")))
        else match clf.predict(x)
          case Err(e) => Err(e)
          case Ok(labels) =>
            if |labels| == 0 then Err("IndexError: index 0 is out of bounds")
            else Ok(Record(now, point, 1, labels[0], Confidence(clf, x, labels[0])))
  }

  /** What a record promises: the flag is 0 or 1, and an inlier is "OK" with confidence 0.95. */
  predicate Consistent(r: Record)
  {
    && (r.anomaly == 0 || r.anomaly == 1)
    && (r.anomaly == 0 ==> r.panneType == "OK" && r.confidence == 0.95)
  }

  /** A prediction carries the submitted reading and the time it was made; it is an anomaly
      exactly when the detector's first verdict is -1, and only then is the fault type the
      classifier's first label, with the confidence of that label. */
  lemma PredictPointSpec(det: Detector, clf: Classifier, point: Row, now: int)
    requires PredictPoint(det, clf, point, now).Ok?
    ensures HasFeatures(point)
    ensures PredictPoint(det, clf, point, now).value.data == point
    ensures PredictPoint(det, clf, point, now).value.timestamp == now
    ensures Consistent(PredictPoint(det, clf, point, now).value)
    ensures det.predict([FeaturesOf(point)]).Ok? && |det.predict([FeaturesOf(point)]).value| > 0
    ensures PredictPoint(det, clf, point, now).value.anomaly == 1 <==> det.predict([FeaturesOf(point)]).value[0] == -1
    ensures PredictPoint(det, clf, point, now).value.anomaly == 1 ==>
      && clf.predict([FeaturesOf(point)]).Ok? && |clf.predict([FeaturesOf(point)]).value| > 0
      && PredictPoint(det, clf, point, now).value.panneType == clf.predict([FeaturesOf(point)]).value[0]
      && PredictPoint(det, clf, point, now).value.confidence
           == Confidence(clf, [FeaturesOf(point)], PredictPoint(det, clf, point, now).value.panneType)
  {
  }

  /** A reading lacking a feature fails before any model is called. */
  lemma PredictPointNeedsFeatures(det: Detector, clf: Classifier, point: Row, now: int)
    requires !HasFeatures(point)
    ensures PredictPoint(det, clf, point, now).Err?
  {
  }

  /** The classifier is consulted only for an outlier: for an inlier any two classifiers give
      the same record, whatever the classifier would answer. */
  lemma ClassifierOnlyForOutliers(det: Detector, clf: Classifier, clf': Classifier, point: Row, now: int)
    requires HasFeatures(point)
    requires det.predict([FeaturesOf(point)]).Ok? && |det.predict([FeaturesOf(point)]).value| > 0
    requires det.predict([FeaturesOf(point)]).value[0] != -1
    ensures PredictPoint(det, clf, point, now) == PredictPoint(det, clf', point, now)
    ensures PredictPoint(det, clf, point, now).Ok?
  {
  }

  /** Per record, whether it was made strictly after `cutoff`. */
  function Newer(history: seq<Record>, cutoff: int): (keep: seq<bool>)
    ensures |keep| == |history|
    ensures forall k :: 0 <= k < |history| ==> keep[k] == (history[k].timestamp > cutoff)
  {
    seq(|history|, k requires 0 <= k < |history| => history[k].timestamp > cutoff)
  }

  /** The records whose timestamp is strictly after `cutoff`, in history order, each position
      kept once: two equal records in the window are both returned. */
  function After(history: seq<Record>, cutoff: int): (r: seq<Record>)
    ensures forall p :: p in r <==> p in history && p.timestamp > cutoff
    ensures SubsequenceOf(r, history)
    ensures KeepsExactly(r, history, Newer(history, cutoff))
  {
    if history == [] then
      SubsequenceOfEmpty(history);
      KeepsExactlyEmpty(history, Newer(history, cutoff));
      []
    else
      var init, last := history[..|history| - 1], history[|history| - 1];
      var r := After(init, cutoff);
      SubsequenceOfExtend(r, init, last, last.timestamp > cutoff);
      KeepsExactlyExtend(r, init, Newer(init, cutoff), last, last.timestamp > cutoff);
      assert history == init + [last];
      assert Newer(history, cutoff) == Newer(init, cutoff) + [last.timestamp > cutoff];
      r + (if last.timestamp > cutoff then [last] else [])
  }

  function Types(history: seq<Record>): (r: seq<string>)
    ensures |r| == |history|
  {
    seq(|history|, k requires 0 <= k < |history| => history[k].panneType)
  }

  function Confidences(history: seq<Record>): (r: seq<real>)
    ensures |r| == |history|
  {
    seq(|history|, k requires 0 <= k < |history| => history[k].confidence)
  }

  /** `df["anomaly"].sum()`. */
  function SumAnomaly(history: seq<Record>): int
  {
    if history == [] then 0 else SumAnomaly(history[..|history| - 1]) + history[|history| - 1].anomaly
  }

  /** Number of records flagged as anomalies. */
  function AnomalyCount(history: seq<Record>): (n: nat)
    ensures n <= |history|
  {
    if history == [] then 0
    else AnomalyCount(history[..|history| - 1]) + (if history[|history| - 1].anomaly == 1 then 1 else 0)
  }

  /** On consistent records the anomaly sum counts the anomalies. */
  lemma {:induction false} SumAnomalyCounts(history: seq<Record>)
    requires forall k :: 0 <= k < |history| ==> Consistent(history[k])
    ensures SumAnomaly(history) == AnomalyCount(history)
  {
    if history != [] {
      var init := history[..|history| - 1];
      assert forall k :: 0 <= k < |init| ==> init[k] == history[k];
      SumAnomalyCounts(init);
    }
  }

  /** `value_counts().to_dict()`: each value that occurs, with its number of occurrences. */
  function TypeCounts(types: seq<string>): (m: map<string, nat>)
    ensures forall t :: t in m <==> t in types
    ensures forall t :: t in m ==> m[t] == Occurrences(types, t)
  {
    if types == [] then map[]
    else
      var m := TypeCounts(types[..|types| - 1]);
      var t := types[|types| - 1];
      assert types == types[..|types| - 1] + [t];
      m[t := (if t in m then m[t] else 0) + 1]
  }

  /** The distinct values of `s` in order of first occurrence. */
  function DistinctValues(s: seq<string>): (d: seq<string>)
    ensures Distinct(d)
    ensures forall t :: t in d <==> t in s
  {
    if s == [] then []
    else
      var d := DistinctValues(s[..|s| - 1]);
      var t := s[|s| - 1];
      assert s == s[..|s| - 1] + [t];
      if t in d then d else d + [t]
  }

  /** The counts of `m` summed over `keys`. */
  function SumOver(m: map<string, nat>, keys: seq<string>): nat
  {
    if keys == [] then 0
    else SumOver(m, keys[..|keys| - 1]) + (if keys[|keys| - 1] in m then m[keys[|keys| - 1]] else 0)
  }

  lemma {:induction false} SumOverOutside(m: map<string, nat>, keys: seq<string>, t: string, v: nat)
    requires t !in keys
    ensures SumOver(m[t := v], keys) == SumOver(m, keys)
  {
    if keys != [] {
      SumOverOutside(m, keys[..|keys| - 1], t, v);
    }
  }

  lemma {:induction false} SumOverUpdate(m: map<string, nat>, keys: seq<string>, t: string, v: nat)
    requires Distinct(keys) && t in keys && t in m
    ensures SumOver(m[t := v], keys) == SumOver(m, keys) - m[t] + v
  {
    var init, last := keys[..|keys| - 1], keys[|keys| - 1];
    if last == t {
      assert t !in init by {
        forall i | 0 <= i < |init| ensures init[i] != t {
          assert init[i] == keys[i];
        }
      }
      SumOverOutside(m, init, t, v);
    } else {
      assert t in init by {
        var i :| 0 <= i < |keys| && keys[i] == t;
        assert i < |init| && init[i] == t;
      }
      assert Distinct(init) by {
        forall i, j | 0 <= i < j < |init| ensures init[i] != init[j] {
          assert init[i] == keys[i] && init[j] == keys[j];
        }
      }
      SumOverUpdate(m, init, t, v);
    }
  }

  /** The per-type counts add up to the number of records. */
  lemma {:induction false} TypeCountsPartition(types: seq<string>)
    ensures SumOver(TypeCounts(types), DistinctValues(types)) == |types|
  {
    if types != [] {
      var init, t := types[..|types| - 1], types[|types| - 1];
      TypeCountsPartition(init);
      var m, d := TypeCounts(init), DistinctValues(init);
      if t in d {
        SumOverUpdate(m, d, t, m[t] + 1);
      } else {
        SumOverOutside(m, d, t, 1);
        assert DistinctValues(types) == d + [t];
        assert (d + [t])[..|d|] == d;
      }
    }
  }

  lemma RatioWithin(a: nat, n: nat)
    requires 0 < n && a <= n
    ensures 0.0 <= (a as real) / (n as real) <= 1.0
  {
    assert (a as real) / (n as real) * (n as real) == a as real;
  }

  /** `get_statistics` on a non-empty history. */
  datatype Stats = Stats(
    totalPredictions: nat,
    anomaliesDetected: int,
    anomalyRate: real,
    panneTypes: map<string, nat>,
    avgConfidence: real)

  class PredictionService {
    const detector: Detector
    const classifier: Classifier
    var history: seq<Record>

    /** Every record in the history is consistent. */
    ghost predicate Valid()
      reads this
    {
      forall k :: 0 <= k < |history| ==> Consistent(history[k])
    }

    /** The service over two loaded models, with an empty history. */
    constructor(detector: Detector, classifier: Classifier)
      ensures this.detector == detector && this.classifier == classifier
      ensures history == []
      ensures Valid()
    {
      this.detector := detector;
      this.classifier := classifier;
      history := [];
    }

    /** `predict_anomaly`: a successful prediction is appended at the end of the history,
        earlier entries untouched and no entry dropped; one that raises leaves it as it was. */
    method PredictAnomaly(point: Row, now: int) returns (r: Result<Record>)
      requires Valid()
      modifies this
      ensures r == PredictPoint(detector, classifier, point, now)
      ensures r.Ok? ==> history == old(history) + [r.value]
      ensures r.Err? ==> history == old(history)
      ensures Valid()
    {
      r := PredictPoint(detector, classifier, point, now);
      if r.Ok? {
        PredictPointSpec(detector, classifier, point, now);
        history := history + [r.value];
      }
    }

    /** `get_recent_predictions`: the records made strictly after `minutes` before `now`. */
    function RecentPredictions(minutes: int, now: int): (r: seq<Record>)
      reads this
      ensures forall p :: p in r <==> p in history && p.timestamp > now - minutes * MicrosPerMinute
      ensures SubsequenceOf(r, history)
      ensures KeepsExactly(r, history, Newer(history, now - minutes * MicrosPerMinute))
    {
      After(history, now - minutes * MicrosPerMinute)
    }

    /** `get_statistics`: nothing (the empty dictionary) without a record; otherwise the total,
        the anomaly sum and rate, the count of each fault type and the mean confidence. */
    function Statistics(): (r: Option<Stats>)
      reads this
      ensures r.None? <==> history == []
      ensures r.Some? ==>
        && r.value.totalPredictions == |history|
        && r.value.anomaliesDetected == SumAnomaly(history)
        && r.value.anomalyRate == (r.value.anomaliesDetected as real) / (|history| as real)
        && (forall t :: t in r.value.panneTypes <==> t in Types(history))
        && (forall t :: t in r.value.panneTypes ==> r.value.panneTypes[t] == Occurrences(Types(history), t))
        && r.value.avgConfidence == SumReals(Confidences(history)) / (|history| as real)
    {
      if history == [] then None
      else
        var n := |history| as real;
        Some(Stats(|history|, SumAnomaly(history), (SumAnomaly(history) as real) / n,
                   TypeCounts(Types(history)), SumReals(Confidences(history)) / n))
    }

    /** On a valid history the anomaly figure is the number of anomalies and the rate lies
        in [0, 1]. */
    lemma StatisticsAnomalies()
      requires Valid() && history != []
      ensures Statistics().value.anomaliesDetected == AnomalyCount(history)
      ensures 0.0 <= Statistics().value.anomalyRate <= 1.0
    {
      SumAnomalyCounts(history);
      RatioWithin(AnomalyCount(history), |history|);
    }

    /** The per-type counts add up to the total. */
    lemma StatisticsPartition()
      requires history != []
      ensures SumOver(Statistics().value.panneTypes, DistinctValues(Types(history))) == Statistics().value.totalPredictions
    {
      TypeCountsPartition(Types(history));
    }

    /** A wider window holds every record of a narrower one. */
    lemma RecentWindows(minutes: int, minutes': int, now: int)
      requires minutes <= minutes'
      ensures forall p :: p in RecentPredictions(minutes, now) ==> p in RecentPredictions(minutes', now)
    {
    }
  }
}
