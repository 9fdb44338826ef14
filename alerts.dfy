/** The alert engine (services/alerte_engine.py): the flagged readings, projected to their
    zone and predicted fault, with a criticality derived from the fault label. */
module AlertEngine {
  import opened Common
  import opened Frames

  datatype Criticality = Critique | Elevee | Moderee

  /** The label the alert table shows. */
  function CriticalityName(c: Criticality): string
  {
    match c
    case Critique => "Critique"
    case Elevee => "Élevée"
    case Moderee => "Modérée"
  }

  /** The inner `criticite` lookup: short circuits are critical, overloads high, anything
      else (a cut line, an unknown fault, even "OK" or a missing label) moderate. */
  function Criticite(panne: Cell): (c: Criticality)
    ensures c == Critique <==> panne == Text("Court-circuit")
    ensures c == Elevee <==> panne == Text("Surcharge")
    ensures c == Moderee <==> panne != Text("Court-circuit") && panne != Text("Surcharge")
  {
    if panne == Text("Court-circuit") then Critique
    else if panne == Text("Surcharge") then Elevee
    else Moderee
  }

  /** One row of the alert table: the columns zone, panne_predite and criticite. */
  datatype Alert = Alert(zone: Cell, panne: Cell, criticite: Criticality)

  function AlertOf(row: Row): Alert
  {
    Alert(Get(row, "zone"), Get(row, "panne_predite"), Criticite(Get(row, "panne_predite")))
  }

  /** The alert table of a batch, in row order. */
  function AlertsOf(rows: seq<Row>): (r: seq<Alert>)
    ensures |r| == |FlaggedRows(rows)|
  {
    var flagged := FlaggedRows(rows);
    seq(|flagged|, j requires 0 <= j < |flagged| => AlertOf(flagged[j]))
  }

  /** `generate_alerts`: a batch without the anomalie column fails on the filter, and one without
      zone or panne_predite fails when the label is read or the columns are selected. */
  function Alerts(f: Frame): Result<seq<Alert>>
  {
    if "anomalie" !in f.columns then Err("KeyError: 'anomalie'")
    else if "panne_predite" !in f.columns then Err("KeyError: 'panne_predite'")
    else if "zone" !in f.columns then Err("KeyError: 'zone'")
    else Ok(AlertsOf(f.rows))
  }

  method GenerateAlerts(f: Frame) returns (r: Result<seq<Alert>>)
    ensures r == Alerts(f)
  {
    if "anomalie" !in f.columns { return Err("KeyError: 'anomalie'"); }
    if "panne_predite" !in f.columns { return Err("KeyError: 'panne_predite'"); }
    if "zone" !in f.columns { return Err("KeyError: 'zone'"); }
    var alerts: seq<Alert> := [];
    for i := 0 to |f.rows|
      invariant alerts == AlertsOf(f.rows[..i])
    {
      var row := f.rows[i];
      assert f.rows[..i + 1] == f.rows[..i] + [row];
      if Get(row, "anomalie") == Num(1.0) {
        var panne := Get(row, "panne_predite");
        alerts := alerts + [Alert(Get(row, "zone"), panne, Criticite(panne))];
      }
      assert FlaggedRows(f.rows[..i + 1]) == FlaggedRows(f.rows[..i]) + (if Flagged(row) then [row] else []);
    }
    assert f.rows[..|f.rows|] == f.rows;
    return Ok(alerts);
  }

  /** Alerts come exactly from the flagged rows, one per flagged position (a flagged row that
      occurs twice gives two alerts), in row order; zone and label are copied and the
      criticality is derived from the label. Without a flagged row the table is empty. */
  lemma AlertsSelect(f: Frame)
    requires Alerts(f).Ok?
    ensures |Alerts(f).value| == |FlaggedRows(f.rows)|
    ensures forall j :: 0 <= j < |Alerts(f).value| ==>
      && Alerts(f).value[j].zone == Get(FlaggedRows(f.rows)[j], "zone")
      && Alerts(f).value[j].panne == Get(FlaggedRows(f.rows)[j], "panne_predite")
      && Alerts(f).value[j].criticite == Criticite(Alerts(f).value[j].panne)
    ensures forall row :: row in FlaggedRows(f.rows) <==> row in f.rows && Flagged(row)
    ensures SubsequenceOf(FlaggedRows(f.rows), f.rows)
    ensures KeepsExactly(FlaggedRows(f.rows), f.rows, seq(|f.rows|, k requires 0 <= k < |f.rows| => Flagged(f.rows[k])))
    ensures (forall k :: 0 <= k < |f.rows| ==> !Flagged(f.rows[k])) <==> Alerts(f).value == []
  {
    SelectRowsSelect(f.rows, "anomalie", Num(1.0));
    assert seq(|f.rows|, k requires 0 <= k < |f.rows| => Flagged(f.rows[k]))
        == seq(|f.rows|, k requires 0 <= k < |f.rows| => Get(f.rows[k], "anomalie") == Num(1.0));
  }
}
