# Sonelgaz fault detection: a verified model of the reading pipeline

This project models the deterministic core of a small supervision application for an
electricity distribution network. The application reads batches of voltage (`tension`) and
current (`courant`) readings per zone. It validates and cleans them against the network's
physical ranges, derives power (`puissance`) and flags anomalous readings with an
unsupervised detector. A fault classifier then runs on the flagged readings only. From the
flagged readings the application builds an alert table ordered by criticality. Beside this
pipeline sit a real-time prediction service with an append-only history, a
role-and-session layer and an audit journal of fixed-width lines.

The model is written in Dafny and has one module per part of the program:

- `Frames`: data frames as ordered column names plus one `map<string, Cell>` per row. A
  cell is missing, a number or a text.
- `DataValidation`: `validate_sonelgaz_data` and `detect_data_quality_issues`.
- `Preprocessing`: `preprocess`.
- `Models`: the two trained models, seen only through the calls the program makes. They
  are uninterpreted functions that may fail.
- `Dashboard`: the two-stage annotation block, the alert sort and the average-confidence
  figure of the dashboard page.
- `AlertEngine`: `generate_alerts`.
- `Prediction`: the `PredictionService` class.
- `Auth`: the user table, `require_role`, `authenticate`, `logout` and
  `check_session_timeout`. The session is a class whose fields the operations update.
- `AuditLog`, `Text` and `Json`:
  - the journal's line format and its two files
  - reading the journal back
  - the event builders
  - the Python string operations (`strip`, `ljust`, `readlines`) and `json.dumps` they rely
    on

Code that works step by step is modelled as methods with loops. Each method is proved equal
to a specification function, and the lemmas state properties of those functions. The
affected code is the validation pass, the quality report, preprocessing, the annotation
block, the alert sort and the alert engine. Objects whose fields change are classes with
`modifies` clauses: the prediction service, the session state and the journal files.

A selection (a boolean row filter, the read-back loop's line filter) is stated with
`Common.KeepsExactly`: the result keeps exactly the marked positions of its input, in order.
This fixes the result completely, including how often a repeated row is kept
(`Common.KeepsExactlyUnique`).

External inputs are parameters:

- the wall clock (`now`, in microseconds; `stamp`, `timestamp` and `today` as the
  formatted strings)
- the trained models
- the file system's verdict on each write or read (`dailyOk`, `mainOk`, `readOk`)

## Model

| member | source | states |
|---|---|---|
| DataValidation.RangeChecked | scripts/data_validation.py:25-32 | a checked cell is either the original cell or missing, and it is kept exactly when it is a number within the inclusive bounds; values are never clamped |
| DataValidation.FirstAbsent | scripts/data_validation.py:16-19 | no error is raised exactly when every mandatory column is present |
| DataValidation.FirstAbsentAfterPresent | scripts/data_validation.py:16-19 | when the first k mandatory columns are present and the next one is absent, the error names that next column |
| DataValidation.CleanRows | scripts/data_validation.py:22-43 | cleaning never adds rows |
| DataValidation.Validate | scripts/data_validation.py:8-45 | the loop-based validator (error checks, then one pass that masks, derives and drops) computes exactly the specified outcome `Validated` |
| DataValidation.CheckRequired | scripts/data_validation.py:16-19 | the loop over the mandatory columns returns the first absent one, in the order tension, courant, zone |
| DataValidation.CleanBatch | scripts/data_validation.py:22-43 | the row loop computes the specified cleaned rows |
| DataValidation.ValidateEmpty | scripts/data_validation.py:12-13 | an empty batch fails with "DataFrame vide" before any other check |
| DataValidation.ValidateRequiredColumns | scripts/data_validation.py:12-19 | a non-empty batch is accepted iff tension, courant and zone are all present; otherwise the error names the first absent one in that order |
| DataValidation.InRangeRows | scripts/data_validation.py:25-43 | selecting the in-range rows never adds rows |
| DataValidation.ExtendAll | scripts/data_validation.py:35-40 | each extended row is its input row with the absent derived columns added |
| DataValidation.CleanRowsAreInRangeRows | scripts/data_validation.py:25-43 | masking out-of-range values and then dropping rows with a missing tension or courant equals keeping the in-range rows untouched and extending them, so no value is clamped and no in-range row is lost |
| DataValidation.InRangeRowsSelect | scripts/data_validation.py:25-43 | the kept rows are exactly the input rows with both values present and in range, in input order, each input position once, so a repeated in-range row is kept as often as it occurs |
| DataValidation.ValidatedRows | scripts/data_validation.py:22-45 | an accepted batch holds exactly the input's in-range rows, in order and with their multiplicity, extended by the derived columns; every retained tension lies in [180, 250] and every courant in [0, 30]; the columns grow only by the absent derived ones |
| DataValidation.ValidatedPower | scripts/data_validation.py:35-36 | without a puissance column every retained row gets tension*courant/1000; an existing puissance column is kept as it was and not recomputed |
| DataValidation.ValidatedTimestamp | scripts/data_validation.py:39-40 | without a timestamp column every retained row gets the same single stamp; existing timestamps are unchanged |
| DataValidation.ValidatedWf | scripts/data_validation.py:22-45 | validation keeps distinct column names and rows that have exactly the frame's columns |
| DataValidation.ExtendKeys | scripts/data_validation.py:35-40 | an extended row has exactly the validated column set |
| DataValidation.CountMissing | scripts/data_validation.py:58 | the counting loop returns the column's number of missing cells |
| DataValidation.DetectQualityIssues | scripts/data_validation.py:47-69 | the outcome equals the specified one; it is exactly ["no data"] iff the batch is empty, and it is a TypeError iff the batch is non-empty and tension or courant is present with a text cell, as `std()` raises |
| DataValidation.FindMissing | scripts/data_validation.py:58-61 | the loop over the columns collects exactly the specified missing-value issues |
| DataValidation.FindLowVariance | scripts/data_validation.py:64-67 | the loop over tension and courant raises a TypeError iff a present one of them holds text, and otherwise collects exactly the specified spread issues |
| DataValidation.QualityReportRaises | scripts/data_validation.py:53-69 | the report raises exactly when the batch is non-empty and tension or courant is present with a text cell; otherwise it is the list of missing-value and low-variance issues |
| DataValidation.VarianceIssuesLow | scripts/data_validation.py:64-67 | the spread checks report only low-variance issues |
| DataValidation.MissingIssuesSound | scripts/data_validation.py:58-61 | every missing-value issue names a column of the batch and carries that column's positive missing count |
| DataValidation.MissingIssuesComplete | scripts/data_validation.py:58-61 | every column with a missing cell is reported with its count |
| DataValidation.MissingIssuesOrdered | scripts/data_validation.py:58-61 | the missing-value issues come in column order |
| DataValidation.VarianceIssuesChecked | scripts/data_validation.py:64 | tension is checked before courant |
| DataValidation.VarianceReport | scripts/data_validation.py:64-67 | a low-variance issue is reported for a column iff the column is tension or courant, is present, and its sample variance exists and is below 0.01 (std < 0.1) |
| DataValidation.QualityIssuesShape | scripts/data_validation.py:53-69 | on a non-empty batch the report has no "no data" entry, exactly the missing-value issues (in column order) and exactly the low-variance issues |
| Preprocessing.PreprocessedRows | services/data_preprocessing.py:2-3 | preprocessing never adds rows |
| Preprocessing.Preprocess | services/data_preprocessing.py:1-4 | the loop computes the specified outcome `Preprocessed` |
| Preprocessing.AllWithPower | services/data_preprocessing.py:3 | the power overwrite applied to every row, used as the order reference |
| Preprocessing.PreprocessedSelection | services/data_preprocessing.py:2-3 | each output row is a complete input row with power recomputed, every complete input row is kept, and the relative order is kept; exactly the complete positions of the power-mapped input are kept, so a repeated complete row is kept as often as it occurs |
| Preprocessing.PreprocessedLength | services/data_preprocessing.py:2 | the output is as long as the input iff no input row has a missing cell |
| Preprocessing.WithPowerComplete | services/data_preprocessing.py:3 | a complete numeric row gets power tension*courant/1000 and stays complete |
| Preprocessing.PreprocessedRowsInvariant | services/data_preprocessing.py:2-3 | no output cell is missing and every output row has power = tension*courant/1000, whatever power the input had; a row missing only power is therefore dropped |
| Preprocessing.PreprocessedInvariant | services/data_preprocessing.py:1-4 | the same for the whole batch operation |
| Preprocessing.PreprocessedWf | services/data_preprocessing.py:1-4 | preprocessing keeps the frame well formed |
| Preprocessing.PreprocessedKeys | services/data_preprocessing.py:2-3 | rows with exactly the frame's columns come out with exactly those columns plus puissance |
| Preprocessing.PreprocessedFixpoint | services/data_preprocessing.py:2-3 | rows that are complete and already carry the recomputed power are left unchanged |
| Preprocessing.PreprocessIdempotent | services/data_preprocessing.py:1-4 | preprocessing twice equals preprocessing once |
| Models.FeaturesOfRows | app.py:262-266 | one feature vector per row |
| Models.ClassifierTrainingRows | scripts/train_models.py:15-17 | the classifier's training rows are exactly the rows with panne == 1, in order and with their multiplicity |
| Dashboard.ScoredRows | app.py:266-270 | stage one keeps the number of rows |
| Dashboard.DefaultRows | app.py:284-287 | the fallback keeps the number of rows |
| Dashboard.MaskedFeatures | app.py:271-275 | one feature vector per flagged row |
| Dashboard.WriteMasked | app.py:275-283 | a masked assignment keeps the number of rows |
| Dashboard.MaxOf | app.py:280 | the maximum of a probability row is one of its values and is at least every value |
| Dashboard.Classify | app.py:274-283 | on success there is one label and, if any, one confidence per flagged row |
| Dashboard.ClassifyOutcome | app.py:274-283 | the block yields the classifier's labels and, exactly when the model has predict_proba, each row's maximum class probability; it fails exactly when a call raises or a result has the wrong shape |
| Dashboard.WriteMaskedRows | app.py:275-283 | the cursor loop computes exactly the masked assignment `WriteMasked` |
| Dashboard.WriteMaskedFlags | app.py:275-280 | writing a column other than the flag keeps every row's flag |
| Dashboard.WriteMaskedCount | app.py:275-280 | writing a column other than the flag keeps the number of flagged rows |
| Dashboard.WriteMaskedShape | app.py:275-283 | a masked assignment changes only the written column, and only on flagged rows |
| Dashboard.WriteMaskedColumn | app.py:275-283 | the j-th flagged row receives the j-th value |
| Dashboard.WriteMaskedCells | app.py:275-283 | cell by cell: the j-th flagged row receives the j-th value, every other cell reads as before, and only the written column may be added |
| Dashboard.WriteMaskedOtherColumn | app.py:275-283 | the flagged rows' other columns are unchanged |
| Dashboard.WriteMaskedConstant | app.py:283 | writing one value on the mask puts it on every flagged row |
| Dashboard.ClassifiedCells | app.py:273-283 | stage two touches only panne_predite and confiance, and only on flagged rows |
| Dashboard.ClassifiedOnlyStageTwo | app.py:273-283 | every outcome of stage two differs from stage one's rows only in those two columns of flagged rows |
| Dashboard.LabelsOnly | app.py:275-283 | writing the labels on the mask touches nothing else |
| Dashboard.LabelsAndConfidenceOnly | app.py:275-280 | writing the labels and then the confidences on the mask touches nothing else |
| Dashboard.ScoredCells | app.py:266-270 | stage one writes the score, a flag that is 1 iff the score is strictly below -0.5 (0 otherwise) and the label "OK"; every other cell is unchanged |
| Dashboard.AnnotatedThreshold | app.py:264-267 | with the feature columns present, the annotation succeeds iff the detector returns one score per row, and then each row is flagged iff its score is strictly below -0.5 |
| Dashboard.AnnotatedDetectorRaises | app.py:266 | a detector failure is not caught and ends the annotation with its error |
| Dashboard.AnnotatedConsistent | app.py:262-287 | whatever the models answer, the flag is 0 or 1, a row flagged 0 is labelled "OK", and every column other than the four written keeps its cells |
| Dashboard.ClassifiedConsistent | app.py:266-283 | the same for stage two applied after stage one |
| Dashboard.AnnotatedFallback | app.py:264-287 | without one of the feature columns, every row is flagged 0 and labelled "OK", and neither model is consulted |
| Dashboard.ClassifierOnlyOnFlagged | app.py:271-275 | two classifiers that agree on the flagged rows' features give the same annotation |
| Dashboard.NoAnomalyNoClassifier | app.py:273 | when no score is below the threshold, the classifier is not consulted at all |
| Dashboard.AnnotatedUnknown | app.py:281-283 | when the block raises, every flagged row is "Inconnu", the others stay "OK", no confidence column is added, and processing continues |
| Dashboard.AnnotatedLabels | app.py:275-280 | on success the j-th flagged row carries the j-th label and, with predict_proba, the j-th confidence in a confiance column; without predict_proba confiance is untouched |
| Dashboard.ClassifiedWithConfidence | app.py:275-280 | stage two with probabilities writes the j-th label and confidence on the j-th flagged row and adds the confiance column |
| Dashboard.ClassifiedWithoutConfidence | app.py:275-278 | stage two without probabilities writes the labels and leaves confiance untouched |
| Dashboard.Annotate | app.py:262-287 | the row loops of the annotation compute exactly the specified `Annotated` |
| Dashboard.MarkDefault | app.py:286-287 | the fallback loop computes `DefaultRows` |
| Dashboard.MarkScores | app.py:266-270 | the stage-one loop computes `ScoredRows` |
| Dashboard.ClassifyFlagged | app.py:271-283 | the stage-two method computes `Classified` |
| Dashboard.SortByCriticality | app.py:419-423 | the displayed alerts are a permutation of the alerts in non-decreasing rank (Critique 0, Élevée 1, Modérée 2) |
| Dashboard.AverageConfidence | app.py:327-328 | the average exists iff there is a confiance column, and it is 0 when every value is missing |
| Dashboard.NumValuesWithin | app.py:328 | present values of a column bounded by [lo, hi] lie in [lo, hi] |
| Dashboard.AverageConfidenceBounds | app.py:327-328 | confidences that are probabilities average to a probability |
| Dashboard.ConfidenceDelta | app.py:332 | the delta is shown iff the average exceeds 0.8, and it is the excess over 0.8 |
| AlertEngine.Criticite | services/alerte_engine.py:4-10 | "Court-circuit" maps to Critique, "Surcharge" to Élevée, and every other label (including "OK", "Inconnu" and a missing one) to Modérée, each as an iff |
| AlertEngine.AlertsOf | services/alerte_engine.py:1-13 | one alert per flagged row |
| AlertEngine.GenerateAlerts | services/alerte_engine.py:1-13 | the loop computes the specified alert table `Alerts` |
| AlertEngine.AlertsSelect | services/alerte_engine.py:1-13 | the alerts come from exactly the rows with anomalie == 1, one per flagged position and in order, with zone and label copied and criticality derived from the label; no flagged row gives an empty table |
| Frames.WithColumn | app.py:266-280 | assigning a column keeps an existing column in place and appends a new one last |
| Frames.SelectRowsSelect | services/alerte_engine.py:2 | `df[df[c] == v]` keeps exactly the positions whose row has that cell, in order, so a repeated matching row is kept as often as it occurs; it is empty iff no row matches |
| Prediction.ProbabilityOf | services/prediction_service.py:55-58 | the class-probability lookup succeeds iff predict_proba exists and answers, the class is known and its index is within the first row; it then returns that row's entry at the class's first index |
| Prediction.Confidence | services/prediction_service.py:47-60 | confidence is 0.95 for "OK", otherwise the class probability, and 0.7 when the lookup raises |
| Prediction.PredictPointSpec | services/prediction_service.py:19-45 | a record carries the reading and its time; anomaly is 1 iff the detector's first verdict is -1, and only then is the fault type the classifier's first label with that label's confidence; otherwise it is "OK" with 0.95 |
| Prediction.PredictPointNeedsFeatures | services/prediction_service.py:24 | a reading lacking a feature fails before any model is called |
| Prediction.ClassifierOnlyForOutliers | services/prediction_service.py:30-32 | for an inlier the classifier is never consulted: any two classifiers give the same record |
| Prediction.After | services/prediction_service.py:66-67 | the window keeps exactly the history positions whose record is strictly after the cutoff, in history order, so equal records are all kept |
| Prediction.AnomalyCount | services/prediction_service.py:81 | the anomaly count is at most the history length |
| Prediction.SumAnomalyCounts | services/prediction_service.py:81 | on consistent records the anomaly sum counts the anomalies |
| Prediction.TypeCounts | services/prediction_service.py:83 | `value_counts` holds each occurring fault type with its number of occurrences |
| Prediction.DistinctValues | services/prediction_service.py:83 | the distinct fault types, each once |
| Prediction.TypeCountsPartition | services/prediction_service.py:83 | the per-type counts sum to the number of records |
| Prediction.PredictionService.constructor | services/prediction_service.py:10-17 | the service starts with the given models and an empty history |
| Prediction.PredictionService.PredictAnomaly | services/prediction_service.py:19-45 | a successful prediction appends exactly its record at the end of the history, with no cap and earlier entries unchanged; a failure leaves the history unchanged |
| Prediction.PredictionService.RecentPredictions | services/prediction_service.py:62-68 | exactly the history positions whose record is strictly after now - minutes, in history order and with their multiplicity; the history is not changed |
| Prediction.PredictionService.Statistics | services/prediction_service.py:70-87 | empty iff the history is empty; otherwise total, anomaly sum, rate = anomalies/total, per-type counts and mean confidence |
| Prediction.PredictionService.StatisticsAnomalies | services/prediction_service.py:79-82 | on a valid history the anomaly figure is the number of anomalies and the rate lies in [0, 1] |
| Prediction.PredictionService.StatisticsPartition | services/prediction_service.py:83 | the per-type counts add up to the total |
| Prediction.PredictionService.RecentWindows | services/prediction_service.py:66-67 | a wider window holds every record of a narrower one |
| Auth.Level | security/auth.py:131-139 | lecture 1, technicien 2, superviseur 3, admin 4; 0 exactly for any other role |
| Auth.PermitsExtremes | security/auth.py:131-141 | admin satisfies every requirement, any role satisfies an unknown requirement, and only admin satisfies "admin" |
| Auth.PermitsOrder | security/auth.py:138-141 | the role check is reflexive, transitive and monotone in the level |
| Auth.AcceptsExactly | security/auth.py:78-83 | an empty username or password is refused, and exactly the stored username–password pairs are accepted |
| Auth.SecondsField | security/auth.py:163 | `.seconds` lies in [0, 86400) and is the whole seconds of a duration shorter than a day |
| Auth.WarningFor | security/auth.py:168-173 | the warning is shown iff elapsed > timeout - 300 and time remains; its minutes and seconds (under 60) recompose the remaining time |
| Auth.CheckAsWritten | security/auth.py:155-175 | as written: an unauthenticated session reports expired; otherwise expired iff `.seconds` of the elapsed time exceeds the timeout; no warning when expired |
| Auth.CheckCorrected | security/auth.py:155-175 | the same check on the whole elapsed time, matching `authenticate`'s expiry rule; a warning's remaining time is under five minutes |
| Auth.AsWrittenMissesDayOldSession | security/auth.py:163 | a session logged in one day and one minute ago is not expired by the written check but is by the corrected one |
| Auth.CorrectedAgreesWithinADay | security/auth.py:163-173 | within a day, on whole seconds, both checks decide the same |
| Auth.Session.constructor | security/auth.py:47-50 | a fresh session state has no key set |
| Auth.Session.RequireRole | security/auth.py:120-141 | false when unauthenticated; otherwise the hierarchy check of the session's role (empty when unset) against the required one |
| Auth.Session.Authenticate | security/auth.py:42-110 | succeeds iff a live session exists or an accepted form is submitted; an expired session only has its flag cleared; a login stores the table's role, name, email, login time and 3600 or 1800 s; a refused attempt changes no user field |
| Auth.Session.Logout | security/auth.py:112-118 | an authenticated session is cleared entirely; otherwise nothing changes |
| Auth.Session.CheckSessionTimeout | security/auth.py:155-175 | as written: the decision is `CheckAsWritten`; an expired session is logged out, every field of its state cleared as `logout` clears it; otherwise nothing changes |
| Auth.Session.CheckSessionTimeoutCorrected | security/auth.py:155-175 | corrected: it logs out, clearing every field, exactly the sessions `authenticate` would find expired; otherwise nothing changes |
| AuditLog.HumanLineLayout | security/audit_log.py:39-41 | the line is the timestamp, then user padded to 15, level padded to 8 and the action, each at its offset after " \| "; padding never truncates; " \| " and the details' JSON follow iff there are details |
| AuditLog.LayoutTimestamp | security/audit_log.py:39 | the line starts with the timestamp and a separator |
| AuditLog.LayoutUser | security/audit_log.py:39 | the user stands right after the first separator |
| AuditLog.LayoutLevel | security/audit_log.py:39 | the level stands after the padded user and a separator |
| AuditLog.LayoutAction | security/audit_log.py:39 | the action stands after the padded level and a separator |
| AuditLog.LayoutDetails | security/audit_log.py:40-41 | the JSON of the details is appended exactly when there are details |
| AuditLog.HumanLineSingle | security/audit_log.py:39-41 | a line holds no newline when its text fields hold none |
| AuditLog.Tail | security/audit_log.py:80 | `lines[-n:]`: the last n lines for n > 0, all of them for n == 0, all but the first -n for n < 0 |
| AuditLog.SelectedSpec | security/audit_log.py:80-88 | the reading loop keeps exactly the stripped lines that are not blank and pass the level filter, in the order given, each position once, so identical log lines are all kept |
| AuditLog.RecentOfSpec | security/audit_log.py:70-90 | at most n lines for n > 0, each stripped, not blank and of the requested level, taken newest first from the last n; every such line among the last n is returned once per occurrence |
| AuditLog.NewestFirst | security/audit_log.py:39-88 | the line of the event just logged is read back first: alone when one line is asked for, ahead of the earlier ones otherwise |
| AuditLog.WantedLine | security/audit_log.py:39-86 | a logged line passes the filter with no level, an empty level or its own level |
| AuditLog.Journal.constructor | security/audit_log.py:9-56 | the journal starts with the given day files and main journal |
| AuditLog.Journal.LogEvent | security/audit_log.py:9-56 | the same line is written to the day's file, then to the main journal; the result is true exactly when both writes succeed; whole-line files stay whole-line, and after a successful day-file write the line is the first one read back |
| AuditLog.Journal.GetRecentLogs | security/audit_log.py:58-93 | [] when the day's file does not exist or cannot be read; otherwise the specified reading of that file |
| AuditLog.Journal.LogLoginAttempt | security/audit_log.py:95-113 | the journal receives the login-attempt event's line, as `log_event` writes it, and whole-line files stay whole-line |
| AuditLog.Journal.LogDataAccess | security/audit_log.py:115-128 | the journal receives the data-access event's line, as `log_event` writes it, and whole-line files stay whole-line |
| AuditLog.Journal.LogModelAction | security/audit_log.py:130-159 | the journal receives the model-action event's line, as `log_event` writes it, and whole-line files stay whole-line |
| AuditLog.ReadBack | security/audit_log.py:44-88 | in whole-line files, the line just appended to the day's file is what reading one line back returns, with no level or with its own level |
| AuditLog.LoggedThenRead | security/audit_log.py:44-88 | after a successful write, reading one line back, with or without the event's level, returns that line stripped |
| AuditLog.Lookup | security/audit_log.py:124-126 | a key is absent from a dictionary iff the lookup finds nothing |
| AuditLog.Put | security/audit_log.py:126 | `d[k] = v` keeps the key order and appends a new key last |
| AuditLog.PutLookup | security/audit_log.py:126 | after `d[k] = v`, k gives v and every other key gives what it gave before |
| AuditLog.MergeSpec | security/audit_log.py:148-152 | `{**base, **extra}` is a dictionary whose keys start with base's; extra's keys give extra's values, the others base's |
| AuditLog.LoginAttemptEvent | security/audit_log.py:105-106 | the details are the ip and the user agent, null when not given |
| AuditLog.LoginAttemptUsers | security/audit_log.py:105-112 | a failure is logged as "unknown" at WARNING whatever the username; a success under the username at INFO; the action texts differ |
| AuditLog.DataAccessEvent | security/audit_log.py:128 | logged under the user at INFO |
| AuditLog.DataAccessDetails | security/audit_log.py:124-126 | the source is always recorded; records only when the count is given and not zero |
| AuditLog.ActionDescriptions | security/audit_log.py:140-156 | an unknown action is described as "Action modèle: " and its name, a prefix no known action's description carries |
| AuditLog.ModelActionEvent | security/audit_log.py:154-159 | logged under the user at INFO with the action's description |
| AuditLog.ModelActionDetails | security/audit_log.py:148-152 | the details start with model and action, the caller's keys override them, and every other caller key keeps its value |
| Json.EscapeChar | security/audit_log.py:41 | `json.dumps` escapes each character to printable ASCII and leaves plain printable characters as they are |
| Json.DumpsPrintable | security/audit_log.py:41 | the dumped details are one braced line of printable ASCII |
| Json.EscapePlain | security/audit_log.py:41 | printable text without quote or backslash is dumped unchanged |
| Text.TrimStartSpaces | security/audit_log.py:81 | `lstrip` drops only whitespace, and all of it before the first other character |
| Text.TrimEndSpaces | security/audit_log.py:81 | `rstrip` drops only whitespace, and all of it after the last other character |
| Text.StripEnds | security/audit_log.py:81 | a stripped line has no whitespace at either end |
| Text.StripEmpty | security/audit_log.py:81-83 | a line strips to nothing iff it is all whitespace |
| Text.StripDropsTrailingSpace | security/audit_log.py:77-81 | a line's trailing newline does not survive `strip` |
| Text.StripKeeps | security/audit_log.py:81-86 | an occurrence between two characters that are not whitespace survives `strip` |
| Text.LeftJustify | security/audit_log.py:39 | `ljust` pads to the width and never truncates |
| Text.LeftJustifyPadding | security/audit_log.py:39 | the padded text starts with the text, followed by spaces only |
| Text.Contains | security/audit_log.py:85 | `sub in s` holds iff sub occurs at some position |
| Text.LinesAppend | security/audit_log.py:46-77 | appending one newline-terminated line to a file adds exactly that line to what `readlines` returns |
| Text.IntToString | security/audit_log.py:41 | `str(i)` is non-empty printable text with a leading minus exactly for negatives |

## Left out

- User interface: the Streamlit pages, widgets, messages, `st.rerun`, caching and
  configuration loading are presentation and I/O. What the annotation block writes into the
  batch is modelled; `st.error` is not.
- Model internals: IsolationForest and RandomForest training, `joblib` persistence and
  loading are foreign library code. The models are uninterpreted functions that may fail.
  Of training, only the choice of training rows is stated (`Models.ClassifierTrainingRows`).
- Data generation, the SCADA client, the visualisation service and the helper utilities
  are not part of this model.
- Numbers are exact reals. Floating-point rounding is not modelled, and neither is the
  formatting of numbers in messages (`:.2f`, percentages). A NaN cell is `Missing`.
- `DataValidation.Validate`: requires tension and courant to hold numbers only. Comparing
  a text cell with a number raises in pandas, and that error path is not modelled.
- `Preprocessing.Preprocess`: requires the same of tension and courant, for the same
  reason.
- `DataValidation.DetectQualityIssues`: any text cell in a present tension or courant column
  makes the report a TypeError. pandas would still compute `std()` on a text column whose
  every text value is a decimal number in text form. The model does not read numbers out of
  text.
- Quality issues are modelled as data (`NoData`, `MissingValues`, `LowVariance`), not as
  formatted French messages. The test `std() < 0.1` is stated as sample variance < 0.01
  (no square root on reals). The variance rounded into the message is not modelled.
- `Text.Lines`: `readlines` splits on "\n" only. Universal-newline translation of "\r"
  and "\r\n" when the file is read in text mode is not modelled.
- `Json.Dumps`: JSON values are null, booleans, integers and strings only. Floats and
  nested values in the details are not modelled.
- `AuditLog.Journal.LogEvent`: the directory creation and its failure, the unused
  `log_entry` dictionary and the printed error message are left out. The write failures
  are the `dailyOk` and `mainOk` parameters.
- `AuditLog.Journal.GetRecentLogs`: the read failure is the `readOk` parameter. The date
  that names the day's file is the `today` parameter.
- `Auth.Session.Authenticate`: the two `log_event` calls on success and failure are
  left out. The session and the audit journal are separate objects and the call has no
  effect on the session.
- `get_current_user` and `hash_password` are left out because they only read back or
  hash stored values. `hash_password` is never used by `authenticate`.
- The wall clock is a parameter everywhere (`now`, `stamp`, `timestamp`, `today`).
- `Prediction.PredictionService.PredictAnomaly`: the record is a value. The source returns
  the same dictionary it appends to the history, and that dictionary holds the caller's
  `data_point` by reference. A caller who later mutates either one changes the history
  too, so "earlier entries unchanged" holds only for the service's own operations.
- Default arguments are not modelled. Every member takes all its arguments explicitly:
  `get_recent_logs(n=50, level=None)` (`AuditLog.Journal.GetRecentLogs`),
  `log_event(level="INFO", details=None)` (`AuditLog.Journal.LogEvent`) and
  `get_recent_predictions(minutes=60)` (`Prediction.PredictionService.RecentPredictions`).
- `Prediction.PredictionService.RecentPredictions`: `minutes` is an integer. The source's
  `timedelta(minutes=...)` also accepts a fractional number of minutes.
- `Dashboard.SortByCriticality`: promises a permutation sorted by rank, not a particular
  order among alerts of equal rank, because the default pandas sort is not stable.
- `AlertEngine.Alerts`: with no flagged row, `apply` runs on an empty frame, and its result
  depends on the pandas version when it is assigned to the new column. The model gives the
  empty table in that case.

## Findings

| source | as written | input that shows it | evidently intended | confidence | as-written member | corrected member |
|---|---|---|---|---|---|---|
| security/auth.py:163-169 | `check_session_timeout` compares `(now - login_time).seconds` with the timeout. `.seconds` is only the seconds within the last day, so it restarts at 0 each day | login one day and one minute ago, timeout 1800: `.seconds` is 60, so the session is not reported expired | compare the whole elapsed time, as `authenticate` does at security/auth.py:53-55. The defect is latent: app.py imports only `authenticate` from this module (app.py:79), and nothing in the application calls `check_session_timeout` | not executed | Auth.CheckAsWritten, Auth.AsWrittenMissesDayOldSession | Auth.CheckCorrected, Auth.Session.CheckSessionTimeoutCorrected |
