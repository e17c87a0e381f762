/** Presenting a bundle of per-user models to the shadow comparison as one model. */
module Promotion {
  import opened Sequences
  import opened SignInHistory
  import opened SignInFeatures
  import opened SignInScoring
  import opened ShadowScoring

  /** What a row's own model predicts; a user without any model is normal. */
  function AdapterPrediction(bundle: Bundle, libraries: Libraries, userId: string, row: FeatureRow): int {
    match RouteOf(bundle, userId)
    case None => 1
    case Some(model) => libraries.predict(model, row)
  }

  /** Rows beyond the users listed keep the normal label they start with. */
  method Predict(bundle: Bundle, libraries: Libraries, userIds: seq<string>, rows: seq<FeatureRow>)
    returns (out: array<int>)
    requires |userIds| <= |rows|
    ensures fresh(out) && out.Length == |rows|
    ensures forall i | 0 <= i < |userIds| :: out[i] == AdapterPrediction(bundle, libraries, userIds[i], rows[i])
    ensures forall i | |userIds| <= i < |rows| :: out[i] == 1
  {
    out := new int[|rows|](i => 1);
    for i := 0 to |userIds|
      invariant forall j | 0 <= j < i :: out[j] == AdapterPrediction(bundle, libraries, userIds[j], rows[j])
      invariant forall j | i <= j < |rows| :: out[j] == 1
    {
      var model := if userIds[i] in bundle.perUser then Some(bundle.perUser[userIds[i]]) else bundle.pooled;
      if model.None? {
        continue;
      }
      out[i] := libraries.predict(model.value, rows[i]);
    }
  }

  /** The adapter as a function of the batch of rows. */
  function AdapterPredictions(bundle: Bundle, libraries: Libraries, userIds: seq<string>,
                              rows: seq<FeatureRow>): (r: seq<int>)
    requires |userIds| == |rows|
    ensures |r| == |rows|
  {
    seq(|rows|, i requires 0 <= i < |rows| => AdapterPrediction(bundle, libraries, userIds[i], rows[i]))
  }

  /** The adapter predicts what the user's own model does, else what the pooled one does, else normal. */
  lemma AdapterFollowsOwnModel(bundle: Bundle, libraries: Libraries, userId: string, row: FeatureRow)
    ensures userId in bundle.perUser ==>
              AdapterPrediction(bundle, libraries, userId, row) == libraries.predict(bundle.perUser[userId], row)
    ensures userId !in bundle.perUser && bundle.pooled.Some? ==>
              AdapterPrediction(bundle, libraries, userId, row) == libraries.predict(bundle.pooled.value, row)
    ensures userId !in bundle.perUser && bundle.pooled.None? ==>
              AdapterPrediction(bundle, libraries, userId, row) == 1
  {
  }

  /** The adapter calls a row anomalous exactly when scoring with the same bundle predicts it anomalous. */
  lemma {:induction false} GateCountsWhatScoringPredicts(bundle: Bundle, libraries: Libraries, userIds: seq<string>,
                                                         rows: seq<FeatureRow>, predictions: seq<bool>)
    requires |userIds| == |rows| == |predictions|
    requires forall i | 0 <= i < |rows| ::
               predictions[i] <==> PredictedAnomalous(bundle, libraries, userIds[i], rows[i])
    ensures Count(AdapterPredictions(bundle, libraries, userIds, rows), IsAnomaly)
            == Count(predictions, (flag: bool) => flag)
  {
    if rows == [] {
    } else {
      var n := |rows| - 1;
      GateCountsWhatScoringPredicts(bundle, libraries, userIds[..n], rows[..n], predictions[..n]);
      assert AdapterPredictions(bundle, libraries, userIds, rows)[..n]
             == AdapterPredictions(bundle, libraries, userIds[..n], rows[..n]);
    }
  }

  function Flag(score: AnomalyScore): bool { score.isAnomaly }

  function FlaggedIn(bundle: Bundle, libraries: Libraries, switches: Switches, signins: seq<SignIn>): SignIn -> bool {
    (s: SignIn) => ScoreIn(bundle, libraries, switches, signins)(s).isAnomaly
  }

  /** The sign-in's own model calls its row anomalous, as the adapter reports it. */
  function PredictedIn(bundle: Bundle, libraries: Libraries, signins: seq<SignIn>): SignIn -> bool {
    (s: SignIn) => AdapterPrediction(bundle, libraries, s.userId, RowOf(signins, libraries, s)) == -1
  }

  /** The score alone reaches the threshold. */
  function ByScoreAlone(bundle: Bundle, libraries: Libraries, switches: Switches,
                        signins: seq<SignIn>): SignIn -> bool {
    (s: SignIn) =>
      && !PredictedIn(bundle, libraries, signins)(s)
      && ScoreIn(bundle, libraries, switches, signins)(s).normalised >= ANOMALY_THRESHOLD
  }

  function PredictionIn(bundle: Bundle, libraries: Libraries, signins: seq<SignIn>): SignIn -> int {
    (s: SignIn) => AdapterPrediction(bundle, libraries, s.userId, RowOf(signins, libraries, s))
  }

  lemma FlaggedSplits(bundle: Bundle, libraries: Libraries, switches: Switches, signins: seq<SignIn>, s: SignIn)
    ensures FlaggedIn(bundle, libraries, switches, signins)(s)
            <==> PredictedIn(bundle, libraries, signins)(s) || ByScoreAlone(bundle, libraries, switches, signins)(s)
  {
    var row, score := RowOf(signins, libraries, s), ScoreIn(bundle, libraries, switches, signins)(s);
    AdapterAgreesWithScoring(bundle, libraries, s.userId, row);
    assert score == ScoreRow(bundle, libraries, switches, s, row);
    assert score.isAnomaly
           <==> PredictedAnomalous(bundle, libraries, s.userId, row) || score.normalised >= ANOMALY_THRESHOLD;
    assert FlaggedIn(bundle, libraries, switches, signins)(s) == score.isAnomaly;
    assert PredictedIn(bundle, libraries, signins)(s) == (AdapterPrediction(bundle, libraries, s.userId, row) == -1);
    assert ByScoreAlone(bundle, libraries, switches, signins)(s)
           == (!PredictedIn(bundle, libraries, signins)(s) && score.normalised >= ANOMALY_THRESHOLD);
  }

  lemma AdapterAgreesWithScoring(bundle: Bundle, libraries: Libraries, userId: string, row: FeatureRow)
    ensures AdapterPrediction(bundle, libraries, userId, row) == -1
            <==> PredictedAnomalous(bundle, libraries, userId, row)
  {
    match RouteOf(bundle, userId) {
      case None =>
      case Some(model) =>
    }
  }

  /**
   * A scored batch flags what the promotion gate would count for the same bundle, and besides exactly the rows whose
   * score reaches the threshold without such a prediction.
   */
  lemma {:induction false} FlagsExceedGateCount(bundle: Bundle, libraries: Libraries, switches: Switches,
                                                signins: seq<SignIn>, ordered: seq<SignIn>,
                                                predictions: seq<int>)
    requires ordered == OrderedSignIns(signins) && predictions == Map(ordered, PredictionIn(bundle, libraries, signins))
    ensures Count(Scores(bundle, libraries, switches, signins), Flag)
            == Count(predictions, IsAnomaly) + Count(ordered, ByScoreAlone(bundle, libraries, switches, signins))
  {
    var flagged, predicted := FlaggedIn(bundle, libraries, switches, signins), PredictedIn(bundle, libraries, signins);
    CountMapped(ordered, ScoreIn(bundle, libraries, switches, signins), Flag, flagged);
    CountMapped(ordered, PredictionIn(bundle, libraries, signins), IsAnomaly, predicted);
    forall s | s in ordered
      ensures flagged(s) <==> predicted(s) || ByScoreAlone(bundle, libraries, switches, signins)(s)
    {
      FlaggedSplits(bundle, libraries, switches, signins, s);
    }
    CountSplit(ordered, predicted, ByScoreAlone(bundle, libraries, switches, signins), flagged);
  }
}
