/** The one-shot prediction script: the crossover feature the model reads,
    the guard in front of the prediction, and the maps from the model's
    answer to a label and a recommendation. Downloading, the indicators and
    the model itself are inputs. */
module Predict {
  import opened Wrappers

  /** `map_prediction_to_text`: a dictionary lookup with a default. */
  function TextOf(prediction: int): (t: string)
    ensures prediction == 1 <==> t == "Sube"
    ensures prediction == -1 <==> t == "Baja"
    ensures prediction == 0 <==> t == "Estable"
    ensures t == "Desconocido" <==> prediction !in {-1, 0, 1}
  {
    var mapping := map[1 := "Sube", -1 := "Baja", 0 := "Estable"];
    if prediction in mapping then mapping[prediction] else "Desconocido"
  }

  /** `map_prediction_to_recommendation`. */
  function RecommendationOf(prediction: int): (t: string)
    ensures prediction == 1 <==> t == "COMPRAR"
    ensures prediction == -1 <==> t == "VENDER"
    ensures prediction == 0 <==> t == "ESPERAR"
    ensures t == "SIN RECOMENDACIÓN" <==> prediction !in {-1, 0, 1}
  {
    var mapping := map[1 := "COMPRAR", -1 := "VENDER", 0 := "ESPERAR"];
    if prediction in mapping then mapping[prediction] else "SIN RECOMENDACIÓN"
  }

  /** The label and the recommendation always tell the same story: one
      determines the other. */
  lemma LabelsAgree(p: int, q: int)
    ensures TextOf(p) == TextOf(q) <==> RecommendationOf(p) == RecommendationOf(q)
    ensures TextOf(p) == "Sube" <==> RecommendationOf(p) == "COMPRAR"
    ensures TextOf(p) == "Baja" <==> RecommendationOf(p) == "VENDER"
    ensures TextOf(p) == "Estable" <==> RecommendationOf(p) == "ESPERAR"
  {
  }

  /** Strictly below on a pair of values that may be missing: a comparison
      with a missing value is false. */
  predicate Below(a: Option<real>, b: Option<real>) {
    a.Some? && b.Some? && a.value < b.value
  }

  /** The `cruce` column at row `i`: 1 for a bullish crossing, -1 for a
      bearish one (assigned second, so it would win), 0 otherwise; the
      first row has no previous averages. */
  function CruceAt(sma20: seq<Option<real>>, sma50: seq<Option<real>>, i: nat): (c: int)
    requires |sma20| == |sma50| && i < |sma20|
    ensures c == 1 <==> i > 0 && Below(sma20[i - 1], sma50[i - 1]) && Below(sma50[i], sma20[i])
    ensures c == -1 <==> i > 0 && Below(sma50[i - 1], sma20[i - 1]) && Below(sma20[i], sma50[i])
    ensures -1 <= c <= 1
  {
    if i == 0 then 0
    else if Below(sma50[i - 1], sma20[i - 1]) && Below(sma20[i], sma50[i]) then -1
    else if Below(sma20[i - 1], sma50[i - 1]) && Below(sma50[i], sma20[i]) then 1
    else 0
  }

  /** A crossing needs both averages on both rows, and the two directions
      exclude each other, so the order of the assignments does not matter. */
  lemma CruceNeedsBothRows(sma20: seq<Option<real>>, sma50: seq<Option<real>>, i: nat)
    requires |sma20| == |sma50| && 0 < i < |sma20|
    requires sma20[i - 1].None? || sma50[i - 1].None? || sma20[i].None? || sma50[i].None?
    ensures CruceAt(sma20, sma50, i) == 0
  {
  }

  /** The script needs more than 50 rows of data. */
  const MinRows: nat := 51

  /** How `run_prediction` ends. */
  datatype Outcome =
    | ModelMissing                  // no model file, or loading it raised
    | NotEnoughData                 // empty download, under 51 rows, or the download raised
    | MissingFeature                // a feature of the last row is missing
    | PredictionFailed              // the model raised
    | Predicted(prediction: int, text: string, recommendation: string)

  /** `run_prediction`. `download` is `None` when the download raised and
      otherwise the number of rows; `lastFeatures` the five features of the
      last row; `prediction` the model's answer, `None` when it raised. */
  function Run(modelLoaded: bool, download: Option<nat>, lastFeatures: seq<Option<real>>, prediction: Option<int>): (o: Outcome)
    ensures o.Predicted? <==>
              && modelLoaded && download.Some? && download.value >= MinRows
              && (forall k :: 0 <= k < |lastFeatures| ==> lastFeatures[k].Some?)
              && prediction.Some?
    ensures o.NotEnoughData? <==> modelLoaded && (download.None? || download.value < MinRows)
    ensures o.Predicted? ==> o.prediction == prediction.value
                             && o.text == TextOf(o.prediction)
                             && o.recommendation == RecommendationOf(o.prediction)
  {
    if !modelLoaded then ModelMissing
    else if download.None? || download.value == 0 || download.value < MinRows then NotEnoughData
    else if exists k :: 0 <= k < |lastFeatures| && lastFeatures[k].None? then MissingFeature
    else
      match prediction
      case None => PredictionFailed
      case Some(p) => Predicted(p, TextOf(p), RecommendationOf(p))
  }
}
