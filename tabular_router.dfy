/** `POST /predict/tabular`: look the model up, align the request's features
    to the model's columns, score the row, bucket the probability, attach the
    top attributions and append one audit row. The pipeline's
    `predict_proba` and the explainer are inputs, as functions of the
    aligned row; the clock is the `now` parameter. */
module TabularRouter {
  import opened Common
  import opened Dicts
  import opened Records
  import opened Registry
  import opened ShapUtils
  import opened AuditLog

  /** The threshold defaults (`THRESH_LOW`, `THRESH_HIGH`). */
  const DefaultLow: real := 0.40
  const DefaultHigh: real := 0.65

  /** A cell of the aligned row: a feature's value, or the `NaN` filled in
      for a column the request did not send. */
  datatype Cell = Missing | Present(value: Json)

  /** The request's optional user context. */
  datatype UserContext = UserContext(userId: Option<string>, patientId: Option<string>)

  /** The row `align_row` produces: one cell per column of `cols`, in `cols`
      order, holding the request's value for that column or `Missing`. */
  function Aligned(features: Dict<Json>, cols: seq<string>): (row: seq<Cell>)
    ensures |row| == |cols|
    ensures forall i :: 0 <= i < |cols| ==> (row[i] == Missing <==> cols[i] !in KeySet(features))
    ensures forall i :: 0 <= i < |cols| && row[i].Present? ==> (cols[i], row[i].value) in features
  {
    seq(|cols|, i requires 0 <= i < |cols| =>
      var v := Get(features, cols[i]);
      if v.Some? then Present(v.value) else Missing)
  }

  /** A feature whose key is not a column is dropped. */
  lemma AlignedDropsExtra(features: Dict<Json>, cols: seq<string>, k: string, v: Json)
    requires k !in cols
    ensures Aligned(features + [(k, v)], cols) == Aligned(features, cols)
  {
    forall i | 0 <= i < |cols| ensures Get(features + [(k, v)], cols[i]) == Get(features, cols[i]) {
      GetSnocOther(features, (k, v), cols[i]);
    }
  }

  /** In a request without duplicate keys, a present cell holds exactly the
      request's value for its column. */
  lemma AlignedValue(features: Dict<Json>, cols: seq<string>, i: nat)
    requires DistinctKeys(features) && i < |cols|
    ensures forall j :: 0 <= j < |features| && features[j].0 == cols[i] ==>
      Aligned(features, cols)[i] == Present(features[j].1)
  {
    forall j | 0 <= j < |features| && features[j].0 == cols[i]
      ensures Aligned(features, cols)[i] == Present(features[j].1)
    {
      GetDistinct(features, j);
    }
  }

  /** `align_row(d, cols)`: a one-row frame of the request's features, a
      `NaN` column added for each missing column, then the columns of `cols`
      selected in order. */
  method AlignRow(features: Dict<Json>, cols: seq<string>) returns (row: seq<Cell>)
    ensures row == Aligned(features, cols)
  {
    var frame: map<string, Cell> := map k | k in KeySet(features) :: Present(Get(features, k).value);
    for i := 0 to |cols|
      invariant forall k :: k in frame <==> k in KeySet(features) || k in cols[..i]
      invariant forall k :: k in frame ==>
        frame[k] == if k in KeySet(features) then Present(Get(features, k).value) else Missing
    {
      if cols[i] !in frame {
        frame := frame[cols[i] := Missing];
      }
    }
    assert forall j :: 0 <= j < |cols| ==> cols[j] in cols[..|cols|];
    row := seq(|cols|, j requires 0 <= j < |cols| => frame[cols[j]]);
  }

  /** The category expression: "low" below `low`, else "mild" below `high`,
      else "high". Exactly one bucket applies to every probability. */
  function Bucket(p: real, low: real, high: real): (c: Category)
    ensures c == Low <==> p < low
    ensures c == Mild <==> low <= p < high
    ensures c == High <==> low <= p && high <= p
  {
    if p < low then Low else if p < high then Mild else High
  }

  /** With ordered thresholds, "high" is exactly `p >= high`. */
  lemma BucketHigh(p: real, low: real, high: real)
    requires low <= high
    ensures Bucket(p, low, high) == High <==> high <= p
  {
  }

  /** With ordered thresholds, the bucket never goes down as the probability
      goes up. */
  lemma BucketMonotone(p: real, q: real, low: real, high: real)
    requires low <= high && p <= q
    ensures Bucket(p, low, high).Rank() <= Bucket(q, low, high).Rank()
  {
  }

  /** The default thresholds are ordered, so the bucketing lemmas apply to
      them: 0.65 and above is "high", and the category never goes down as the
      probability goes up. */
  lemma DefaultBuckets(p: real, q: real)
    requires p <= q
    ensures DefaultLow <= DefaultHigh
    ensures Bucket(p, DefaultLow, DefaultHigh) == High <==> p >= 0.65
    ensures Bucket(p, DefaultLow, DefaultHigh).Rank() <= Bucket(q, DefaultLow, DefaultHigh).Rank()
  {
    BucketHigh(p, DefaultLow, DefaultHigh);
    BucketMonotone(p, q, DefaultLow, DefaultHigh);
  }

  /** The modality check: the id must name a tabular entry. */
  function TabularColumns(entries: map<string, Bundle>, mid: string): (r: Result<seq<string>, HttpError>)
    ensures r.Err? <==> mid !in entries || entries[mid].TypeName() != "tabular"
    ensures r.Err? ==> r.error == HttpError(400, "unknown tabular model_id")
    ensures r.Ok? ==> entries[mid] == Tabular(r.value)
  {
    if mid !in entries || !entries[mid].Tabular? then Err(HttpError(400, "unknown tabular model_id"))
    else Ok(entries[mid].cols)
  }

  /** The logged user and patient: from the context when one was sent. */
  /** The logged user: the context's, when the request carries a context. */
  function LoggedUser(context: Option<UserContext>): (u: Option<string>)
    ensures context.None? ==> u.None?
    ensures context.Some? ==> u == context.value.userId
  {
    if context.Some? then context.value.userId else None
  }

  /** The logged patient: the context's, when the request carries a context. */
  function LoggedPatient(context: Option<UserContext>): (p: Option<string>)
    ensures context.None? ==> p.None?
    ensures context.Some? ==> p == context.value.patientId
  {
    if context.Some? then context.value.patientId else None
  }

  /** The response body (and the logged outputs, which omit `thresholds`). */
  datatype TabularResponse = TabularResponse(
    probability: real,
    category: Category,
    shapTop: Dict<real>,
    thresholds: Dict<real>)

  /** `{"probability": …, "category": …, "shap_top": …}`. */
  function TabularOutputs(r: TabularResponse): (j: Json)
    ensures j.JObject? && DistinctKeys(j.fields)
    ensures Get(j.fields, "probability") == Some(JNum(r.probability))
    ensures Get(j.fields, "category") == Some(JStr(r.category.Name()))
    ensures Get(j.fields, "shap_top") == Some(JObject(NumberMap(r.shapTop)))
    ensures Get(j.fields, "thresholds").None?
  {
    var fields := [
      ("probability", JNum(r.probability)),
      ("category", JStr(r.category.Name())),
      ("shap_top", JObject(NumberMap(r.shapTop)))];
    assert DistinctKeys(fields);
    GetDistinct(fields, 0);
    GetDistinct(fields, 1);
    GetDistinct(fields, 2);
    assert "thresholds" !in KeySet(fields);
    JObject(fields)
  }

  /** The category logged as a string is enough to recover the response's
      category. */
  lemma LoggedCategory(r: TabularResponse, c: Category)
    requires Get(TabularOutputs(r).fields, "category") == Some(JStr(c.Name()))
    ensures r.category == c
  {
    CategoryNameInjective(r.category, c);
  }

  /** What the handler answers, given the row's probability and attributions. */
  function TabularAnswer(cols: seq<string>, proba: real, attributions: Option<seq<real>>,
                         low: real, high: real): (r: TabularResponse)
    ensures r.probability == proba
    ensures r.category == Bucket(proba, low, high)
    ensures r.shapTop == TopShap(cols, attributions, DefaultTopK)
    ensures |r.shapTop| <= DefaultTopK && ByMagnitude(r.shapTop) && DistinctKeys(r.shapTop)
    ensures r.thresholds == [("low", low), ("high", high)]
  {
    TopShapByMagnitude(cols, attributions, DefaultTopK);
    TopShapDistinctKeys(cols, attributions, DefaultTopK);
    TabularResponse(proba, Bucket(proba, low, high), TopShap(cols, attributions, DefaultTopK),
                    [("low", low), ("high", high)])
  }

  /** `predict_tabular`: an unknown or non-tabular id raises 400 and logs
      nothing; otherwise exactly one prediction row is appended, carrying the
      request's model id and features, the context's ids and the response's
      probability, category and attributions. */
  method PredictTabular(db: Database, entries: map<string, Bundle>, modelId: string,
                        features: Dict<Json>, context: Option<UserContext>,
                        predict: seq<Cell> -> real, explain: seq<Cell> -> Option<seq<real>>,
                        low: real, high: real, now: int)
    returns (r: Result<TabularResponse, HttpError>)
    requires db.Valid() && DistinctKeys(features)
    modifies db
    ensures db.Valid() && db.simulations == old(db.simulations)
    ensures r.Err? <==> TabularColumns(entries, modelId).Err?
    ensures r.Err? ==> r.error == HttpError(400, "unknown tabular model_id") && db.predictions == old(db.predictions)
    ensures r.Ok? ==>
      var cols := TabularColumns(entries, modelId).value;
      var row := Aligned(features, cols);
      && r.value == TabularAnswer(cols, predict(row), explain(row), low, high)
      && db.predictions == old(db.predictions) + [PredictionRow(
           NextId(old(db.predictions), PredictionId), LoggedUser(context), LoggedPatient(context),
           modelId, JObject(features), TabularOutputs(r.value), now)]
  {
    var bundle := TabularColumns(entries, modelId);
    if bundle.Err? {
      return Err(bundle.error);
    }
    var cols := bundle.value;
    var row := AlignRow(features, cols);
    var proba := predict(row);
    var answer := TabularAnswer(cols, proba, explain(row), low, high);
    var _ := db.AddPrediction(LoggedUser(context), LoggedPatient(context), modelId,
                              JObject(features), TabularOutputs(answer), now);
    r := Ok(answer);
  }
}
