/** `POST /predict/image`: look the model up, take the probability vector
    of the forward output, pick the top class and its name, explain that class
    (Grad-CAM or the saliency fallback), encode the rendered overlay as a data
    URI, key the probabilities for the client and append one audit row. The
    forward output, the heat maps of each strategy and the PNG rendering are
    inputs; the clock is the `now` parameter. */
module ImageRouter {
  import opened Common
  import opened Strings
  import opened Dicts
  import opened Records
  import opened Registry
  import opened GradCam
  import opened AuditLog
  import Base64

  /** The modality check: the id must name an image entry; its labels, if
      the registry has any, come with it. */
  function ImageBundle(entries: map<string, Bundle>, mid: string): (r: Result<Option<seq<string>>, HttpError>)
    ensures r.Err? <==> mid !in entries || entries[mid].TypeName() != "image"
    ensures r.Err? ==> r.error == HttpError(400, "unknown image model_id")
    ensures r.Ok? ==> entries[mid].Image? && entries[mid].labels == r.value
  {
    if mid !in entries || !entries[mid].Image? then Err(HttpError(400, "unknown image model_id"))
    else Ok(entries[mid].labels)
  }

  /** `labels` is truthy: present and not empty. */
  predicate Truthy(labels: Option<seq<string>>) {
    labels.Some? && |labels.value| > 0
  }

  /** `class_name`: the label of the class when there is one for it, its
      decimal index otherwise. */
  function ClassName(labels: Option<seq<string>>, idx: nat): (name: string)
    ensures Truthy(labels) && idx < |labels.value| ==> name == labels.value[idx]
    ensures !(Truthy(labels) && idx < |labels.value|) ==>
      && (forall i :: 0 <= i < |name| ==> IsDigit(name[i]))
      && DecimalValue(name) == idx
  {
    if Truthy(labels) && idx < |labels.value| then labels.value[idx]
    else DecimalRoundTrip(idx); DecimalString(idx)
  }

  /** The probabilities are keyed by label only when there is exactly one
      label per class. */
  predicate LabelKeyed(labels: Option<seq<string>>, probs: seq<real>) {
    Truthy(labels) && |labels.value| == |probs|
  }

  /** `"0"`, `"1"`, …: the decimal indices of `n` classes. */
  function IndexKeys(n: nat): (keys: seq<string>)
    ensures |keys| == n && forall i :: 0 <= i < n ==> keys[i] == DecimalString(i)
  {
    seq(n, i requires 0 <= i < n => DecimalString(i))
  }

  /** `probs_dict`: a dict comprehension over the labels when they match the
      classes one to one, over the decimal indices otherwise. */
  function ProbsDict(labels: Option<seq<string>>, probs: seq<real>): (d: Dict<real>)
    ensures DistinctKeys(d)
    ensures LabelKeyed(labels, probs) ==> KeySet(d) == set k | k in labels.value
    ensures !LabelKeyed(labels, probs) ==> KeySet(d) == set k | k in IndexKeys(|probs|)
  {
    if LabelKeyed(labels, probs) then FromPairs(labels.value, probs) else FromPairs(IndexKeys(|probs|), probs)
  }

  /** The decimal indices are distinct keys. */
  lemma IndexKeysDistinct(n: nat)
    ensures forall i, j :: 0 <= i < j < n ==> IndexKeys(n)[i] != IndexKeys(n)[j]
  {
    forall i, j | 0 <= i < j < n ensures IndexKeys(n)[i] != IndexKeys(n)[j] {
      if DecimalString(i) == DecimalString(j) {
        DecimalInjective(i, j);
      }
    }
  }

  /** Without labels matching the classes, the probabilities are listed in
      class order under their decimal indices. */
  lemma ProbsDictByIndex(labels: Option<seq<string>>, probs: seq<real>)
    requires !LabelKeyed(labels, probs)
    ensures ProbsDict(labels, probs) == seq(|probs|, i requires 0 <= i < |probs| => (DecimalString(i), probs[i]))
  {
    IndexKeysDistinct(|probs|);
    FromPairsDistinct(IndexKeys(|probs|), probs);
  }

  /** With one distinct label per class, the probabilities are listed in
      class order under their labels. */
  lemma ProbsDictByLabel(labels: Option<seq<string>>, probs: seq<real>)
    requires LabelKeyed(labels, probs)
    requires forall i, j :: 0 <= i < j < |probs| ==> labels.value[i] != labels.value[j]
    ensures ProbsDict(labels, probs) == seq(|probs|, i requires 0 <= i < |probs| => (labels.value[i], probs[i]))
  {
    FromPairsDistinct(labels.value, probs);
  }

  /** With repeated labels, a label keeps the place of its first occurrence
      and the probability of its last. */
  lemma ProbsDictRepeatedLabel(labels: Option<seq<string>>, probs: seq<real>, k: string)
    requires LabelKeyed(labels, probs) && k in labels.value
    ensures Get(ProbsDict(labels, probs), k) == Some(probs[LastIndex(labels.value, k)])
  {
    FromPairsGet(labels.value, probs, k);
  }

  /** When the labels match the classes one to one, the top class's name is a
      key of the probabilities and maps to the class's probability. */
  lemma ClassNameKeyedByLabel(labels: Option<seq<string>>, probs: seq<real>, idx: nat)
    requires LabelKeyed(labels, probs) && idx < |probs|
    requires forall i, j :: 0 <= i < j < |probs| ==> labels.value[i] != labels.value[j]
    ensures ClassName(labels, idx) == labels.value[idx]
    ensures Get(ProbsDict(labels, probs), ClassName(labels, idx)) == Some(probs[idx])
  {
    ProbsDictByLabel(labels, probs);
    GetDistinct(ProbsDict(labels, probs), idx);
  }

  /** When there is no label for the class, its name is its decimal index,
      which is a key of the probabilities and maps to its probability. */
  lemma ClassNameKeyedByIndex(labels: Option<seq<string>>, probs: seq<real>, idx: nat)
    requires idx < |probs|
    requires !Truthy(labels) || idx >= |labels.value|
    ensures ClassName(labels, idx) == DecimalString(idx)
    ensures Get(ProbsDict(labels, probs), ClassName(labels, idx)) == Some(probs[idx])
  {
    ProbsDictByIndex(labels, probs);
    GetDistinct(ProbsDict(labels, probs), idx);
  }

  /** When there are labels but not one per class, the top class is still
      named by its label, while the probabilities are keyed by decimal index:
      a label that is not a decimal number is then not among the keys. */
  lemma ClassNameMissingFromProbs(labels: Option<seq<string>>, probs: seq<real>, idx: nat)
    requires Truthy(labels) && |labels.value| != |probs| && idx < |labels.value|
    requires exists c :: c in labels.value[idx] && !IsDigit(c)
    ensures ClassName(labels, idx) == labels.value[idx]
    ensures Get(ProbsDict(labels, probs), ClassName(labels, idx)).None?
  {
    var name := labels.value[idx];
    var keys := IndexKeys(|probs|);
    forall i | 0 <= i < |keys| ensures keys[i] != name {
      var c :| c in name && !IsDigit(c);
      assert forall m :: 0 <= m < |keys[i]| ==> IsDigit(keys[i][m]);
    }
  }

  /** The response body. */
  datatype ImageResponse = ImageResponse(
    topClass: string,
    topProb: real,
    probs: Dict<real>,
    explanation: string)

  /** The prefix of the returned overlay. */
  const PngDataUri: string := "data:image/png;base64,"

  /** The overlay as a data URI: the prefix, then the base 64 encoding of
      the PNG bytes. */
  function DataUri(png: seq<Base64.byte>): string {
    PngDataUri + Base64.Encode(png)
  }

  /** The data URI starts with the PNG prefix and its payload decodes to
      exactly the rendered bytes. */
  lemma DataUriRoundTrip(png: seq<Base64.byte>)
    ensures DataUri(png)[..|PngDataUri|] == PngDataUri
    ensures Base64.Decode(DataUri(png)[|PngDataUri|..]) == Some(png)
  {
    assert DataUri(png)[|PngDataUri|..] == Base64.Encode(png);
    Base64.DecodeEncode(png);
  }

  /** What the handler answers for a forward output, given the heat map of
      the explanation and the renderer of the overlay. */
  function ImageAnswer(labels: Option<seq<string>>, out: Output, heat: Heat,
                       render: Heat -> seq<Base64.byte>): (r: ImageResponse)
    requires out.WellFormed() && ProbVector(out).Some?
    ensures var probs := ProbVector(out).value;
      && r.topClass == ClassName(labels, ArgMax(probs))
      && r.topProb == probs[ArgMax(probs)]
      && (forall j :: 0 <= j < |probs| ==> probs[j] <= r.topProb)
      && (forall j :: 0 <= j < ArgMax(probs) ==> probs[j] < r.topProb)
    ensures r.probs == ProbsDict(labels, ProbVector(out).value)
    ensures |PngDataUri| <= |r.explanation| && r.explanation[..|PngDataUri|] == PngDataUri
    ensures Base64.Decode(r.explanation[|PngDataUri|..]) == Some(render(heat))
  {
    var probs := ProbVector(out).value;
    var top := ArgMax(probs);
    DataUriRoundTrip(render(heat));
    ImageResponse(ClassName(labels, top), probs[top], ProbsDict(labels, probs), DataUri(render(heat)))
  }

  /** The logged inputs: `{"filename": …}`. */
  function ImageInputs(filename: Option<string>): (j: Json)
    ensures j.JObject? && DistinctKeys(j.fields) && KeySet(j.fields) == {"filename"}
    ensures Get(j.fields, "filename").Some? && ReadOptionalString(Get(j.fields, "filename").value) == Some(filename)
  {
    var fields := [("filename", OptionalString(filename))];
    GetDistinct(fields, 0);
    JObject(fields)
  }

  /** The logged outputs: the response without the overlay. */
  function ImageOutputs(r: ImageResponse): (j: Json)
    ensures j.JObject? && DistinctKeys(j.fields)
    ensures Get(j.fields, "top_class") == Some(JStr(r.topClass))
    ensures Get(j.fields, "top_prob") == Some(JNum(r.topProb))
    ensures Get(j.fields, "probs") == Some(JObject(NumberMap(r.probs)))
    ensures Get(j.fields, "explanation_b64").None?
  {
    var fields := [
      ("top_class", JStr(r.topClass)),
      ("top_prob", JNum(r.topProb)),
      ("probs", JObject(NumberMap(r.probs)))];
    assert DistinctKeys(fields);
    GetDistinct(fields, 0);
    GetDistinct(fields, 1);
    GetDistinct(fields, 2);
    assert "explanation_b64" !in KeySet(fields);
    JObject(fields)
  }

  /** Explaining the top class fails exactly when every strategy of the plan
      fails to produce a heat map: scoring the top class never raises. */
  lemma ExplainTopFails(plan: seq<Strategy>, out: Output, cam: Layer -> Option<Heat>, saliency: Option<Heat>)
    requires |plan| >= 1 && out.WellFormed() && ProbVector(out).Some?
    ensures RunPlan(plan, out, Some(ArgMax(ProbVector(out).value)), cam, saliency).Err?
      <==> forall j :: 0 <= j < |plan| ==> HeatOf(plan[j], cam, saliency).None?
  {
    var top := Some(ArgMax(ProbVector(out).value));
    ScoreArgMax(out);
    RunPlanFirstSuccess(plan, out, top, cam, saliency);
    var k :| 0 <= k < |plan|
      && RunPlan(plan, out, top, cam, saliency) == Attempt(plan[k], out, top, cam, saliency)
      && (forall j :: 0 <= j < k ==> Attempt(plan[j], out, top, cam, saliency).Err?)
      && (Attempt(plan[k], out, top, cam, saliency).Ok? || k == |plan| - 1);
    assert forall j :: 0 <= j < |plan| ==>
      (Attempt(plan[j], out, top, cam, saliency).Err? <==> HeatOf(plan[j], cam, saliency).None?);
  }

  /** FastAPI's answer to an exception the handler does not catch. */
  const Uncaught := HttpError(500, "Internal Server Error")

  /** The probability vector of the forward pass, if the upload decoded, the
      forward pass returned and its output converts. */
  function ForwardProbs(out: Option<Output>): Option<seq<real>>
    requires out.Some? ==> out.value.WellFormed()
  {
    if out.None? then None else ProbVector(out.value)
  }

  /** `predict_image`: an unknown or non-image id raises 400. An upload that
      does not decode, a forward pass that raises (`out` is `None` for both)
      or an output whose probabilities cannot be read raise an uncaught
      exception, a bare 500. An explanation that fails on every strategy
      raises 500 "Grad-CAM failed". None of these logs anything. Otherwise
      exactly one prediction row is appended, without user or patient,
      carrying the file name and the response minus the overlay. Until the
      explanation runs the model's hook table is left alone; from then on
      every Grad-CAM attempt that fails leaves its two hooks registered, as
      `HooksAfterRun` of the plan says. */
  method PredictImage(db: Database, entries: map<string, Bundle>, net: Network, modelId: string,
                      out: Option<Output>, filename: Option<string>, cam: Layer -> Option<Heat>,
                      saliency: Option<Heat>, render: Heat -> seq<Base64.byte>, now: int)
    returns (r: Result<ImageResponse, HttpError>)
    requires db.Valid() && net.Valid() && (out.Some? ==> out.value.WellFormed())
    modifies db, net
    ensures db.Valid() && db.simulations == old(db.simulations)
    ensures net.Valid()
    ensures r.Err? ==> db.predictions == old(db.predictions)
    ensures ImageBundle(entries, modelId).Err? ==> r == Err(ImageBundle(entries, modelId).error)
    ensures ImageBundle(entries, modelId).Ok? && ForwardProbs(out).None? ==> r == Err(Uncaught)
    ensures !(ImageBundle(entries, modelId).Ok? && ForwardProbs(out).Some?) ==>
      net.hooks == old(net.hooks) && net.nextHandle == old(net.nextHandle)
    ensures ImageBundle(entries, modelId).Ok? && ForwardProbs(out).Some? ==>
      (net.hooks, net.nextHandle) == HooksAfterRun(Plan(net.typeName, net.modules, None), out.value,
        Some(ArgMax(ForwardProbs(out).value)), cam, saliency, old(net.hooks), old(net.nextHandle))
    ensures ImageBundle(entries, modelId).Ok? && ForwardProbs(out).Some? ==>
      var explained := RunPlan(Plan(net.typeName, net.modules, None), out.value,
        Some(ArgMax(ForwardProbs(out).value)), cam, saliency);
      && (explained.Err? ==> r == Err(HttpError(500, "Grad-CAM failed")))
      && (explained.Ok? ==>
            && r.Ok?
            && r.value == ImageAnswer(ImageBundle(entries, modelId).value, out.value, explained.value.heat, render)
            && db.predictions == old(db.predictions) + [PredictionRow(
                 NextId(old(db.predictions), PredictionId), None, None, modelId,
                 ImageInputs(filename), ImageOutputs(r.value), now)])
  {
    var labels := ImageBundle(entries, modelId);
    if labels.Err? {
      return Err(labels.error);
    }
    if out.None? {
      return Err(Uncaught);
    }
    var probs := ProbVector(out.value);
    if probs.None? {
      return Err(Uncaught);
    }
    var top := ArgMax(probs.value);
    var explained := net.ExplainImage(out.value, Some(top), None, cam, saliency);
    if explained.Err? {
      return Err(HttpError(500, "Grad-CAM failed"));
    }
    var answer := ImageAnswer(labels.value, out.value, explained.value.heat, render);
    var _ := db.AddPrediction(None, None, modelId, ImageInputs(filename), ImageOutputs(answer), now);
    r := Ok(answer);
  }
}
