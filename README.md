# Clinical model-serving backend: decision-logic model

This project models the decision logic of a FastAPI backend that serves
clinical risk models. It proves properties of that logic in Dafny. The
backend has two kinds of model:

- tabular scikit-learn pipelines (`mimic_t2d`, `nhanes`), which return a risk
  probability, a low / mild / high category and the top SHAP attributions;
- image networks (`dfu`, `dr`), which return a top class, its probability, a
  per-class probability dict and a Grad-CAM (or saliency) overlay as a PNG
  data URI.

Each prediction appends one row to an audit table. Admin endpoints list the
audit tables newest first.

The numeric work is not modelled. Every number a library computes is an
input: the pipeline's probability, the SHAP values, the softmax and sigmoid
of a network output, each strategy's heat map and the rendered PNG bytes.
What is modelled is the logic around those numbers:

| module | file | models |
|---|---|---|
| `Registry` | registry.dfy | `load_all`: the fixed id→file tables, skipping missing files, feature-column resolution, the sidecar path rule, label attachment and the shared device; `ModelRegistry` is the module-level `REGISTRY` dict, filled in place by two loops |
| `TabularRouter` | tabular_router.dfy | `align_row` (a loop adding missing columns), the modality check, threshold bucketing, the response and the audit append of `predict_tabular` |
| `ShapUtils` | shap_utils.dfy | `top_shap_for_row` around an abstract explainer result: the dict comprehension, a stable sort by descending magnitude, the top-k slice, and the empty result on failure |
| `ImageRouter` | image_router.dfy | `predict_image`: modality check, probability vector, argmax, top probability, class name, `probs_dict` keys, 500 on explanation failure, the bare 500 of an upload, forward pass or output that raises, the data URI and the audit append |
| `GradCam` | gradcam.dfy | `_is_scripted`, `_find_last_conv` (a loop), `_score_and_probs`, the strategy order of `explain_image`, and the hooks `_gradcam_core` registers on the network, removes on success and leaves behind when it raises |
| `AuditLog` | audit_log.dfy | the two append-only tables with auto-increment ids (`Database`), and `list_predictions` / `list_simulations` |
| `Records` | records.dfy | the rows of the audit tables, the risk category and the JSON items of the admin listing |
| `Base64` | base64.dfy | `base64.b64encode` as in section 4 of RFC 4648, with a decoder that inverts it |
| `Dicts`, `Strings`, `Common` | dicts.dfy, strings.dfy, common.dfy | Python dicts as insertion-ordered pairs (dict comprehensions keep a repeated key's first position and its last value); substring search, `str.replace` and `str(n)`; `Option`, `Result`, JSON and HTTP errors |

Python semantics made explicit:

- `str.replace` rewrites every occurrence, left to right.
- `sorted(..., reverse=True)` is stable, so ties keep their original order.
- `np.argmax` returns the first maximal index.
- A list or dict is truthy only when it is non-empty.
- A negative index counts from the end.
- SQLite reads a negative `LIMIT` as no limit.

## Model

| member | source | states |
|---|---|---|
| Registry.ImageLabels | codes/backend1/registry.py:10-13 | `dfu` gets its 3 labels and `dr` its 5, in the listed order; any other id gets none |
| Registry.ChooseDevice | codes/backend1/registry.py:32 | "cuda" iff CUDA is available, "cpu" otherwise |
| Registry.JoinPath | codes/backend1/registry.py:21 | an absolute name replaces the base; otherwise the path is the base and the name with at most one separator added |
| Registry.JoinPathRelative | codes/backend1/registry.py:21 | for a relative name the path starts with the base and ends with the name, with a `/` before the name when the base is non-empty |
| Registry.SidecarPathSplit | codes/backend1/registry.py:27 | every `.joblib` is rewritten to `.cols.json` scanning from the left, not only the extension |
| Registry.SidecarPathAbsent | codes/backend1/registry.py:27 | a path without `.joblib` is its own sidecar path |
| Registry.SidecarPathInDirectory | codes/backend1/registry.py:21-27 | a `.joblib` in the directory part of the path is rewritten too |
| Registry.LoadTableKeys | codes/backend1/registry.py:19-22 | one loop adds exactly the ids of the table whose file exists, and removes none |
| Registry.LoadTable | codes/backend1/registry.py:19-29 | one table's loop never removes an id |
| Registry.LoadTableOther | codes/backend1/registry.py:19-35 | an id the loop's table does not list keeps its entry, or stays absent |
| Registry.LoadTableEntry | codes/backend1/registry.py:21-29 | a listed id whose file exists gets the bundle built from its path; a missing file leaves the prior entry |
| Registry.LoadedKeys | codes/backend1/registry.py:19-35 | after `load_all` the keys are the prior keys plus the ids among `mimic_t2d`, `nhanes`, `dfu`, `dr` whose artifact exists |
| Registry.Loaded | codes/backend1/registry.py:15-48 | `load_all` never removes an id |
| Registry.LoadedTabular | codes/backend1/registry.py:24-29 | an existing tabular artifact is a `tabular` entry; its columns are the embedded feature names, else the sidecar's contents if the sidecar exists, else empty |
| Registry.LoadedImage | codes/backend1/registry.py:32-48 | an existing image artifact is an `image` entry on the one device chosen before the loop, with `IMAGE_LABELS.get(mid)` |
| Registry.LoadedMissing | codes/backend1/registry.py:22-35 | a missing artifact is skipped: its id's prior entry, or its absence, is kept |
| Registry.LoadedUntouched | codes/backend1/registry.py:7-48 | entries of ids outside the two tables are untouched; the registry is never cleared |
| Registry.LoadedIdempotent | codes/backend1/registry.py:19-48 | loading again from unchanged files gives the same registry |
| Registry.ModelRegistry.constructor | codes/backend1/registry.py:7 | the registry starts empty |
| Registry.ModelRegistry.LoadAll | codes/backend1/registry.py:15-51 | the two loops leave the registry equal to `Loaded` of the old one, and return it |
| TabularRouter.Aligned | codes/backend-test-2/routers/tabular.py:16-20 | one cell per column, in column order; a cell is missing iff the request lacks the key, and otherwise holds the request's value |
| TabularRouter.AlignRow | codes/backend-test-2/routers/tabular.py:16-20 | the frame loop adding `NaN` columns and then selecting `cols` yields exactly `Aligned` |
| TabularRouter.AlignedDropsExtra | codes/backend-test-2/routers/tabular.py:20 | a feature whose key is not a column does not change the row |
| TabularRouter.AlignedValue | codes/backend-test-2/routers/tabular.py:18-20 | a present cell holds exactly the request's value for that key |
| TabularRouter.Bucket | codes/backend-test-2/routers/tabular.py:31 | "low" iff p < low, "mild" iff low <= p < high, "high" iff p >= low and p >= high; exactly one applies |
| TabularRouter.BucketHigh | codes/backend-test-2/routers/tabular.py:31 | with low <= high, "high" iff p >= high |
| TabularRouter.BucketMonotone | codes/backend-test-2/routers/tabular.py:31 | with low <= high, the category never goes down as p goes up |
| TabularRouter.DefaultBuckets | codes/backend-test-2/routers/tabular.py:14-31 | with the default thresholds 0.40 and 0.65: they are ordered, "high" iff p >= 0.65, and the category never goes down as p goes up |
| TabularRouter.LoggedUser | codes/backend-test-2/routers/tabular.py:35 | no context gives no user; otherwise the context's user id, itself optional |
| TabularRouter.LoggedPatient | codes/backend-test-2/routers/tabular.py:36 | no context gives no patient; otherwise the context's patient id, itself optional |
| TabularRouter.TabularOutputs | codes/backend-test-2/routers/tabular.py:38 | an object with distinct keys holding the response's probability, category name and attributions, and not the thresholds |
| TabularRouter.LoggedCategory | codes/backend-test-2/routers/tabular.py:31-38 | the category string written to the log recovers the response's category |
| TabularRouter.TabularColumns | codes/backend-test-2/routers/tabular.py:24-27 | an unknown or non-tabular id is a 400 "unknown tabular model_id"; otherwise the entry's columns |
| TabularRouter.TabularAnswer | codes/backend-test-2/routers/tabular.py:30-42 | the probability is the pipeline's; the category is its bucket; the attributions are `top_shap_for_row` with `topk=6`: at most 6, by descending magnitude, with distinct keys; the thresholds are echoed |
| TabularRouter.PredictTabular | codes/backend-test-2/routers/tabular.py:22-42 | for features given as a dict (distinct keys): 400 iff the modality check fails, and then no row is logged; on success exactly one prediction row is appended under the next id, with the context's user and patient (or none), the request's model id and features, and outputs equal to the response's probability, category and attributions |
| ShapUtils.SortByMagnitude | codes/backend-test-2/utils/shap_utils.py:8 | a permutation sorted by non-increasing magnitude in which equal magnitudes keep their order |
| ShapUtils.TopShap | codes/backend-test-2/utils/shap_utils.py:3-11 | at most `topk` entries; an explainer failure or too few values gives the empty dict; otherwise `min(topk, distinct columns)` entries |
| ShapUtils.TopShapByMagnitude | codes/backend-test-2/utils/shap_utils.py:8 | the entries are in non-increasing order of magnitude |
| ShapUtils.TopShapDistinctKeys | codes/backend-test-2/utils/shap_utils.py:7-8 | no column appears twice |
| ShapUtils.TopShapValues | codes/backend-test-2/utils/shap_utils.py:7 | each entry is a column with the explainer's value at that column's last index |
| ShapUtils.TopShapOmittedAreSmaller | codes/backend-test-2/utils/shap_utils.py:8 | every column left out has a magnitude no larger than any entry returned |
| ShapUtils.TopShapTiesInColumnOrder | codes/backend-test-2/utils/shap_utils.py:8 | entries of equal magnitude come in column order |
| Dicts.FromPairs | codes/backend-test-2/utils/shap_utils.py:7 | a dict comprehension: distinct keys, the keys of the source, each with the value at its key's last index, in first-index order |
| Dicts.FromPairsDistinct | codes/backend-test-2/routers/image.py:70 | with distinct keys, the comprehension is the pairs in index order |
| GradCam.ProbVector | codes/backend-test-2/routers/image.py:44-48 | the softmax row for a multi-class output, `[1 - p1, p1]` when the first element is a single value, and none (the conversion raises) for any other output; at least two entries when there is one |
| GradCam.ArgMax | codes/backend-test-2/routers/image.py:50 | the first index of a maximal entry |
| GradCam.ScoreAndProbs | codes/backend-test-2/utils/gradcam.py:16-28 | multi-class: the target is `class_idx` or the argmax, negative indices from the end, out of range raises, prob is `probs[idx]`; single logit: target defaults to 1, score is `out` iff target 1 and `-out` otherwise, prob is p1 whatever the target; any other output raises; on success the vector is `ProbVector`'s |
| GradCam.ScoreArgMax | codes/backend-test-2/utils/gradcam.py:18-28 | when the output has a probability vector, scoring its argmax never fails; for a single logit the returned prob is p1 even when the argmax is 0 |
| GradCam.IsScripted | codes/backend-test-2/utils/gradcam.py:6-7 | true iff the type name contains `ScriptModule` |
| GradCam.LastConvIndex | codes/backend-test-2/utils/gradcam.py:9-14 | the last Conv2d in traversal order; none iff there is no Conv2d |
| GradCam.FindLastConv | codes/backend-test-2/utils/gradcam.py:9-14 | the loop returns the layer at `LastConvIndex` |
| GradCam.PreferredLayer | codes/backend-test-2/utils/gradcam.py:69-70 | no preferred name gives no layer; a layer found is a module of the network carrying that name |
| GradCam.PreferredLayerFound | codes/backend-test-2/utils/gradcam.py:69-70 | the preferred name resolves iff some module has that name, and then to the last module of that name |
| GradCam.Plan | codes/backend-test-2/utils/gradcam.py:64-84 | at least one strategy, saliency last; a scripted model gets saliency alone |
| GradCam.PlanUnscripted | codes/backend-test-2/utils/gradcam.py:68-84 | the unscripted plan is the preferred layer's Grad-CAM followed by the fallbacks |
| GradCam.PlanShape | codes/backend-test-2/utils/gradcam.py:68-84 | unscripted: a resolved preferred layer comes first, the last conv layer just before saliency, and there is one strategy per layer found plus saliency |
| GradCam.PlanGradCamsFirst | codes/backend-test-2/utils/gradcam.py:68-84 | every strategy before the last is a Grad-CAM attempt |
| GradCam.Explain | codes/backend-test-2/utils/gradcam.py:39-52 | an explanation succeeds iff scoring and the heat map both do, and carries scoring's prob and vector |
| GradCam.Attempt | codes/backend-test-2/utils/gradcam.py:72-84 | a strategy succeeds iff scoring and its heat map both do, and then carries that heat map with scoring's prob and vector; a scoring error is returned as it is |
| GradCam.RunPlan | codes/backend-test-2/utils/gradcam.py:64-84 | success iff scoring succeeds and some strategy of the plan produces a heat map; the heat returned is one of those heat maps |
| GradCam.RunPlanFirstSuccess | codes/backend-test-2/utils/gradcam.py:64-84 | the result is the first successful strategy's, all earlier ones having failed, or the last strategy's; failure means every strategy failed |
| GradCam.PreferredStep | codes/backend-test-2/utils/gradcam.py:68-75 | a resolved preferred layer is tried first and its failure falls through to the fallbacks; an unresolved one is skipped |
| GradCam.FallbackSteps | codes/backend-test-2/utils/gradcam.py:76-84 | the last conv layer is tried when there is one and its failure falls to saliency, whose outcome is final |
| GradCam.ScriptedUsesSaliency | codes/backend-test-2/utils/gradcam.py:66-67 | a scripted model goes straight to saliency |
| GradCam.HooksRestoredIffRemoved | codes/backend-test-2/utils/gradcam.py:34-51 | the hook table is back to what it was iff the hooks were removed; otherwise two more hooks stay registered |
| GradCam.HooksLeakPerFailure | codes/backend-test-2/utils/gradcam.py:34-84 | running a plan grows the hook table by exactly two entries per Grad-CAM attempt that failed before the run stopped, under fresh handles; the table is unchanged iff no attempt failed |
| GradCam.FailedLastConvLeaksTwoHooks | codes/backend-test-2/utils/gradcam.py:76-84 | with no preferred layer, a last-conv Grad-CAM that fails followed by a saliency map that works gives a successful explanation that leaves two more hooks on the network |
| GradCam.FallbackHooks | codes/backend-test-2/utils/gradcam.py:76-84 | the fallbacks touch the hooks only through the last-conv attempt, which adds two handles and removes them iff it succeeds |
| GradCam.Network.constructor | codes/backend-test-2/utils/gradcam.py:64 | a network with no hooks registered |
| GradCam.Network.RegisterHook | codes/backend-test-2/utils/gradcam.py:34-35 | one hook added under a fresh handle |
| GradCam.Network.RemoveHook | codes/backend-test-2/utils/gradcam.py:51 | the handle's hook removed, nothing else |
| GradCam.Network.GradcamCoreAsWritten | codes/backend-test-2/utils/gradcam.py:30-52 | the result of scoring plus the layer's heat map; the two hooks stay registered when it fails |
| GradCam.Network.GradcamCore | codes/backend-test-2/utils/gradcam.py:30-52 | the same result, and the hook table is restored whatever the outcome |
| GradCam.Network.ExplainImage | codes/backend-test-2/utils/gradcam.py:64-84 | the result is `RunPlan` of the plan, and the hook table ends as `HooksAfterRun` gives it: each Grad-CAM attempt that fails leaves its two hooks registered, as `_gradcam_core` is written |
| GradCam.Network.ExplainFrom | codes/backend-test-2/utils/gradcam.py:69-84 | with the preferred layer resolved: the result and the hook table of trying it first and then the fallbacks |
| GradCam.Network.ExplainFallbacks | codes/backend-test-2/utils/gradcam.py:76-84 | the result and the hook table of the last-conv attempt followed by saliency |
| GradCam.Network.ExplainImageCorrected | codes/backend-test-2/utils/gradcam.py:64-84 | the same result as `explain_image`, with the hook table left as it was |
| ImageRouter.ImageBundle | codes/backend-test-2/routers/image.py:34-37 | an unknown or non-image id is a 400 "unknown image model_id"; otherwise the entry's labels |
| ImageRouter.ClassName | codes/backend-test-2/routers/image.py:52 | the label at the index when the labels are non-empty and long enough; otherwise the index's decimal digits, which read back as the index |
| ImageRouter.ProbsDict | codes/backend-test-2/routers/image.py:69-72 | keyed by the labels iff they are non-empty and as many as the classes; by `"0"`..`"n-1"` otherwise |
| ImageRouter.ProbsDictByIndex | codes/backend-test-2/routers/image.py:71-72 | the fallback dict is the decimal indices with the probabilities, in index order |
| ImageRouter.ProbsDictByLabel | codes/backend-test-2/routers/image.py:69-70 | with one distinct label per class, the dict is the labels with the probabilities, in index order |
| ImageRouter.ProbsDictRepeatedLabel | codes/backend-test-2/routers/image.py:70 | a repeated label maps to the probability of its last occurrence |
| ImageRouter.ClassNameKeyedByLabel | codes/backend-test-2/routers/image.py:52-70 | with one distinct label per class, the class name is the label and the dict maps it to the class's probability |
| ImageRouter.ClassNameKeyedByIndex | codes/backend-test-2/routers/image.py:52-72 | without a label for the class, the name is its decimal index and the dict maps it to the class's probability |
| ImageRouter.ClassNameMissingFromProbs | codes/backend-test-2/routers/image.py:52-72 | with labels that do not match the class count, a non-numeric class name is not a key of the dict |
| ImageRouter.DataUriRoundTrip | codes/backend-test-2/routers/image.py:66-87 | the overlay starts with `data:image/png;base64,` and its payload decodes to exactly the PNG bytes |
| ImageRouter.ImageAnswer | codes/backend-test-2/routers/image.py:50-87 | the top class is the class name of the argmax and the top probability its entry: no entry is larger and every earlier one is smaller; the dict is `probs_dict`; the overlay decodes to the rendering |
| ImageRouter.ExplainTopFails | codes/backend-test-2/routers/image.py:55-58 | explaining the top class fails iff no strategy of the plan produces a heat map |
| ImageRouter.ImageInputs | codes/backend-test-2/routers/image.py:77 | an object whose one key, `filename`, holds the upload's file name (or null) |
| ImageRouter.ImageOutputs | codes/backend-test-2/routers/image.py:78 | an object with distinct keys holding the response's `top_class`, `top_prob` and `probs`, and not the overlay |
| ImageRouter.PredictImage | codes/backend-test-2/routers/image.py:33-88 | a 400 for a bad id; a bare 500 when the upload does not decode, the forward pass raises or the output has no probability vector; a 500 "Grad-CAM failed" for a failed explanation; none of these logs; on success exactly one row with no user or patient, the file name, and outputs equal to the response's top class, top probability and dict; the network's hook table is untouched unless the explanation runs, and then ends as `HooksAfterRun` of explaining the argmax class gives it, two leaked hooks per failed Grad-CAM attempt |
| Base64.Encode | codes/backend-test-2/routers/image.py:66 | four characters per started group of three bytes |
| Base64.DecodeEncode | codes/backend-test-2/routers/image.py:66 | decoding the encoding of any bytes gives them back |
| Base64.EncodeInjective | codes/backend-test-2/routers/image.py:66 | distinct byte strings have distinct encodings |
| Strings.DecimalRoundTrip | codes/backend-test-2/routers/image.py:52 | `str(n)` is all digits and reads back as `n` |
| Strings.DecimalString | codes/backend-test-2/routers/image.py:52 | at least one digit, only digits, and no leading zero except for 0 itself |
| Strings.DecimalInjective | codes/backend-test-2/routers/image.py:72 | distinct indices give distinct keys |
| Strings.Contains | codes/backend-test-2/utils/gradcam.py:7 | true iff the pattern occurs at some position |
| Strings.ReplaceAllAbsent | codes/backend1/registry.py:27 | a string without the pattern is returned unchanged |
| Strings.ReplaceAllSplit | codes/backend1/registry.py:27 | when the first occurrence of the pattern follows `a`, the result keeps `a`, substitutes that occurrence and goes on after it |
| Records.CategoryNameInjective | codes/backend-test-2/routers/tabular.py:31 | the labels `low`, `mild`, `high` name the categories one to one |
| Records.PredictionItemRoundTrip | codes/backend-test-2/routers/admin.py:12-23 | a listing item carries every column of its prediction row verbatim |
| Records.SimulationItemRoundTrip | codes/backend-test-2/routers/admin.py:28-39 | a listing item carries every column of its simulation row, `sim_type` included, verbatim |
| AuditLog.NextId | codes/backend-test-2/db/models.py:13 | the next id is positive and above every id in the table |
| AuditLog.AppendKeepsAscending | codes/backend-test-2/db/models.py:13 | appending under the next id keeps the ids strictly ascending |
| AuditLog.Taken | codes/backend-test-2/routers/admin.py:10-11 | `min(limit, n)` rows, or all of them for a negative limit |
| AuditLog.NewestFirstSize | codes/backend-test-2/routers/admin.py:10-11 | at most `limit` rows; none for `limit = 0` |
| AuditLog.NewestFirstDescending | codes/backend-test-2/routers/admin.py:11 | the rows come in strictly decreasing id order |
| AuditLog.NewestFirstHighest | codes/backend-test-2/routers/admin.py:11 | the rows listed are rows of the table, and every row left out has a smaller id than each row listed |
| AuditLog.ListPredictions | codes/backend-test-2/routers/admin.py:9-23 | `min(limit, n)` items, the i-th being the i-th newest row as a JSON object |
| AuditLog.ListPredictionsVerbatim | codes/backend-test-2/routers/admin.py:12-23 | each item reads back as its row, unchanged |
| AuditLog.ListSimulations | codes/backend-test-2/routers/admin.py:25-40 | the same for simulation rows |
| AuditLog.ListSimulationsVerbatim | codes/backend-test-2/routers/admin.py:28-39 | each simulation item reads back as its row, unchanged |
| AuditLog.DefaultPage | codes/backend-test-2/routers/admin.py:10-27 | with the default limit of 20, a listing has `min(20, n)` items |
| AuditLog.AppendedIsListedFirst | codes/backend-test-2/routers/admin.py:11 | a row just appended is listed first for any non-zero limit |
| AuditLog.Database.constructor | codes/backend-test-2/db/models.py:11-30 | both tables start empty |
| AuditLog.Database.AddPrediction | codes/backend-test-2/routers/tabular.py:34-41 | one prediction row appended under the next id, ids kept ascending, the simulation table untouched |
| AuditLog.Database.AddSimulation | codes/backend-test-2/db/models.py:21-30 | an insert into the auto-increment simulation table by any writer (no route of the backend writes one): one row appended under the next id, the prediction table untouched |

## Left out

- Tensor and floating-point numerics are inputs, not computations: softmax, sigmoid, `predict_proba`, the Grad-CAM weighting, ReLU, interpolation and normalisation, and the input-gradient saliency. Probabilities are `real`. Each strategy's heat map, or its failure, is a given function.
- The SHAP explainer is a foreign library. Its result is `Option<seq<real>>`, and `None` stands for any exception it raises.
- Model deserialisation and reading the sidecar JSON are file I/O:
  - `joblib.load`, the `torch.jit.load` fallback to `torch.load`, `.eval()` and `.to(device)` are left out, and so are the loaded model objects;
  - file existence is the set `Disk.present`, embedded feature names are `Disk.featureNamesIn`, and the sidecar's parsed contents are `Disk.readColumns`;
  - a corrupt artifact or sidecar, whose exception would abort `load_all`, is not modelled.
- Image decoding, resizing and normalising, and the matplotlib overlay, are library code. Only whether decoding and the forward pass succeed is modelled. The PNG bytes are a function of the heat map.
- The router's forward pass and the forward passes inside the explanation are taken to give the same output, since they run the same network on the same tensor. The probability and vector that the explanation returns are discarded by the router, as in the source.
- The `fmap` and `grads` dictionaries filled by the hooks are numeric state and are not modelled. Only the hook registrations are modelled.
- The database engine, sessions, schema creation and the seed script are not part of this model. The session is modelled as the `Database` object, with one commit per append.
- The environment-based configuration is not part of this model. The thresholds are parameters, and their defaults (0.40, 0.65) are constants.
- Pydantic schemas are used only for record shapes. The request's optional `context` is `Option<UserContext>`.
- The clock (`time.time()`) is the `now` parameter. The `print` of the loaded registry, CORS, app wiring and the health endpoints are left out.
- Concurrent requests, including races on a shared network's hooks, are left out. The model is a single sequential caller.
- An exception from `predict_proba`, or from the overlay rendering, would surface as an uncaught server error. It is not modelled as an outcome. The image route's other uncaught errors are modelled: an upload that does not decode and a forward pass that raises (`out` is `None`), and an output whose probabilities cannot be read; each is a bare 500 with no log row.

## Findings

| source | as written | input that shows it | evidently intended | confidence | as-written member | corrected member |
|---|---|---|---|---|---|---|
| codes/backend-test-2/utils/gradcam.py:34-51 | `_gradcam_core` registers a forward and a backward hook, then removes them at its last step only; an exception in between (the backward pass, a missing gradient, a bad class index) leaves both hooks on the layer, and `explain_image` swallows that exception and moves on | any Grad-CAM attempt whose heat map fails, e.g. `cam(layer) = None`: the hook table ends with two more entries than it started with | the hooks are removed whatever the outcome (a `try`/`finally`), so the network is left as it was | not executed | GradCam.Network.GradcamCoreAsWritten (with GradCam.HooksRestoredIffRemoved, GradCam.HooksLeakPerFailure, GradCam.FailedLastConvLeaksTwoHooks, GradCam.Network.ExplainImage, ImageRouter.PredictImage) | GradCam.Network.GradcamCore, GradCam.Network.ExplainImageCorrected |
