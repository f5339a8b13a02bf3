/** The explanation dispatch of the image endpoint: how a forward output is
    turned into a target class, a score and a probability vector, how the
    target layer is found, in which order Grad-CAM and the saliency fallback
    are tried, and the hooks Grad-CAM registers on the model. The tensor
    arithmetic itself (softmax, sigmoid, the backward pass, the heat maps) is
    an input: each strategy's heat map, or its failure, is given. */
module GradCam {
  import opened Common
  import opened Strings
  import opened Dicts

  /** What the dispatch reads of a forward output `out`: its number of
      dimensions, its second dimension, the softmax of its first row, and the
      sigmoid of its first element as a Python float. That last one is `None`
      when the first element is not a single value (a feature map, an empty
      row, a 0-d tensor), where `float(torch.sigmoid(out)[0].item())` raises. */
  datatype Output = Output(ndim: nat, width: nat, softmax: seq<real>, sigmoid: Option<real>) {
    /** `out.ndim == 2 and out.shape[1] >= 2`: one logit per class. */
    predicate IsMultiClass() {
      ndim == 2 && width >= 2
    }

    /** The softmax row has one entry per class. */
    predicate WellFormed() {
      IsMultiClass() ==> |softmax| == width
    }
  }

  /** The per-class probabilities: the softmax row for a multi-class output,
      `[1 - p1, p1]` for a single sigmoid logit, and none (the conversion
      raises) for any other output. */
  function ProbVector(out: Output): (probs: Option<seq<real>>)
    requires out.WellFormed()
    ensures probs.None? <==> !out.IsMultiClass() && out.sigmoid.None?
    ensures probs.Some? ==> |probs.value| >= 2
    ensures out.IsMultiClass() ==> probs == Some(out.softmax)
    ensures !out.IsMultiClass() && out.sigmoid.Some? ==>
      probs == Some([1.0 - out.sigmoid.value, out.sigmoid.value])
  {
    if out.IsMultiClass() then Some(out.softmax)
    else if out.sigmoid.None? then None
    else Some([1.0 - out.sigmoid.value, out.sigmoid.value])
  }

  /** `argmax`: the first index of a maximal entry. */
  function ArgMax(s: seq<real>): (i: nat)
    requires |s| > 0
    ensures i < |s|
    ensures forall j :: 0 <= j < |s| ==> s[j] <= s[i]
    ensures forall j :: 0 <= j < i ==> s[j] < s[i]
    decreases |s|
  {
    if |s| == 1 then 0
    else
      var k := ArgMax(s[..|s| - 1]);
      assert forall j :: 0 <= j < |s| - 1 ==> s[..|s| - 1][j] == s[j];
      if s[|s| - 1] > s[k] then |s| - 1 else k
  }

  /** The scalar Grad-CAM and saliency differentiate. */
  datatype Score =
    | ClassLogit(column: nat)   // `out[:, idx]`
    | Logit                     // `out`
    | NegatedLogit              // `-out`

  /** The result of `_score_and_probs`: the target probability, the score and
      the probability vector. */
  datatype Scored = Scored(prob: real, score: Score, probs: seq<real>)

  /** `_score_and_probs(out, class_idx)`. For a multi-class output the
      target is `class_idx`, or the argmax when none is given, indexed the
      Python way (a negative index counts from the end, one out of range
      raises). For a single logit the target defaults to 1; the score is the
      logit for target 1 and its negation for any other target, and the
      probability is `p1` whatever the target; an output that is neither
      raises when `p1` is read. */
  function ScoreAndProbs(out: Output, classIdx: Option<int>): (r: Result<Scored, string>)
    requires out.WellFormed()
    ensures r.Ok? ==> ProbVector(out).Some? && r.value.probs == ProbVector(out).value
    ensures out.IsMultiClass() && classIdx.None? ==>
      r.Ok? && r.value.score == ClassLogit(ArgMax(out.softmax))
      && r.value.prob == out.softmax[ArgMax(out.softmax)]
    ensures out.IsMultiClass() && classIdx.Some? ==>
      var c := classIdx.value;
      && (r.Ok? <==> -(out.width as int) <= c < out.width)
      && (r.Ok? ==>
            var col := if c < 0 then c + out.width else c;
            r.value.score == ClassLogit(col) && r.value.prob == out.softmax[col])
    ensures !out.IsMultiClass() ==>
      && (r.Ok? <==> out.sigmoid.Some?)
      && (r.Ok? ==>
            && r.value.prob == out.sigmoid.value
            && (r.value.score == Logit <==> classIdx.None? || classIdx.value == 1)
            && (r.value.score == NegatedLogit <==> classIdx.Some? && classIdx.value != 1))
  {
    if out.IsMultiClass() then
      var probs := out.softmax;
      var idx: int := if classIdx.None? then ArgMax(probs) else classIdx.value;
      if idx < -(out.width as int) || out.width <= idx then Err("index out of range")
      else
        var col := if idx < 0 then idx + out.width else idx;
        Ok(Scored(probs[col], ClassLogit(col), probs))
    else if out.sigmoid.None? then Err("not a single value")
    else
      var p1 := out.sigmoid.value;
      var idx := if classIdx.None? then 1 else classIdx.value;
      Ok(Scored(p1, if idx == 1 then Logit else NegatedLogit, [1.0 - p1, p1]))
  }

  /** Scoring the argmax of the probability vector, when there is one, never
      fails. For a multi-class output it scores that class and returns its
      probability, the largest one; for a single logit the probability
      returned is `p1` even when the argmax is class 0. */
  lemma ScoreArgMax(out: Output)
    requires out.WellFormed() && ProbVector(out).Some?
    ensures var probs := ProbVector(out).value;
      var idx := ArgMax(probs);
      var r := ScoreAndProbs(out, Some(idx));
      && r.Ok? && r.value.probs == probs
      && (out.IsMultiClass() ==> r.value.score == ClassLogit(idx) && r.value.prob == probs[idx])
      && (!out.IsMultiClass() ==> r.value.prob == out.sigmoid.value && (r.value.score == Logit <==> idx == 1))
  {
  }

  /** `_is_scripted(model)`: the model's type name contains "ScriptModule". */
  function IsScripted(typeName: string): (b: bool)
    ensures b <==> exists i :: OccursAt(typeName, "ScriptModule", i)
  {
    Contains(typeName, "ScriptModule")
  }

  /** A submodule in `named_modules()` order: its qualified name and whether
      it is a `Conv2d`. */
  datatype Layer = Layer(name: string, isConv2d: bool)

  /** The index of the last `Conv2d` in traversal order, if any. */
  function LastConvIndex(modules: seq<Layer>): (r: Option<nat>)
    ensures r.None? <==> forall i :: 0 <= i < |modules| ==> !modules[i].isConv2d
    ensures r.Some? ==> r.value < |modules| && modules[r.value].isConv2d
    ensures r.Some? ==> forall j :: r.value < j < |modules| ==> !modules[j].isConv2d
    decreases |modules|
  {
    if modules == [] then None
    else if modules[|modules| - 1].isConv2d then Some(|modules| - 1)
    else
      var p := modules[..|modules| - 1];
      assert forall j :: 0 <= j < |p| ==> p[j] == modules[j];
      LastConvIndex(p)
  }

  function LayerAt(modules: seq<Layer>, i: Option<nat>): Option<Layer>
    requires i.Some? ==> i.value < |modules|
  {
    if i.Some? then Some(modules[i.value]) else None
  }

  /** `_find_last_conv(module)`: walks every submodule, remembering the last
      `Conv2d` seen. */
  method FindLastConv(modules: seq<Layer>) returns (last: Option<Layer>)
    ensures last == LayerAt(modules, LastConvIndex(modules))
  {
    last := None;
    for i := 0 to |modules|
      invariant last == LayerAt(modules[..i], LastConvIndex(modules[..i]))
    {
      assert modules[..i + 1][..i] == modules[..i];
      if modules[i].isConv2d {
        last := Some(modules[i]);
      }
    }
    assert modules[..|modules|] == modules;
  }

  function Names(modules: seq<Layer>): (names: seq<string>)
    ensures |names| == |modules| && forall i :: 0 <= i < |modules| ==> names[i] == modules[i].name
  {
    seq(|modules|, i requires 0 <= i < |modules| => modules[i].name)
  }

  /** `dict(model.named_modules()).get(name)`, for a given name. */
  function PreferredLayer(modules: seq<Layer>, name: Option<string>): (r: Option<Layer>)
    ensures name.None? ==> r.None?
    ensures r.Some? ==> r.value in modules && r.value.name == name.value
  {
    if name.None? then None
    else
      var names := Names(modules);
      var r := Get(FromPairs(names, modules), name.value);
      assert r.Some? ==> name.value in names && r.value == modules[LastIndex(names, name.value)] by {
        if r.Some? {
          var i :| 0 <= i < |FromPairs(names, modules)| && FromPairs(names, modules)[i] == (name.value, r.value);
        }
      }
      r
  }

  /** A preferred name resolves exactly when some submodule has that name, to
      the last submodule listed under it. */
  lemma PreferredLayerFound(modules: seq<Layer>, name: string)
    ensures PreferredLayer(modules, Some(name)).Some? <==> name in Names(modules)
    ensures name in Names(modules) ==>
      PreferredLayer(modules, Some(name)) == Some(modules[LastIndex(Names(modules), name)])
  {
    var names := Names(modules);
    if name in names {
      FromPairsGet(names, modules, name);
    } else {
      assert name !in KeySet(FromPairs(names, modules));
    }
  }

  /** One way of producing an explanation. */
  datatype Strategy = GradCamOn(layer: Layer) | Saliency

  /** The strategies `explain_image` tries, in order: a scripted model goes
      straight to saliency; otherwise Grad-CAM on the preferred layer when
      its name resolves, then Grad-CAM on the last `Conv2d` when there is
      one, then saliency. */
  function Plan(typeName: string, modules: seq<Layer>, preferred: Option<string>): (plan: seq<Strategy>)
    ensures |plan| >= 1 && plan[|plan| - 1] == Saliency
    ensures IsScripted(typeName) ==> plan == [Saliency]
  {
    if IsScripted(typeName) then [Saliency]
    else
      var pref := PreferredLayer(modules, preferred);
      var last := LayerAt(modules, LastConvIndex(modules));
      if pref.Some? && last.Some? then [GradCamOn(pref.value), GradCamOn(last.value), Saliency]
      else if pref.Some? then [GradCamOn(pref.value), Saliency]
      else if last.Some? then [GradCamOn(last.value), Saliency]
      else [Saliency]
  }

  /** Every strategy of a plan but the last, saliency, is a Grad-CAM. */
  lemma PlanGradCamsFirst(typeName: string, modules: seq<Layer>, preferred: Option<string>)
    ensures var plan := Plan(typeName, modules, preferred);
      forall i :: 0 <= i < |plan| - 1 ==> plan[i].GradCamOn?
  {
    var plan := Plan(typeName, modules, preferred);
    if !IsScripted(typeName) {
      PlanUnscripted(typeName, modules, preferred);
      forall i | 0 <= i < |plan| - 1 ensures plan[i].GradCamOn? {
        var pref := PreferredLayer(modules, preferred);
        if pref.Some? && i == 0 {
          assert plan[0] == GradCamOn(pref.value);
        } else {
          var fallbacks := Fallbacks(modules);
          var j := if pref.Some? then i - 1 else i;
          assert plan[i] == fallbacks[j];
        }
      }
    }
  }

  /** An unscripted model tries the preferred layer first when its name
      resolves and the last `Conv2d` just before saliency when there is one,
      and nothing else. */
  lemma PlanShape(typeName: string, modules: seq<Layer>, preferred: Option<string>)
    ensures var plan := Plan(typeName, modules, preferred);
      !IsScripted(typeName) && PreferredLayer(modules, preferred).Some? ==>
        plan[0] == GradCamOn(PreferredLayer(modules, preferred).value)
    ensures var plan := Plan(typeName, modules, preferred);
      !IsScripted(typeName) && LastConvIndex(modules).Some? ==>
        |plan| >= 2 && plan[|plan| - 2] == GradCamOn(modules[LastConvIndex(modules).value])
    ensures var plan := Plan(typeName, modules, preferred);
      !IsScripted(typeName) ==>
        |plan| == 1 + (if PreferredLayer(modules, preferred).Some? then 1 else 0)
                    + (if LastConvIndex(modules).Some? then 1 else 0)
  {
    var plan := Plan(typeName, modules, preferred);
    if !IsScripted(typeName) {
      var pref := PreferredLayer(modules, preferred);
      var idx := LastConvIndex(modules);
      var last := LayerAt(modules, idx);
      assert last.Some? <==> idx.Some?;
      assert idx.Some? ==> last.value == modules[idx.value];
      if pref.Some? && last.Some? {
        assert plan == [GradCamOn(pref.value), GradCamOn(last.value), Saliency];
      } else if pref.Some? {
        assert plan == [GradCamOn(pref.value), Saliency];
      } else if last.Some? {
        assert plan == [GradCamOn(last.value), Saliency];
      } else {
        assert plan == [Saliency];
      }
    }
  }

  /** The strategies tried after the preferred layer: Grad-CAM on the last
      `Conv2d` when there is one, then saliency. */
  function Fallbacks(modules: seq<Layer>): seq<Strategy> {
    var last := LayerAt(modules, LastConvIndex(modules));
    (if last.Some? then [GradCamOn(last.value)] else []) + [Saliency]
  }

  lemma PlanUnscripted(typeName: string, modules: seq<Layer>, preferred: Option<string>)
    requires !IsScripted(typeName)
    ensures var pref := PreferredLayer(modules, preferred);
      Plan(typeName, modules, preferred) == (if pref.Some? then [GradCamOn(pref.value)] else []) + Fallbacks(modules)
  {
  }

  type Heat = seq<seq<real>>

  /** What an explanation returns: the target probability, the heat map and
      the probability vector. */
  datatype Explanation = Explanation(prob: real, heat: Heat, probs: seq<real>)

  /** The outcome of one strategy: scoring may raise (a target index out of
      range), and so may producing the heat map (`cam` for Grad-CAM on a
      layer, `saliency` for the input-gradient fallback). */
  function Attempt(s: Strategy, out: Output, classIdx: Option<int>,
                   cam: Layer -> Option<Heat>, saliency: Option<Heat>): (r: Result<Explanation, string>)
    requires out.WellFormed()
    ensures r.Ok? <==> ScoreAndProbs(out, classIdx).Ok? && HeatOf(s, cam, saliency).Some?
    ensures r.Ok? ==>
      && r.value.heat == HeatOf(s, cam, saliency).value
      && r.value.prob == ScoreAndProbs(out, classIdx).value.prob
      && r.value.probs == ScoreAndProbs(out, classIdx).value.probs
    ensures ScoreAndProbs(out, classIdx).Err? ==> r == Err(ScoreAndProbs(out, classIdx).error)
  {
    Explain(ScoreAndProbs(out, classIdx), HeatOf(s, cam, saliency))
  }

  /** The heat map a strategy produces, or its failure. */
  function HeatOf(s: Strategy, cam: Layer -> Option<Heat>, saliency: Option<Heat>): Option<Heat> {
    if s.GradCamOn? then cam(s.layer) else saliency
  }

  /** An explanation from a scoring and a heat map, either of which may have
      failed. */
  function Explain(scored: Result<Scored, string>, heat: Option<Heat>): (r: Result<Explanation, string>)
    ensures r.Ok? <==> scored.Ok? && heat.Some?
    ensures r.Ok? ==> r.value == Explanation(scored.value.prob, heat.value, scored.value.probs)
  {
    if scored.Err? then Err(scored.error)
    else if heat.None? then Err("explanation failed")
    else Ok(Explanation(scored.value.prob, heat.value, scored.value.probs))
  }

  /** Tries the strategies in order: the first success is returned; the
      failure of any strategy but the last falls through; the last one's
      outcome, failure included, is the result. */
  function RunPlan(plan: seq<Strategy>, out: Output, classIdx: Option<int>,
                   cam: Layer -> Option<Heat>, saliency: Option<Heat>): (r: Result<Explanation, string>)
    requires |plan| >= 1 && out.WellFormed()
    ensures r.Ok? <==> ScoreAndProbs(out, classIdx).Ok? && exists s :: s in plan && HeatOf(s, cam, saliency).Some?
    ensures r.Ok? ==> exists s :: s in plan && HeatOf(s, cam, saliency) == Some(r.value.heat)
    decreases |plan|
  {
    var r := Attempt(plan[0], out, classIdx, cam, saliency);
    if |plan| == 1 || r.Ok? then r else RunPlan(plan[1..], out, classIdx, cam, saliency)
  }

  /** The plan of an unscripted model, first step: the preferred layer when
      it resolves, and the fallbacks after it. */
  lemma PreferredStep(typeName: string, modules: seq<Layer>, preferred: Option<string>, out: Output,
                      classIdx: Option<int>, cam: Layer -> Option<Heat>, saliency: Option<Heat>)
    requires !IsScripted(typeName) && out.WellFormed()
    ensures var pref := PreferredLayer(modules, preferred);
      var run := RunPlan(Plan(typeName, modules, preferred), out, classIdx, cam, saliency);
      var fallback := RunPlan(Fallbacks(modules), out, classIdx, cam, saliency);
      && (pref.Some? ==>
            var first := Explain(ScoreAndProbs(out, classIdx), cam(pref.value));
            run == if first.Ok? then first else fallback)
      && (pref.None? ==> run == fallback)
  {
    var pref := PreferredLayer(modules, preferred);
    var plan := Plan(typeName, modules, preferred);
    if pref.Some? {
      assert plan[0] == GradCamOn(pref.value) && plan[1..] == Fallbacks(modules);
      assert Attempt(plan[0], out, classIdx, cam, saliency) == Explain(ScoreAndProbs(out, classIdx), cam(pref.value));
    } else {
      assert plan == Fallbacks(modules);
    }
  }

  /** The fallbacks: Grad-CAM on the last `Conv2d` when there is one, then
      saliency, whose outcome is final. */
  lemma FallbackSteps(modules: seq<Layer>, out: Output, classIdx: Option<int>,
                      cam: Layer -> Option<Heat>, saliency: Option<Heat>)
    requires out.WellFormed()
    ensures var last := LayerAt(modules, LastConvIndex(modules));
      var fallback := RunPlan(Fallbacks(modules), out, classIdx, cam, saliency);
      && (last.Some? ==>
            var second := Explain(ScoreAndProbs(out, classIdx), cam(last.value));
            fallback == if second.Ok? then second else Explain(ScoreAndProbs(out, classIdx), saliency))
      && (last.None? ==> fallback == Explain(ScoreAndProbs(out, classIdx), saliency))
  {
    var last := LayerAt(modules, LastConvIndex(modules));
    if last.Some? {
      assert Fallbacks(modules)[1..] == [Saliency];
    } else {
      assert Fallbacks(modules) == [Saliency];
    }
  }

  /** The outcome of running a plan is that of its first successful strategy,
      or that of its last one when every earlier one fails. It is a failure
      only when every strategy fails. */
  lemma {:induction false} RunPlanFirstSuccess(plan: seq<Strategy>, out: Output, classIdx: Option<int>,
                                               cam: Layer -> Option<Heat>, saliency: Option<Heat>)
    requires |plan| >= 1 && out.WellFormed()
    ensures exists k :: (0 <= k < |plan|
      && RunPlan(plan, out, classIdx, cam, saliency) == Attempt(plan[k], out, classIdx, cam, saliency)
      && (forall j :: 0 <= j < k ==> Attempt(plan[j], out, classIdx, cam, saliency).Err?)
      && (Attempt(plan[k], out, classIdx, cam, saliency).Ok? || k == |plan| - 1))
    ensures RunPlan(plan, out, classIdx, cam, saliency).Err? ==>
      forall j :: 0 <= j < |plan| ==> Attempt(plan[j], out, classIdx, cam, saliency).Err?
    decreases |plan|
  {
    var r := Attempt(plan[0], out, classIdx, cam, saliency);
    if |plan| == 1 || r.Ok? {
      assert RunPlan(plan, out, classIdx, cam, saliency) == Attempt(plan[0], out, classIdx, cam, saliency);
      if r.Err? {
        forall j | 0 <= j < |plan| ensures Attempt(plan[j], out, classIdx, cam, saliency).Err? {
          assert j == 0;
        }
      }
    } else {
      var tail := plan[1..];
      RunPlanFirstSuccess(tail, out, classIdx, cam, saliency);
      var k :| 0 <= k < |tail|
        && RunPlan(tail, out, classIdx, cam, saliency) == Attempt(tail[k], out, classIdx, cam, saliency)
        && (forall j :: 0 <= j < k ==> Attempt(tail[j], out, classIdx, cam, saliency).Err?)
        && (Attempt(tail[k], out, classIdx, cam, saliency).Ok? || k == |tail| - 1);
      assert plan[k + 1] == tail[k];
      forall j | 0 <= j < k + 1 ensures Attempt(plan[j], out, classIdx, cam, saliency).Err? {
        if j > 0 { assert plan[j] == tail[j - 1]; }
      }
      if RunPlan(plan, out, classIdx, cam, saliency).Err? {
        forall j | 0 <= j < |plan| ensures Attempt(plan[j], out, classIdx, cam, saliency).Err? {
          if j > 0 { assert plan[j] == tail[j - 1]; }
        }
      }
    }
  }

  /** A scripted model is explained by saliency alone, whatever its layers. */
  lemma ScriptedUsesSaliency(typeName: string, modules: seq<Layer>, preferred: Option<string>, out: Output,
                             classIdx: Option<int>, cam: Layer -> Option<Heat>, saliency: Option<Heat>)
    requires IsScripted(typeName) && out.WellFormed()
    ensures RunPlan(Plan(typeName, modules, preferred), out, classIdx, cam, saliency)
      == Attempt(Saliency, out, classIdx, cam, saliency)
  {
  }

  /** Which hook a handle refers to. */
  datatype HookKind = ForwardHook | BackwardHook

  datatype Hook = Hook(layer: string, kind: HookKind)

  /** The hook table after `_gradcam_core` on `layer`: a forward and a
      backward hook are registered under the next two handles, and both are
      removed again only if `removed`. */
  function HooksAfterCore(hooks: map<nat, Hook>, next: nat, layer: string, removed: bool): map<nat, Hook> {
    var registered := hooks[next := Hook(layer, ForwardHook)][next + 1 := Hook(layer, BackwardHook)];
    if removed then registered - {next, next + 1} else registered
  }

  /** With fresh handles, the hook table is back to what it was exactly when
      both hooks are removed; otherwise it holds two more hooks. */
  lemma HooksRestoredIffRemoved(hooks: map<nat, Hook>, next: nat, layer: string, removed: bool)
    requires forall h :: h in hooks ==> h < next
    ensures HooksAfterCore(hooks, next, layer, removed) == hooks <==> removed
    ensures !removed ==> |HooksAfterCore(hooks, next, layer, removed)| == |hooks| + 2
    ensures forall h :: h in HooksAfterCore(hooks, next, layer, removed) ==> h < next + 2
  {
    var after := HooksAfterCore(hooks, next, layer, removed);
    var added := {next, next + 1};
    var registered := hooks[next := Hook(layer, ForwardHook)][next + 1 := Hook(layer, BackwardHook)];
    assert registered.Keys == hooks.Keys + added;
    assert hooks.Keys !! added;
    if removed {
      assert after.Keys == hooks.Keys;
      forall h | h in hooks ensures after[h] == hooks[h] {
        assert h != next && h != next + 1;
      }
    } else {
      assert next in after && next !in hooks;
      assert |added| == 2;
      assert |after.Keys| == |hooks.Keys| + |added|;
    }
  }

  /** The hook table and the next handle after trying `plan` with
      `_gradcam_core` as written: each Grad-CAM strategy tried registers two
      hooks under the next two handles and removes them only when it
      succeeds; saliency registers none. Strategies are tried until the first
      success, as in `RunPlan`. */
  function HooksAfterRun(plan: seq<Strategy>, out: Output, classIdx: Option<int>,
                         cam: Layer -> Option<Heat>, saliency: Option<Heat>,
                         hooks: map<nat, Hook>, next: nat): (map<nat, Hook>, nat)
    requires |plan| >= 1 && out.WellFormed()
    decreases |plan|
  {
    var r := Attempt(plan[0], out, classIdx, cam, saliency);
    var after := if plan[0].GradCamOn? then HooksAfterCore(hooks, next, plan[0].layer.name, r.Ok?) else hooks;
    var next' := if plan[0].GradCamOn? then next + 2 else next;
    if |plan| == 1 || r.Ok? then (after, next')
    else HooksAfterRun(plan[1..], out, classIdx, cam, saliency, after, next')
  }

  /** How many Grad-CAM strategies are tried and fail before the run stops. */
  function FailedCams(plan: seq<Strategy>, out: Output, classIdx: Option<int>,
                      cam: Layer -> Option<Heat>, saliency: Option<Heat>): nat
    requires |plan| >= 1 && out.WellFormed()
    decreases |plan|
  {
    var r := Attempt(plan[0], out, classIdx, cam, saliency);
    var failed := if plan[0].GradCamOn? && r.Err? then 1 else 0;
    if |plan| == 1 || r.Ok? then failed
    else failed + FailedCams(plan[1..], out, classIdx, cam, saliency)
  }

  /** Each failed Grad-CAM strategy of a run leaves its two hooks behind:
      the table grows by two per failure, and is unchanged exactly when no
      Grad-CAM strategy fails. */
  lemma {:induction false} HooksLeakPerFailure(plan: seq<Strategy>, out: Output, classIdx: Option<int>,
                                               cam: Layer -> Option<Heat>, saliency: Option<Heat>,
                                               hooks: map<nat, Hook>, next: nat)
    requires |plan| >= 1 && out.WellFormed()
    requires forall h :: h in hooks ==> h < next
    ensures var after := HooksAfterRun(plan, out, classIdx, cam, saliency, hooks, next);
      && (forall h :: h in after.0 ==> h < after.1)
      && |after.0| == |hooks| + 2 * FailedCams(plan, out, classIdx, cam, saliency)
      && (after.0 == hooks <==> FailedCams(plan, out, classIdx, cam, saliency) == 0)
    decreases |plan|
  {
    var r := Attempt(plan[0], out, classIdx, cam, saliency);
    var step := if plan[0].GradCamOn? then HooksAfterCore(hooks, next, plan[0].layer.name, r.Ok?) else hooks;
    var next' := if plan[0].GradCamOn? then next + 2 else next;
    if plan[0].GradCamOn? {
      HooksRestoredIffRemoved(hooks, next, plan[0].layer.name, r.Ok?);
    }
    if |plan| > 1 && r.Err? {
      HooksLeakPerFailure(plan[1..], out, classIdx, cam, saliency, step, next');
    }
  }

  /** The leak shows on a request that succeeds: with no preferred layer,
      a Grad-CAM failure on the last `Conv2d` falls back to saliency, which
      answers, and the two hooks of the failed attempt stay registered. */
  lemma FailedLastConvLeaksTwoHooks(typeName: string, modules: seq<Layer>, out: Output, classIdx: Option<int>,
                                    cam: Layer -> Option<Heat>, saliency: Option<Heat>,
                                    hooks: map<nat, Hook>, next: nat)
    requires !IsScripted(typeName) && out.WellFormed() && ScoreAndProbs(out, classIdx).Ok?
    requires LastConvIndex(modules).Some? && cam(modules[LastConvIndex(modules).value]).None?
    requires saliency.Some?
    requires forall h :: h in hooks ==> h < next
    ensures var plan := Plan(typeName, modules, None);
      && RunPlan(plan, out, classIdx, cam, saliency).Ok?
      && |HooksAfterRun(plan, out, classIdx, cam, saliency, hooks, next).0| == |hooks| + 2
  {
    var plan := Plan(typeName, modules, None);
    assert plan == [GradCamOn(modules[LastConvIndex(modules).value]), Saliency];
    assert plan[1..] == [Saliency];
    HooksLeakPerFailure(plan, out, classIdx, cam, saliency, hooks, next);
  }

  /** The hooks of the fallbacks: two registered for the last `Conv2d`, and
      removed again only if it succeeds; saliency adds none. */
  lemma FallbackHooks(modules: seq<Layer>, out: Output, classIdx: Option<int>,
                      cam: Layer -> Option<Heat>, saliency: Option<Heat>,
                      hooks: map<nat, Hook>, next: nat)
    requires out.WellFormed()
    ensures var last := LayerAt(modules, LastConvIndex(modules));
      var run := HooksAfterRun(Fallbacks(modules), out, classIdx, cam, saliency, hooks, next);
      && (last.Some? ==>
            var ok := Explain(ScoreAndProbs(out, classIdx), cam(last.value)).Ok?;
            run == (HooksAfterCore(hooks, next, last.value.name, ok), next + 2))
      && (last.None? ==> run == (hooks, next))
  {
    var last := LayerAt(modules, LastConvIndex(modules));
    if last.Some? {
      assert Fallbacks(modules)[1..] == [Saliency];
    } else {
      assert Fallbacks(modules) == [Saliency];
    }
  }

  /** A model: its type name, its submodules in traversal order, and the
      hooks currently registered on it. */
  class Network {
    const typeName: string
    const modules: seq<Layer>
    var hooks: map<nat, Hook>
    var nextHandle: nat

    /** Every registered hook has a handle below the next one. */
    ghost predicate Valid()
      reads this
    {
      forall h :: h in hooks ==> h < nextHandle
    }

    constructor (typeName: string, modules: seq<Layer>)
      ensures Valid()
      ensures this.typeName == typeName && this.modules == modules
      ensures hooks == map[] && nextHandle == 0
    {
      this.typeName := typeName;
      this.modules := modules;
      hooks := map[];
      nextHandle := 0;
    }

    /** `layer.register_forward_hook(…)` / `register_backward_hook(…)`:
        returns a fresh handle. */
    method RegisterHook(layer: string, kind: HookKind) returns (handle: nat)
      requires Valid()
      modifies this
      ensures Valid()
      ensures handle == old(nextHandle) && handle !in old(hooks)
      ensures hooks == old(hooks)[handle := Hook(layer, kind)] && nextHandle == handle + 1
    {
      handle := nextHandle;
      hooks := hooks[handle := Hook(layer, kind)];
      nextHandle := nextHandle + 1;
    }

    /** `handle.remove()`. */
    method RemoveHook(handle: nat)
      requires Valid()
      modifies this
      ensures Valid()
      ensures hooks == old(hooks) - {handle} && nextHandle == old(nextHandle)
    {
      hooks := hooks - {handle};
    }

    /** `_gradcam_core` as written: both hooks are registered, and removed
        only on normal return; a failure between registration and removal
        leaves them registered. */
    method GradcamCoreAsWritten(layer: Layer, out: Output, classIdx: Option<int>, cam: Layer -> Option<Heat>)
      returns (r: Result<Explanation, string>)
      requires Valid() && out.WellFormed()
      modifies this
      ensures Valid() && nextHandle == old(nextHandle) + 2
      ensures r == Explain(ScoreAndProbs(out, classIdx), cam(layer))
      ensures hooks == HooksAfterCore(old(hooks), old(nextHandle), layer.name, r.Ok?)
    {
      var h1 := RegisterHook(layer.name, ForwardHook);
      var h2 := RegisterHook(layer.name, BackwardHook);
      r := Explain(ScoreAndProbs(out, classIdx), cam(layer));
      if r.Err? {
        return;
      }
      RemoveHook(h1);
      RemoveHook(h2);
    }

    /** `_gradcam_core` with the removal in a `finally`: the hook table is
        restored whether Grad-CAM succeeds or fails. */
    method GradcamCore(layer: Layer, out: Output, classIdx: Option<int>, cam: Layer -> Option<Heat>)
      returns (r: Result<Explanation, string>)
      requires Valid() && out.WellFormed()
      modifies this
      ensures Valid() && nextHandle == old(nextHandle) + 2
      ensures r == Explain(ScoreAndProbs(out, classIdx), cam(layer))
      ensures hooks == HooksAfterCore(old(hooks), old(nextHandle), layer.name, true)
      ensures hooks == old(hooks)
    {
      ghost var before := hooks;
      var h1 := RegisterHook(layer.name, ForwardHook);
      var h2 := RegisterHook(layer.name, BackwardHook);
      r := Explain(ScoreAndProbs(out, classIdx), cam(layer));
      RemoveHook(h1);
      RemoveHook(h2);
      HooksRestoredIffRemoved(before, h1, layer.name, true);
    }

    /** `explain_image(model, tensor, device, preferred_layer_name,
        class_idx)` as written: the strategies of `Plan`, each tried in turn
        with `_gradcam_core` as written, so every failed Grad-CAM attempt
        leaves its two hooks registered. */
    method ExplainImage(out: Output, classIdx: Option<int>, preferred: Option<string>,
                        cam: Layer -> Option<Heat>, saliency: Option<Heat>)
      returns (r: Result<Explanation, string>)
      requires Valid() && out.WellFormed()
      modifies this
      ensures Valid()
      ensures r == RunPlan(Plan(typeName, modules, preferred), out, classIdx, cam, saliency)
      ensures (hooks, nextHandle) ==
        HooksAfterRun(Plan(typeName, modules, preferred), out, classIdx, cam, saliency, old(hooks), old(nextHandle))
    {
      if IsScripted(typeName) {
        return Explain(ScoreAndProbs(out, classIdx), saliency);
      }
      var pref := PreferredLayer(modules, preferred);
      PlanUnscripted(typeName, modules, preferred);
      if pref.Some? {
        r := ExplainFrom(pref.value, out, classIdx, cam, saliency);
      } else {
        r := ExplainFallbacks(out, classIdx, cam, saliency);
      }
    }

    /** `explain_image` once the preferred layer has resolved, as written:
        Grad-CAM on it, and the fallbacks if that fails. */
    method ExplainFrom(layer: Layer, out: Output, classIdx: Option<int>,
                       cam: Layer -> Option<Heat>, saliency: Option<Heat>)
      returns (r: Result<Explanation, string>)
      requires Valid() && out.WellFormed()
      modifies this
      ensures Valid()
      ensures r == RunPlan([GradCamOn(layer)] + Fallbacks(modules), out, classIdx, cam, saliency)
      ensures (hooks, nextHandle) ==
        HooksAfterRun([GradCamOn(layer)] + Fallbacks(modules), out, classIdx, cam, saliency, old(hooks), old(nextHandle))
    {
      ghost var plan := [GradCamOn(layer)] + Fallbacks(modules);
      assert plan[0] == GradCamOn(layer) && plan[1..] == Fallbacks(modules);
      r := GradcamCoreAsWritten(layer, out, classIdx, cam);
      if r.Ok? {
        return;
      }
      r := ExplainFallbacks(out, classIdx, cam, saliency);
    }

    /** The part of `explain_image` after the preferred layer, as written:
        Grad-CAM on the last `Conv2d` when there is one, then saliency. */
    method ExplainFallbacks(out: Output, classIdx: Option<int>, cam: Layer -> Option<Heat>, saliency: Option<Heat>)
      returns (r: Result<Explanation, string>)
      requires Valid() && out.WellFormed()
      modifies this
      ensures Valid()
      ensures r == RunPlan(Fallbacks(modules), out, classIdx, cam, saliency)
      ensures (hooks, nextHandle) ==
        HooksAfterRun(Fallbacks(modules), out, classIdx, cam, saliency, old(hooks), old(nextHandle))
    {
      FallbackSteps(modules, out, classIdx, cam, saliency);
      FallbackHooks(modules, out, classIdx, cam, saliency, hooks, nextHandle);
      var last := FindLastConv(modules);
      if last.Some? {
        r := GradcamCoreAsWritten(last.value, out, classIdx, cam);
        if r.Ok? {
          return;
        }
      }
      r := Explain(ScoreAndProbs(out, classIdx), saliency);
    }

    /** `explain_image` over the corrected `_gradcam_core`: the same result,
        and the hook table is left as it was. */
    method ExplainImageCorrected(out: Output, classIdx: Option<int>, preferred: Option<string>,
                                 cam: Layer -> Option<Heat>, saliency: Option<Heat>)
      returns (r: Result<Explanation, string>)
      requires Valid() && out.WellFormed()
      modifies this
      ensures Valid() && hooks == old(hooks)
      ensures r == RunPlan(Plan(typeName, modules, preferred), out, classIdx, cam, saliency)
    {
      var scored := ScoreAndProbs(out, classIdx);
      if IsScripted(typeName) {
        return Explain(scored, saliency);
      }
      PreferredStep(typeName, modules, preferred, out, classIdx, cam, saliency);
      var pref := PreferredLayer(modules, preferred);
      if pref.Some? {
        r := GradcamCore(pref.value, out, classIdx, cam);
        if r.Ok? {
          return;
        }
      }
      FallbackSteps(modules, out, classIdx, cam, saliency);
      var last := FindLastConv(modules);
      if last.Some? {
        r := GradcamCore(last.value, out, classIdx, cam);
        if r.Ok? {
          return;
        }
      }
      r := Explain(scored, saliency);
    }
  }
}
