/**
 * Version-gated transformation: a transformer turns a model into data by
 * extracting base data and then folding its declared steps over it, in
 * declaration order. A step runs when the requested (target) version is
 * earlier than or equal to the version the step declares.
 */
module Transformers {
  import opened Wrappers
  import opened Json
  import ApiVersion

  type Version = ApiVersion.Version

  /**
   * TransformationStep: maps the data transformed so far and the source model
   * to new data, and declares the one version it targets. The caller passes
   * the target version as a third argument, so the step may use it.
   */
  datatype Step<!M> = Step(apiVersion: Version, transform: (Data, M, Version) -> Data)

  /** A concrete transformer: its getBaseData and its steps(), in declaration order. */
  datatype Transformer<!M> = Transformer(baseData: (M, Version) -> Data, steps: seq<Step<M>>)

  /** shouldRunStep: the target is earlier than or equal to the step's version. */
  predicate ShouldRunStep<M>(step: Step<M>, target: Version) {
    ApiVersion.EarlierThanOrEqualTo(target, step.apiVersion)
  }

  /** The data after visiting the steps in order, running each one that should run. */
  function RunSteps<M>(steps: seq<Step<M>>, data: Data, model: M, target: Version): Data
    decreases |steps|
  {
    if steps == [] then data
    else
      var before := RunSteps(steps[..|steps| - 1], data, model, target);
      var last := steps[|steps| - 1];
      if ShouldRunStep(last, target) then last.transform(before, model, target) else before
  }

  /** Reference definition: the steps that run for `target`, in declaration order. */
  function IncludedSteps<M>(steps: seq<Step<M>>, target: Version): (r: seq<Step<M>>)
    ensures |r| <= |steps|
    ensures forall i :: 0 <= i < |r| ==> ShouldRunStep(r[i], target) && r[i] in steps
    ensures forall i :: 0 <= i < |steps| && ShouldRunStep(steps[i], target) ==> steps[i] in r
    decreases |steps|
  {
    if steps == [] then []
    else
      var init := steps[..|steps| - 1];
      var before := IncludedSteps(init, target);
      var last := steps[|steps| - 1];
      assert forall i :: 0 <= i < |init| ==> init[i] == steps[i];
      if ShouldRunStep(last, target) then before + [last] else before
  }

  /** The included steps keep declaration order: including from two lists in turn is including from their concatenation. */
  lemma {:induction false} IncludedStepsOfConcat<M>(xs: seq<Step<M>>, ys: seq<Step<M>>, target: Version)
    ensures IncludedSteps(xs + ys, target) == IncludedSteps(xs, target) + IncludedSteps(ys, target)
    decreases |ys|
  {
    if ys == [] {
      assert xs + ys == xs;
    } else {
      var init := ys[..|ys| - 1];
      assert (xs + ys)[..|xs + ys| - 1] == xs + init;
      assert (xs + ys)[|xs + ys| - 1] == ys[|ys| - 1];
      IncludedStepsOfConcat(xs, init, target);
    }
  }

  /** Reference definition: apply every step of the list, in order, unconditionally. */
  function ApplyAll<M>(steps: seq<Step<M>>, data: Data, model: M, target: Version): Data
    decreases |steps|
  {
    if steps == [] then data
    else steps[|steps| - 1].transform(ApplyAll(steps[..|steps| - 1], data, model, target), model, target)
  }

  /** transform(): base data, then the gated fold over steps(). */
  function Transformed<M>(t: Transformer<M>, model: M, target: Version): Data {
    RunSteps(t.steps, t.baseData(model, target), model, target)
  }

  /** Skipping the steps that should not run is the same as applying only the included ones. */
  lemma {:induction false} RunStepsAppliesIncludedSteps<M>(steps: seq<Step<M>>, data: Data, model: M, target: Version)
    ensures RunSteps(steps, data, model, target) == ApplyAll(IncludedSteps(steps, target), data, model, target)
    decreases |steps|
  {
    if steps != [] {
      var init := steps[..|steps| - 1];
      var last := steps[|steps| - 1];
      RunStepsAppliesIncludedSteps(init, data, model, target);
      if ShouldRunStep(last, target) {
        var inc := IncludedSteps(init, target);
        assert (inc + [last])[..|inc + [last]| - 1] == inc;
      }
    }
  }

  /**
   * Declaration order: the first step sees the base data, and every later step
   * sees what the steps before it produced (a skipped step passes data through).
   */
  lemma {:induction false} FirstStepFeedsTheRest<M>(step: Step<M>, rest: seq<Step<M>>, data: Data, model: M, target: Version)
    ensures RunSteps([step] + rest, data, model, target)
         == RunSteps(rest, if ShouldRunStep(step, target) then step.transform(data, model, target) else data, model, target)
    decreases |rest|
  {
    if rest != [] {
      var all := [step] + rest;
      assert all[..|all| - 1] == [step] + rest[..|rest| - 1];
      assert all[|all| - 1] == rest[|rest| - 1];
      FirstStepFeedsTheRest(step, rest[..|rest| - 1], data, model, target);
    } else {
      assert ([step] + rest)[..0] == [];
    }
  }

  /** A step that should not run leaves the data unchanged. */
  lemma SkippedStepLeavesDataUnchanged<M>(steps: seq<Step<M>>, step: Step<M>, data: Data, model: M, target: Version)
    requires !ShouldRunStep(step, target)
    ensures RunSteps(steps + [step], data, model, target) == RunSteps(steps, data, model, target)
  {
    assert (steps + [step])[..|steps|] == steps;
  }

  /** With no steps the result is the base data. */
  lemma NoStepsGivesBaseData<M>(t: Transformer<M>, model: M, target: Version)
    requires t.steps == []
    ensures Transformed(t, model, target) == t.baseData(model, target)
  {
  }

  /** Older targets run a superset of the steps: whatever runs for t2 also runs for any t1 <= t2. */
  lemma OlderTargetsRunMoreSteps<M>(steps: seq<Step<M>>, t1: Version, t2: Version)
    requires ApiVersion.EarlierThanOrEqualTo(t1, t2)
    ensures forall i :: 0 <= i < |steps| && ShouldRunStep(steps[i], t2) ==> ShouldRunStep(steps[i], t1)
  {
  }

  /**
   * The example of the step interface: a step targeting 02-01-2020 is not run
   * for the newer request 03-01-2020, and a step is run for its own version.
   */
  lemma GatingBoundary<M>(f: (Data, M, Version) -> Data, v: Version)
    ensures !ShouldRunStep(Step(ApiVersion.Date(2, 1, 2020), f), ApiVersion.Date(3, 1, 2020))
    ensures ShouldRunStep(Step(v, f), v)
  {
    ApiVersion.ComparisonSamples();
  }

  // ---------------------------------------------------------------------
  // The operations of the abstract transformer

  /** The private transform(): base data, then each step whose gate opens. */
  method Transform<M>(t: Transformer<M>, model: M, target: Version) returns (data: Data)
    ensures data == Transformed(t, model, target)
  {
    var base := t.baseData(model, target);
    data := base;
    var steps := t.steps;
    for i := 0 to |steps|
      invariant data == RunSteps(steps[..i], base, model, target)
    {
      var step := steps[i];
      assert steps[..i + 1][..i] == steps[..i];
      if ShouldRunStep(step, target) {
        data := step.transform(data, model, target);
      }
    }
    assert steps[..|steps|] == steps;
  }

  /** transformModel: null in, null out (no base data is computed); otherwise transform. */
  method TransformModel<M>(t: Transformer<M>, model: Option<M>, target: Version) returns (r: Option<Data>)
    ensures r.None? <==> model.None?
    ensures model.Some? ==> r == Some(Transformed(t, model.value, target))
  {
    if model.None? {
      return None;
    }
    var data := Transform(t, model.value, target);
    r := Some(data);
  }

  /** The transformed collection as a value: one entry per model, in order. */
  function TransformedAll<M>(t: Transformer<M>, models: seq<M>, target: Version): (r: seq<Data>)
    ensures |r| == |models|
  {
    seq(|models|, i requires 0 <= i < |models| => Transformed(t, models[i], target))
  }

  /** transformCollection: transform every model, keeping order and count (nothing is filtered out). */
  method TransformCollection<M>(t: Transformer<M>, models: seq<M>, target: Version) returns (r: seq<Data>)
    ensures |r| == |models|
    ensures forall i :: 0 <= i < |models| ==> r[i] == Transformed(t, models[i], target)
    ensures r == TransformedAll(t, models, target)
  {
    if |models| == 0 {
      return [];
    }
    r := [];
    for i := 0 to |models|
      invariant |r| == i
      invariant forall k :: 0 <= k < i ==> r[k] == Transformed(t, models[k], target)
    {
      var data := Transform(t, models[i], target);
      r := r + [data];
    }
  }

  // ---------------------------------------------------------------------
  // The test suite's example: StepA targets 02-01-2020, StepB 01-01-2020,
  // declared in that order, over a model whose base data is itself.

  function StepA(): Step<Data> {
    Step(ApiVersion.Date(2, 1, 2020), (data: Data, model: Data, target: Version) => data["step_a" := Bool(true)])
  }

  function StepB(): Step<Data> {
    Step(ApiVersion.Date(1, 1, 2020), (data: Data, model: Data, target: Version) => data["step_b" := Bool(true)])
  }

  function SampleTransformer(): Transformer<Data> {
    Transformer((model: Data, target: Version) => model, [StepA(), StepB()])
  }

  /** Target 02-01-2020 runs StepA only; target 01-01-2020 runs both, StepB seeing StepA's output. */
  lemma StepsRunWhenExpected()
    ensures Transformed(SampleTransformer(), map["foo" := Str("bar")], ApiVersion.Date(2, 1, 2020))
         == map["foo" := Str("bar"), "step_a" := Bool(true)]
    ensures Transformed(SampleTransformer(), map["foo" := Str("bar")], ApiVersion.Date(1, 1, 2020))
         == map["foo" := Str("bar"), "step_a" := Bool(true), "step_b" := Bool(true)]
  {
    ApiVersion.ComparisonSamples();
    var base: Data := map["foo" := Str("bar")];
    var steps := [StepA(), StepB()];
    assert steps[..1] == [StepA()] && [StepA()][..0] == [];
    var afterA := RunSteps([StepA()], base, base, ApiVersion.Date(2, 1, 2020));
    assert afterA == base["step_a" := Bool(true)];
    assert RunSteps(steps, base, base, ApiVersion.Date(2, 1, 2020)) == afterA;
    var afterA' := RunSteps([StepA()], base, base, ApiVersion.Date(1, 1, 2020));
    assert afterA' == base["step_a" := Bool(true)];
    assert RunSteps(steps, base, base, ApiVersion.Date(1, 1, 2020)) == afterA'["step_b" := Bool(true)];
  }
}
