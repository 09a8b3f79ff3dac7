/**
 The orchestrator of the air-quality ETL run: Extract, Transform, write the
 transformed CSV, Load, Analysis, executed once each in that order, with two
 abort gates and a guard around the analysis stage.

 The collaborators (fetching the cities, transforming the raw files, writing
 the CSV, loading into the remote store, running the analysis) are not part of
 this model. Each is given as an abstract outcome in an `Env`: what the call
 would do if the orchestrator made it.
 */
module Pipeline {

  datatype Option<T> = None | Some(value: T)

  /** What `r.get("success")` yields on one per-city extraction result. */
  datatype SuccessField =
    | Absent            // the key is missing, so `get` gives None
    | Text(s: string)   // a string value
    | NonText           // a non-string built-in value (a bool, a number, ...): never equal to a string

  /** One per-city extraction result; only its "success" entry is read. */
  datatype ExtractionResult = ExtractionResult(success: SuccessField)

  /** A Python exception. `except Exception` catches only `Error`; an
      `Interrupt` (KeyboardInterrupt, SystemExit, ...) derives from
      BaseException alone and passes through it. */
  datatype Thrown = Error(name: string) | Interrupt(name: string)
  {
    predicate IsException() { Error? }
  }

  /** The outcome of calling a collaborator: it returns a value or raises. */
  datatype Call<T> = Returns(value: T) | Raises(thrown: Thrown)

  /** The shape of the transformed DataFrame. pandas calls a frame empty
      when either of its axes has length zero. */
  datatype Frame = Frame(rows: nat, columns: nat)
  {
    predicate IsEmpty() { rows == 0 || columns == 0 }
  }

  /** What each collaborator does when it is called. The return values of
      the CSV write, of Load and of Analysis are discarded by the
      orchestrator, so only "returns" or "raises" is kept of them. */
  datatype Env = Env(
    extract: Call<seq<ExtractionResult>>,
    transform: Call<Frame>,
    writeCsv: Call<()>,
    load: Call<()>,
    analysis: Call<()>)

  datatype Stage = Extract | Transform | WriteCsv | Load | Analysis

  /** How a run ends: one of the two early returns, normal completion, or an
      exception that leaves the orchestrator, with the stage that raised it. */
  datatype Outcome =
    | AbortedNoData
    | AbortedEmptyTransform
    | Completed
    | Propagated(stage: Stage, thrown: Thrown)

  /** The stages that were executed, in order, and how the run ended. */
  datatype Execution = Execution(trace: seq<Stage>, outcome: Outcome)

  /** What happens right after one stage has been executed. */
  datatype Verdict = Continue | Stop(outcome: Outcome)

  /** The fixed order of the stages. */
  const Order: seq<Stage> := [Extract, Transform, WriteCsv, Load, Analysis]

  // ---------------------------------------------------------------------------
  // The extraction gate
  // ---------------------------------------------------------------------------

  /** One result counts as a success only when its "success" value is exactly
      the lower-case string "true". */
  predicate IsSuccess(r: ExtractionResult) {
    r.success == Text("true")
  }

  /** Python's `any` over the results, scanned left to right. */
  predicate AnySucceeded(results: seq<ExtractionResult>) {
    results != [] && (IsSuccess(results[0]) || AnySucceeded(results[1..]))
  }

  /** The extraction gate as a plain existence statement. */
  ghost predicate SomeSucceeded(results: seq<ExtractionResult>) {
    exists i :: 0 <= i < |results| && IsSuccess(results[i])
  }

  /** The gate passes exactly when some result is a success; in particular an
      empty result list, or one whose values are all missing, "True",
      "false" or non-strings, fails it. */
  lemma {:induction false} AnySucceededIff(results: seq<ExtractionResult>)
    ensures AnySucceeded(results) <==> SomeSucceeded(results)
  {
    if results != [] {
      AnySucceededIff(results[1..]);
      if !IsSuccess(results[0]) && SomeSucceeded(results) {
        var i :| 0 <= i < |results| && IsSuccess(results[i]);
        assert results[1..][i - 1] == results[i];
      }
    }
  }

  // ---------------------------------------------------------------------------
  // The stage semantics
  // ---------------------------------------------------------------------------

  /** The exception a stage's call raises, if it raises one. */
  function RaisedBy(env: Env, s: Stage): Option<Thrown>
  {
    match s
    case Extract => if env.extract.Raises? then Some(env.extract.thrown) else None
    case Transform => if env.transform.Raises? then Some(env.transform.thrown) else None
    case WriteCsv => if env.writeCsv.Raises? then Some(env.writeCsv.thrown) else None
    case Load => if env.load.Raises? then Some(env.load.thrown) else None
    case Analysis => if env.analysis.Raises? then Some(env.analysis.thrown) else None
  }

  /** Whether the run goes on after stage `s` has been executed: the two gates
      after Extract and Transform, no guard around the CSV write and Load, and
      the `except Exception` around Analysis. */
  function StageVerdict(env: Env, s: Stage): (v: Verdict)
    ensures v != Stop(Completed)
    ensures v.Stop? && v.outcome.Propagated? ==> v.outcome.stage == s && RaisedBy(env, s) == Some(v.outcome.thrown)
    ensures RaisedBy(env, s).Some? && s != Analysis ==> v == Stop(Propagated(s, RaisedBy(env, s).value))
  {
    match s
    case Extract =>
      if env.extract.Raises? then Stop(Propagated(Extract, env.extract.thrown))
      else if AnySucceeded(env.extract.value) then Continue
      else Stop(AbortedNoData)
    case Transform =>
      if env.transform.Raises? then Stop(Propagated(Transform, env.transform.thrown))
      else if env.transform.value.IsEmpty() then Stop(AbortedEmptyTransform)
      else Continue
    case WriteCsv =>
      if env.writeCsv.Raises? then Stop(Propagated(WriteCsv, env.writeCsv.thrown)) else Continue
    case Load =>
      if env.load.Raises? then Stop(Propagated(Load, env.load.thrown)) else Continue
    case Analysis =>
      if env.analysis.Raises? && !env.analysis.thrown.IsException()
      then Stop(Propagated(Analysis, env.analysis.thrown))
      else Continue
  }

  /** Executes `stages` in order, each once, and stops at the first stage whose
      verdict is `Stop`; a run where every stage continues is `Completed`. */
  function ExecuteFrom(env: Env, stages: seq<Stage>): (r: Execution)
  {
    if stages == [] then Execution([], Completed)
    else
      match StageVerdict(env, stages[0])
      case Stop(o) => Execution([stages[0]], o)
      case Continue =>
        var rest := ExecuteFrom(env, stages[1..]);
        Execution([stages[0]] + rest.trace, rest.outcome)
  }

  /** First-stop semantics: the trace is a prefix of `stages`, non-empty when
      `stages` is; every executed stage but the last let the run go on; the run
      completes exactly when every stage lets it go on, and then every stage is
      executed; otherwise the last executed stage decides the outcome. */
  lemma {:induction false} ExecuteFromFirstStop(env: Env, stages: seq<Stage>)
    ensures var r := ExecuteFrom(env, stages);
      && |r.trace| <= |stages| && r.trace == stages[..|r.trace|]
      && (stages != [] ==> r.trace != [])
      && (forall j :: 0 <= j < |r.trace| - 1 ==> StageVerdict(env, r.trace[j]) == Continue)
      && (r.outcome == Completed <==> forall j :: 0 <= j < |stages| ==> StageVerdict(env, stages[j]) == Continue)
      && (r.outcome == Completed ==> r.trace == stages)
      && (r.outcome != Completed ==> r.trace != [] && StageVerdict(env, r.trace[|r.trace| - 1]) == Stop(r.outcome))
  {
    if stages != [] && StageVerdict(env, stages[0]) == Continue {
      var rest := ExecuteFrom(env, stages[1..]);
      ExecuteFromFirstStop(env, stages[1..]);
      var r := ExecuteFrom(env, stages);
      assert r.trace == [stages[0]] + rest.trace;
      forall j | 0 <= j < |r.trace| - 1
        ensures StageVerdict(env, r.trace[j]) == Continue
      {
        if j > 0 { assert r.trace[j] == rest.trace[j - 1]; }
      }
      if forall j :: 0 <= j < |stages[1..]| ==> StageVerdict(env, stages[1..][j]) == Continue {
        forall j | 0 <= j < |stages| ensures StageVerdict(env, stages[j]) == Continue {
          if j > 0 { assert stages[j] == stages[1..][j - 1]; }
        }
      } else {
        var j :| 0 <= j < |stages[1..]| && StageVerdict(env, stages[1..][j]) != Continue;
        assert stages[j + 1] == stages[1..][j];
      }
    }
  }

  /** The specification of one run of the orchestrator. */
  function Execute(env: Env): (r: Execution) {
    ExecuteFrom(env, Order)
  }

  /** Unfolding helper for `ExecuteUnrolled`: one step of `ExecuteFrom` on a
      non-empty stage list, stated so that the caller can name the slices of
      `Order` it unfolds. It is not a property of the run. */
  lemma ExecuteHead(env: Env, stages: seq<Stage>)
    requires stages != []
    ensures var v, rest := StageVerdict(env, stages[0]), ExecuteFrom(env, stages[1..]);
      ExecuteFrom(env, stages) ==
        if v.Stop? then Execution([stages[0]], v.outcome)
        else Execution([stages[0]] + rest.trace, rest.outcome)
  {
  }

  /** `Execute` unfolded along the five stages. */
  lemma ExecuteUnrolled(env: Env)
    ensures var v0, v1, v2, v3, v4 := StageVerdict(env, Extract), StageVerdict(env, Transform),
                                      StageVerdict(env, WriteCsv), StageVerdict(env, Load), StageVerdict(env, Analysis);
      Execute(env) ==
        if v0.Stop? then Execution([Extract], v0.outcome)
        else if v1.Stop? then Execution([Extract, Transform], v1.outcome)
        else if v2.Stop? then Execution([Extract, Transform, WriteCsv], v2.outcome)
        else if v3.Stop? then Execution([Extract, Transform, WriteCsv, Load], v3.outcome)
        else if v4.Stop? then Execution(Order, v4.outcome)
        else Execution(Order, Completed)
  {
    ExecuteHead(env, Order);
    ExecuteHead(env, Order[1..]);
    ExecuteHead(env, Order[2..]);
    ExecuteHead(env, Order[3..]);
    ExecuteHead(env, Order[4..]);
    assert Order[1..][1..] == Order[2..] && Order[2..][1..] == Order[3..];
    assert Order[3..][1..] == Order[4..] && Order[4..][1..] == [];
  }

  // ---------------------------------------------------------------------------
  // The orchestrator
  // ---------------------------------------------------------------------------

  /** `run_pipeline`: runs the stages one after another, appending each to the
      trace as it starts, and returns early at the two gates. */
  method RunPipeline(env: Env) returns (trace: seq<Stage>, outcome: Outcome)
    ensures Execution(trace, outcome) == Execute(env)
  {
    ExecuteUnrolled(env);
    trace := [Extract];
    if env.extract.Raises? {
      outcome := Propagated(Extract, env.extract.thrown);
      return;
    }
    var success := AnySucceeded(env.extract.value);
    if !success {
      outcome := AbortedNoData;
      return;
    }

    trace := trace + [Transform];
    if env.transform.Raises? {
      outcome := Propagated(Transform, env.transform.thrown);
      return;
    }
    var df := env.transform.value;
    if df.IsEmpty() {
      outcome := AbortedEmptyTransform;
      return;
    }

    trace := trace + [WriteCsv];
    if env.writeCsv.Raises? {
      outcome := Propagated(WriteCsv, env.writeCsv.thrown);
      return;
    }

    trace := trace + [Load];
    if env.load.Raises? {
      outcome := Propagated(Load, env.load.thrown);
      return;
    }

    trace := trace + [Analysis];
    if env.analysis.Raises? && !env.analysis.thrown.IsException() {
      outcome := Propagated(Analysis, env.analysis.thrown);
      return;
    }
    // An Exception raised by the analysis is caught and only reported.
    outcome := Completed;
  }

  // ---------------------------------------------------------------------------
  // Properties of a run
  // ---------------------------------------------------------------------------

  /** Two environments whose collaborators lead to the same verdict at every
      stage give the same execution. */
  lemma {:induction false} SameVerdictsSameExecution(env1: Env, env2: Env, stages: seq<Stage>)
    requires forall s: Stage :: StageVerdict(env1, s) == StageVerdict(env2, s)
    ensures ExecuteFrom(env1, stages) == ExecuteFrom(env2, stages)
  {
    if stages != [] {
      SameVerdictsSameExecution(env1, env2, stages[1..]);
    }
  }

  /** The stages run in the fixed order, each at most once, and at least
      Extract runs: the trace is a non-empty prefix of `Order`. */
  lemma TraceFollowsOrder(env: Env)
    ensures var t := Execute(env).trace;
      && 1 <= |t| <= |Order|
      && t == Order[..|t|]
      && (forall i, j :: 0 <= i < j < |t| ==> t[i] != t[j])
  {
    ExecuteFromFirstStop(env, Order);
  }

  /** A stage runs exactly when every stage before it let the run go on. */
  lemma StageRunsIff(env: Env, k: nat)
    requires k < |Order|
    ensures Order[k] in Execute(env).trace <==> forall j :: 0 <= j < k ==> StageVerdict(env, Order[j]) == Continue
  {
    var t := Execute(env).trace;
    ExecuteFromFirstStop(env, Order);
    TraceFollowsOrder(env);
    assert Order[k] in t <==> k < |t| by {
      if Order[k] in t {
        var i :| 0 <= i < |t| && t[i] == Order[k];
        assert Order[i] == Order[k];
      }
      if k < |t| { assert t[k] == Order[k]; }
    }
    if k < |t| {
      forall j | 0 <= j < k ensures StageVerdict(env, Order[j]) == Continue {
        assert t[j] == Order[j];
      }
    }
  }

  /** The run ends with "no data" exactly when Extract returns and no result
      succeeded, including the empty result list; then nothing after Extract
      runs. */
  lemma NoDataAbortIff(env: Env)
    ensures Execute(env).outcome == AbortedNoData <==>
              env.extract.Returns? && !SomeSucceeded(env.extract.value)
    ensures Execute(env).outcome == AbortedNoData ==> Execute(env).trace == [Extract]
  {
    ExecuteUnrolled(env);
    if env.extract.Returns? {
      AnySucceededIff(env.extract.value);
    }
  }

  /** The run ends with "empty transform" exactly when the extraction gate
      passes and the transformed frame is empty; then no CSV is written and
      neither Load nor Analysis runs. */
  lemma EmptyTransformAbortIff(env: Env)
    ensures Execute(env).outcome == AbortedEmptyTransform <==>
              && env.extract.Returns? && SomeSucceeded(env.extract.value)
              && env.transform.Returns? && env.transform.value.IsEmpty()
    ensures Execute(env).outcome == AbortedEmptyTransform ==> Execute(env).trace == [Extract, Transform]
  {
    ExecuteUnrolled(env);
    if env.extract.Returns? {
      AnySucceededIff(env.extract.value);
    }
  }

  /** The CSV is written only for a non-empty frame that passed both gates,
      and always before Load. */
  lemma CsvWrittenBeforeLoad(env: Env)
    ensures var t := Execute(env).trace;
      WriteCsv in t ==>
        && env.extract.Returns? && SomeSucceeded(env.extract.value)
        && env.transform.Returns? && !env.transform.value.IsEmpty()
    ensures var t := Execute(env).trace;
      Load in t ==> exists i, j :: 0 <= i < j < |t| && t[i] == WriteCsv && t[j] == Load
  {
    ExecuteUnrolled(env);
    if env.extract.Returns? {
      AnySucceededIff(env.extract.value);
    }
    var t := Execute(env).trace;
    if Load in t {
      assert t[2] == WriteCsv && t[3] == Load;
    }
  }

  /** The value Load returns is not inspected: whenever Load runs and returns,
      Analysis runs next. */
  lemma AnalysisFollowsLoad(env: Env)
    ensures Load in Execute(env).trace && env.load.Returns? ==> Analysis in Execute(env).trace
  {
    StageRunsIff(env, 3);
    StageRunsIff(env, 4);
  }

  /** An Exception raised by Analysis is caught: the run has the same trace
      and outcome as when Analysis returns normally. */
  lemma AnalysisFailureSuppressed(env: Env, e: Thrown)
    requires e.IsException()
    ensures Execute(env.(analysis := Raises(e))) == Execute(env.(analysis := Returns(())))
  {
    SameVerdictsSameExecution(env.(analysis := Raises(e)), env.(analysis := Returns(())), Order);
  }

  /** Only Analysis is guarded: an exception from Extract, Transform, the CSV
      write or Load that runs leaves the orchestrator, and no later stage
      runs. */
  lemma UnguardedFailurePropagates(env: Env, k: nat, e: Thrown)
    requires k < |Order| && Order[k] != Analysis
    requires Order[k] in Execute(env).trace && RaisedBy(env, Order[k]) == Some(e)
    ensures Execute(env).outcome == Propagated(Order[k], e)
    ensures Execute(env).trace == Order[..k + 1]
  {
    ExecuteUnrolled(env);
  }

  /** An exception leaves the orchestrator only from the last stage that ran,
      and never as an Exception raised by Analysis. */
  lemma PropagatedFromLastStage(env: Env)
    ensures var r := Execute(env);
      r.outcome.Propagated? ==>
        && r.trace[|r.trace| - 1] == r.outcome.stage
        && RaisedBy(env, r.outcome.stage) == Some(r.outcome.thrown)
        && (r.outcome.stage == Analysis ==> !r.outcome.thrown.IsException())
  {
    ExecuteFromFirstStop(env, Order);
  }

  /** The run completes exactly when both gates pass, the CSV write and Load
      return, and Analysis either returns or raises an Exception; a completed
      run executed every stage. */
  lemma CompletedIff(env: Env)
    ensures Execute(env).outcome == Completed <==>
              && env.extract.Returns? && SomeSucceeded(env.extract.value)
              && env.transform.Returns? && !env.transform.value.IsEmpty()
              && env.writeCsv.Returns? && env.load.Returns?
              && (env.analysis.Raises? ==> env.analysis.thrown.IsException())
    ensures Execute(env).outcome == Completed ==> Execute(env).trace == Order
  {
    ExecuteUnrolled(env);
    if env.extract.Returns? {
      AnySucceededIff(env.extract.value);
    }
  }
}
