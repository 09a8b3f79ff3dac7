# Air-quality ETL pipeline orchestrator

This project models `run_pipeline`, the orchestrator of the air-quality ETL run,
in Dafny. One run has five stages, each executed at most once and in this fixed
order:

1. Extract: fetch every city's raw data.
2. Transform: build a DataFrame from the raw files.
3. Write the transformed CSV.
4. Load: load the data into the remote store.
5. Analysis.

Two gates can end the run early:

- The extraction gate continues only if some per-city result has a
  `"success"` value that is exactly the string `"true"`.
- The transform gate aborts on an empty DataFrame.

The analysis call is wrapped in `except Exception`. Nothing else is guarded, so
an exception from any other stage leaves the orchestrator.

The collaborators are not modelled: fetching, transforming, writing the CSV,
loading and the analysis. The environment `Env` gives each one as an abstract
outcome: what the call would do if it were made. It either returns a value or
raises an exception. Two parts of that are modelled exactly:

- The Python exception hierarchy, to the extent the orchestrator depends on it.
  `Error` is a subclass of `Exception` and is caught around Analysis.
  `Interrupt` derives from `BaseException` only (KeyboardInterrupt,
  SystemExit), so it passes through the guard.
- pandas' notion of an empty frame. `df.empty` holds when either axis has
  length zero.

Everything is in `pipeline.dfy` (module `Pipeline`):

- `StageVerdict` says what happens right after each stage: the run goes on, or
  it stops with an outcome.
- `ExecuteFrom` / `Execute` is the specification of a run: execute the stages in
  order and stop at the first stage whose verdict is `Stop`.
- `RunPipeline` is the orchestrator itself, written imperatively with its early
  returns. It is proved equal to `Execute`.
- The lemmas state the orchestrator's guarantees about `Execute`.

The model follows the code, including behaviour a reader might not expect:

- Besides the two early returns and completion, a run has a fourth kind of
  end, `Propagated(stage, exception)`. It arises because Extract, Transform,
  the CSV write and Load are unguarded.
- The guard around Analysis catches only `Exception` subclasses. An `Interrupt`
  raised by Analysis still propagates.
- The success flag is compared as a string and is case-sensitive.
  `"True"`, `"false"`, a missing key and non-string values all count as
  failure.

## Model

| member | source | states |
|---|---|---|
| `Pipeline.AnySucceededIff` | ETL_AIR_QUALITY/run_pipeline.py:13-14 | the left-to-right `any` over the results is true exactly when some result's "success" value is the exact string "true"; an empty list, or only missing / "True" / "false" / non-string values, fails the gate |
| `Pipeline.StageVerdict` | ETL_AIR_QUALITY/run_pipeline.py:11-36 | no single stage ends the run as completed; an exception outcome always names the stage that raised and the exception it raised; an exception from any stage other than Analysis always stops the run |
| `Pipeline.ExecuteFromFirstStop` | ETL_AIR_QUALITY/run_pipeline.py:11-38 | the executed stages are a prefix of the stage sequence, non-empty when it is; every executed stage but the last let the run go on; the run completes exactly when every stage lets it go on, and then all stages ran; otherwise the last executed stage decides the outcome |
| `Pipeline.SameVerdictsSameExecution` | ETL_AIR_QUALITY/run_pipeline.py:11-38 | the trace and outcome depend on the collaborators only through what each stage decides (continue, or stop with an outcome) |
| `Pipeline.RunPipeline` | ETL_AIR_QUALITY/run_pipeline.py:8-38 | the orchestrator, with its early returns and its try/except around the analysis, produces exactly the stage trace and terminal outcome of the first-stop specification `Execute` |
| `Pipeline.TraceFollowsOrder` | ETL_AIR_QUALITY/run_pipeline.py:10-34 | Extract always runs; the stages that run are a prefix of Extract, Transform, WriteCsv, Load, Analysis, so they run in that order with no stage repeated (no retries) |
| `Pipeline.StageRunsIff` | ETL_AIR_QUALITY/run_pipeline.py:11-34 | a stage runs if and only if every earlier stage let the run go on |
| `Pipeline.NoDataAbortIff` | ETL_AIR_QUALITY/run_pipeline.py:14-17 | the run ends with "no data" if and only if extraction returns and no result succeeded; then only Extract ran (no transform, CSV, load or analysis) |
| `Pipeline.EmptyTransformAbortIff` | ETL_AIR_QUALITY/run_pipeline.py:20-23 | the run ends with "empty transform" if and only if the extraction gate passed and the transformed frame is empty; then only Extract and Transform ran, so no CSV was written and neither Load nor Analysis ran |
| `Pipeline.CsvWrittenBeforeLoad` | ETL_AIR_QUALITY/run_pipeline.py:21-30 | the CSV is written only after both gates passed on a non-empty frame, and whenever Load runs the CSV write ran before it |
| `Pipeline.AnalysisFollowsLoad` | ETL_AIR_QUALITY/run_pipeline.py:30-34 | Load's result is not inspected: whenever Load runs and returns, Analysis runs |
| `Pipeline.AnalysisFailureSuppressed` | ETL_AIR_QUALITY/run_pipeline.py:33-38 | a run whose analysis raises an `Exception` has the same trace and the same (completed) outcome as the run whose analysis returns |
| `Pipeline.UnguardedFailurePropagates` | ETL_AIR_QUALITY/run_pipeline.py:11-30 | an exception raised by Extract, Transform, the CSV write or Load, once that stage runs, ends the run as propagated from that stage, and no later stage runs |
| `Pipeline.PropagatedFromLastStage` | ETL_AIR_QUALITY/run_pipeline.py:11-36 | a propagated exception comes from the last stage that ran and is the exception that stage raised; it is never an `Exception` raised by Analysis |
| `Pipeline.CompletedIff` | ETL_AIR_QUALITY/run_pipeline.py:14-38 | the run completes if and only if both gates pass, the CSV write and Load return, and Analysis returns or raises an `Exception`; a completed run executed all five stages |

## Left out

- The collaborators `fetch_all_cities`, `transform_raw_to_df`, `load_to_supabase` and `run_analysis`. They live in modules that are not part of this model (`extract`, `transform`, `load`, `etl_analysis`). Each is an abstract outcome in `Env`: it returns or it raises.
- What the DataFrame contains, and the bytes of the CSV that `df.to_csv` writes. Only the frame's shape (for `df.empty`) is kept, plus whether the write returns or raises.
- The link between extraction and transformation through the raw directory. `transform_raw_to_df(RAW_DIR)` reads the files that extraction wrote. Here its outcome is an independent input.
- The values returned by `df.to_csv`, `load_to_supabase` and `run_analysis`. The orchestrator discards them, so only "returns" or "raises" is kept.
- "success" values that are objects with their own `__eq__`. Such an object could compare equal to `"true"`, or could make the comparison or its truth test raise (`pd.NA == "true"` gives `pd.NA`, and `any` raises `TypeError` on it), which the model does not capture. The model treats every non-string value as a built-in one, which compares unequal and never raises.
- Extraction results that are not mappings. The model assumes `r.get` always works. If a result had no `get` method, the gate itself would raise.
- All console output: the stage banners, `df.head()`, the abort messages, the caught analysis error and the completion line. This includes any exception that printing could raise.
- The module-level paths `RAW_DIR` and `OUTPUT_CSV`, and the `__main__` entry hook. These are configuration and process plumbing.
- Network access, Supabase and credentials behind Load. These are remote I/O.
- The customer-churn pipeline under `ETL PIPELINE2/` (`extract.py`, `validate.py`). It is a separate pipeline that this orchestrator does not call, and it is not part of this model. The segmentation code is not part of this model either.
