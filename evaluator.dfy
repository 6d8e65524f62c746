/**
 * The contract every evaluator offers the orchestrator: static capabilities,
 * a `load_model` that may fail, an `evaluate` that never fails (any failure
 * inside becomes an errored result) and an `unload_model` that is always safe.
 * The model weights, the accelerator and the clock are outside the model: the
 * outcome of loading and of each inference is given as data.
 */
module Evaluators {
  import opened Wrappers
  import opened Types

  /**
   * One timed inference: the backend's output with the measured time and the
   * memory in use afterwards, or the message of the exception it raised
   * (while opening the image, running the model or reading its output).
   */
  datatype Inference<T> = Completed(output: T, timeMs: real, vramMb: real) | Raised(message: string)

  /** The calls the orchestrator makes on an evaluator, as recorded in its trace. */
  datatype Call = Load | Evaluate(image: string) | Unload

  /**
   * One evaluator instance. `loadFailure` is the message `load_model` raises
   * with, if it raises; `evaluate` is what `evaluate(image, description)`
   * returns for each screenshot (for the four families, their `ResultOf` on
   * the backend's inference outcome).
   */
  class Evaluator {
    const caps: ModelCapabilities
    const loadFailure: Option<string>
    const evaluate: string -> EvaluationResult
    var loaded: bool
    ghost var trace: seq<Call>

    constructor(caps: ModelCapabilities, loadFailure: Option<string>, evaluate: string -> EvaluationResult)
      ensures this.caps == caps && this.loadFailure == loadFailure && this.evaluate == evaluate
      ensures !loaded && trace == []
    {
      this.caps := caps;
      this.loadFailure := loadFailure;
      this.evaluate := evaluate;
      loaded := false;
      trace := [];
    }

    /** Loads the model; on failure returns the exception's message and stays unloaded. */
    method LoadModel() returns (failure: Option<string>)
      modifies this
      ensures failure == loadFailure
      ensures loaded <==> failure.None?
      ensures trace == old(trace) + [Load]
    {
      failure := loadFailure;
      loaded := failure.None?;
      trace := trace + [Load];
    }

    /** Evaluates one screenshot; never fails. */
    method EvaluateImage(image: string) returns (r: EvaluationResult)
      requires loaded
      modifies this
      ensures r == evaluate(image)
      ensures loaded
      ensures trace == old(trace) + [Evaluate(image)]
    {
      r := evaluate(image);
      trace := trace + [Evaluate(image)];
    }

    /** Releases the model; safe whether or not it was loaded. */
    method UnloadModel()
      modifies this
      ensures !loaded
      ensures trace == old(trace) + [Unload]
    {
      loaded := false;
      trace := trace + [Unload];
    }
  }
}
