/** Failure-compatible wrappers shared by every module of the model, and the
    errors the modelled PHP code raises (its exceptions and fatal errors). */
module Outcomes {

  /** PHP `null` versus a present value. */
  datatype Option<+T> = None | Some(value: T)

  /** Every way a modelled operation can fail. */
  datatype Error =
    /** A template the renderer could not render, rethrown by a strict merge. */
    | RenderFailed(template: string)
    /** The options resolver met keys its schema does not define. */
    | UndefinedOptions(names: set<string>)
    /** The options resolver found required keys without a value or default. */
    | MissingOptions(names: set<string>)
    /** An option whose value is not one of the schema's allowed values. */
    | InvalidOptionValue(name: string)
    /** An option whose value has none of the schema's allowed types. */
    | InvalidOptionType(name: string)
    /** `isFirst()` called on the `null` a step builder returned. */
    | NullStepIsFirst(stepName: string)
    /** `getName()` called on the `null` source of a built path. */
    | NullPathSource
    /** The map has no built step of this name (a path's source reference). */
    | StepNotInMap(stepName: string)
    /** The data flow holds no data for this step (a LogicException). */
    | StepNotFound(stepName: string)
    /** The worker registry holds no worker for this alias (an InvalidArgumentException). */
    | WorkerNotFound(alias: string)
    /** Whatever a step or path builder raises (an unknown type alias, say). */
    | BuilderFailed(message: string)
  {
    /** The exception message. Only the data flow and the worker registry
        spell theirs out; the others come from the options resolver or from
        PHP itself, and are not modelled. */
    function Message(): string
      requires StepNotFound? || WorkerNotFound?
    {
      match this
      case StepNotFound(n) => "No step \"" + n + "\" found."
      case WorkerNotFound(a) => "Could not load worker \"" + a + "\""
    }
  }

  datatype Result<+T> = Ok(value: T) | Err(error: Error) {

    predicate IsFailure() {
      Err?
    }

    function PropagateFailure<U>(): Result<U>
      requires Err?
    {
      Err(error)
    }

    function Extract(): T
      requires Ok?
    {
      value
    }
  }

  /** True iff `part` occurs as a contiguous slice of `whole`. */
  predicate Mentions(whole: string, part: string)
  {
    exists i :: 0 <= i <= |whole| && part <= whole[i..]
  }
}
