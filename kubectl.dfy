/** The input both decoders consume, the dictionary type they produce, and the
    conventions shared by every failure they return. */
module Kubectl {
  import opened Errorable

  datatype Option<T> = None | Some(value: T)

  /** The result of invoking an external program via the shell. */
  datatype ShellResult = ShellResult(code: int, stdout: string, stderr: string)

  /** The result of invoking kubectl; `None` if the process could not be created. */
  type KubectlOutput = Option<ShellResult>

  /** An object whose property names are arbitrary strings and whose property
      values all have type `T`. */
  type Dictionary<T> = map<string, T>

  /** A new, empty dictionary. */
  function EmptyDictionary<T>(): (d: Dictionary<T>)
    ensures |d| == 0
  {
    map[]
  }

  /** How a JavaScript call completes: normally with a value, or by throwing.
      The decoders throw in two places (a row wider than the header, and
      structured text that does not deserialize); the exception's type and
      message are not modelled. */
  datatype Completion<T> = Normal(value: T) | Throw

  /** The default message of a `FailedToRun` failure. */
  const UnableToRunMessage: string := "Unable to run kubectl"

  /** The default message of a `FailedToParse` failure. */
  const EmptyJsonMessage: string := "Kubectl returned empty JSON"

  /** What a failure produced from `output` says about it: a `KubectlError`
      carries kubectl's standard error verbatim and arises only from a
      non-zero exit code; every other reason carries its fixed default message
      and arises only from its own situation. */
  predicate DescribesFailure<T>(output: KubectlOutput, e: Errorable<T>) {
    e.Failed? ==>
      match e.reason
      case FailedToRun => output.None? && e.error == UnableToRunMessage
      case KubectlError => output.Some? && output.value.code != 0 && e.error == output.value.stderr
      case FailedToParse => output.Some? && output.value.code == 0 && e.error == EmptyJsonMessage
  }
}
