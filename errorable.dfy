/** The result of interpreting kubectl output: either a computed value or a
    description of why no value could be computed. The same type and guards are
    declared twice in the repository (the current one with doc comments and an
    older copy without); both are modelled by this one module. */
module Errorable {

  /** Why a function on kubectl output failed. */
  datatype Reason =
    | FailedToRun     // the kubectl process was not created
    | KubectlError    // kubectl exited with a non-zero code
    | FailedToParse   // kubectl's standard output could not be parsed

  /** `Succeeded` carries only the result; `Failed` carries only the reason
      and the error text. */
  datatype Errorable<T> =
    | Succeeded(result: T)
    | Failed(reason: Reason, error: string)

  /** The string literal by which the source spells each reason. */
  function ReasonLiteral(reason: Reason): (s: string)
    ensures s == "failed-to-run" || s == "kubectl-error" || s == "failed-to-parse"
  {
    match reason
    case FailedToRun => "failed-to-run"
    case KubectlError => "kubectl-error"
    case FailedToParse => "failed-to-parse"
  }

  /** The values the `reason` field's literal union type admits. */
  predicate IsReasonLiteral(s: string) {
    s == "failed-to-run" || s == "kubectl-error" || s == "failed-to-parse"
  }

  /** The three reasons are spelled by exactly the three literals, one each. */
  lemma ReasonLiteralsExact(s: string)
    ensures IsReasonLiteral(s) <==> exists r :: ReasonLiteral(r) == s
    ensures forall r1, r2 :: ReasonLiteral(r1) == ReasonLiteral(r2) ==> r1 == r2
  {
    if s == "failed-to-run" {
      assert ReasonLiteral(FailedToRun) == s;
    } else if s == "kubectl-error" {
      assert ReasonLiteral(KubectlError) == s;
    } else if s == "failed-to-parse" {
      assert ReasonLiteral(FailedToParse) == s;
    }
  }

  /** The `succeeded` guard: when it holds, the value is a `Succeeded` and its
      result may be read; otherwise it is a `Failed`. */
  predicate IsSucceeded<T>(e: Errorable<T>)
    ensures IsSucceeded(e) ==> e.Succeeded? && e == Succeeded(e.result)
    ensures !IsSucceeded(e) ==> e.Failed? && e == Failed(e.reason, e.error)
  {
    match e
    case Succeeded(_) => true
    case Failed(_, _) => false
  }

  /** The `failed` guard, the negation of `succeeded`: when it holds, the value
      is a `Failed` and its reason and error may be read. */
  predicate IsFailed<T>(e: Errorable<T>)
    ensures IsFailed(e) ==> e.Failed? && e == Failed(e.reason, e.error)
    ensures !IsFailed(e) ==> e.Succeeded? && e == Succeeded(e.result)
  {
    !IsSucceeded(e)
  }

  /** Exactly one of the two guards holds for every value. */
  lemma GuardsPartition<T>(e: Errorable<T>)
    ensures IsFailed(e) <==> !IsSucceeded(e)
    ensures IsSucceeded(e) <==> e.Succeeded?
    ensures IsFailed(e) <==> e.Failed?
  {
  }
}
