/** Enumerations of the execution and evaluation contracts that several components read. */
module ExecutionContracts {
  datatype DispatchStatus = NotSent | Sent | SentUnknown

  datatype Reversibility = Reversible | Compensatable | Irreversible | ReversibilityUnknown

  datatype EvaluationStatus = Complete | Incomplete | Unknown | Blocked

  datatype Postcondition = Satisfied | Unsatisfied | PostconditionUnknown | NotApplicable
}
