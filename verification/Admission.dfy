/** Admitting a selection against one offered option: the typed decision and the raising wrapper around it. */
module Admission {
  import opened Json
  import opened Wrappers
  import opened Sequences
  import opened SchemaContract
  import opened SchemaValidation
  import opened SchemaAgreement
  import opened ActionSpaceContracts
  import opened ActionSpaces

  const FORBIDDEN_PARAMETER_KEYS: set<string> := {
    "backend", "bbox", "coordinate", "coordinates", "endpoint", "credential", "href",
    "method", "point", "security", "security_scheme", "selector", "x", "y"
  }

  datatype Selection = Selection(
    actionId: string,
    observation: string,
    target: string,
    action: string,
    terms: Terms,
    schemaDigest: string,
    bindingIds: seq<string>,
    risk: Risk,
    parameters: seq<Field>,
    destination: string,
    destinations: seq<string>)

  datatype IssueCode = InvalidActionParameters | ActionOutsideActionSpace

  datatype Outcome = Admitted(selection: Selection) | Refused(code: IssueCode)

  predicate NamesForbiddenKey(parameters: seq<Field>) {
    exists i | 0 <= i < |parameters| :: parameters[i].key in FORBIDDEN_PARAMETER_KEYS
  }

  /** `parameter_issue` finds something. */
  predicate ParameterIssue(privacy: Privacy, option: ActionOption, parameters: seq<Field>) {
    NamesForbiddenKey(parameters) || Violates(privacy.lex, Obj(parameters), option.schema)
  }

  /** `_validate_destination` raises. */
  predicate DestinationRaises(privacy: Privacy, option: ActionOption, destination: string) {
    if destination == "" then option.terms.required
    else option.destinations == [] || privacy.privateDestination(destination) || destination !in option.destinations
  }

  function SelectionOf(option: ActionOption, parameters: seq<Field>, destination: string): Selection {
    Selection(option.id, option.observation, option.target, option.action, option.terms, option.schemaDigest,
              option.bindingIds, option.risk, parameters, destination, option.destinations)
  }

  function TryAdmit(privacy: Privacy, option: ActionOption, parameters: seq<Field>, destination: string): Outcome {
    if ParameterIssue(privacy, option, parameters) then Refused(InvalidActionParameters)
    else if DestinationRaises(privacy, option, destination) then Refused(InvalidActionParameters)
    else Admitted(SelectionOf(option, parameters, destination))
  }

  /** The position of the first option with the id. */
  function Find(options: seq<ActionOption>, id: string): (i: nat)
    ensures i <= |options|
    ensures i < |options| ==> options[i].id == id
    ensures forall k | 0 <= k < i :: options[k].id != id
  {
    FirstAt(Map((x: ActionOption) => x.id, options), id)
  }

  function TryAdmitSelection(privacy: Privacy, space: ActionSpace, id: string, parameters: seq<Field>,
                             destination: string)
    : Outcome
  {
    var i := Find(space.options, id);
    if i == |space.options| then Refused(ActionOutsideActionSpace)
    else TryAdmit(privacy, space.options[i], parameters, destination)
  }

  /** `validate_parameters` raises. */
  predicate ParametersRaise(privacy: Privacy, option: ActionOption, parameters: seq<Field>) {
    || NamesForbiddenKey(parameters)
    || !NoPrivateName(privacy.lex, Obj(parameters))
    || !Accepts(privacy.lex, Obj(parameters), option.schema)
  }

  datatype Compatibility = Returned(selection: Selection) | ValueError | AssertionFailed

  /** `admit`, which turns a refusal back into the exception the older validators raise. */
  function Admit(privacy: Privacy, option: ActionOption, parameters: seq<Field>, destination: string): Compatibility {
    match TryAdmit(privacy, option, parameters, destination)
    case Admitted(selection) => Returned(selection)
    case Refused(code) =>
      if code.InvalidActionParameters? && ParametersRaise(privacy, option, parameters) then ValueError
      else if DestinationRaises(privacy, option, destination) then ValueError
      else AssertionFailed
  }

  /** The typed refusal and the raising validators agree, so the wrapper's assertion is never reached. */
  lemma AdmitNeverAsserts(privacy: Privacy, option: ActionOption, parameters: seq<Field>, destination: string)
    requires ParameterContract(privacy.lex, option.schema)
    ensures ParameterIssue(privacy, option, parameters) <==> ParametersRaise(privacy, option, parameters)
    ensures Admit(privacy, option, parameters, destination) != AssertionFailed
    ensures Admit(privacy, option, parameters, destination) == ValueError <==>
              ParametersRaise(privacy, option, parameters) || DestinationRaises(privacy, option, destination)
    ensures TryAdmit(privacy, option, parameters, destination).Admitted? <==>
              Admit(privacy, option, parameters, destination).Returned?
  {
    ValidatorsAgree(privacy.lex, Obj(parameters), option.schema, true, 0);
  }

  /** Exactly when an option is admitted, in terms of the choice itself. */
  lemma AdmissionIs(privacy: Privacy, option: ActionOption, parameters: seq<Field>, destination: string)
    ensures TryAdmit(privacy, option, parameters, destination).Admitted? <==>
              && (forall f | f in parameters :: f.key !in FORBIDDEN_PARAMETER_KEYS)
              && !Violates(privacy.lex, Obj(parameters), option.schema)
              && if destination == "" then !option.terms.required
                 else destination in option.destinations && !privacy.privateDestination(destination)
    ensures TryAdmit(privacy, option, parameters, destination).Refused? ==>
              TryAdmit(privacy, option, parameters, destination).code == InvalidActionParameters
  {
    forall i | 0 <= i < |parameters| ensures parameters[i] in parameters {
    }
  }

  /** On a schema that was never admitted the wrapper asserts exactly where only the typed validator objects. */
  lemma AdmitAssertsExactly(privacy: Privacy, option: ActionOption, parameters: seq<Field>, destination: string)
    ensures Admit(privacy, option, parameters, destination) == AssertionFailed <==>
              && ParameterIssue(privacy, option, parameters)
              && !ParametersRaise(privacy, option, parameters) && !DestinationRaises(privacy, option, destination)
  {
  }

  /** Admission by id, on ids that are unique: exactly the option with the id decides. */
  lemma AdmittedById(privacy: Privacy, space: ActionSpace, i: nat, parameters: seq<Field>, destination: string)
    requires i < |space.options|
    requires forall j, k | 0 <= j < k < |space.options| :: space.options[j].id != space.options[k].id
    ensures TryAdmitSelection(privacy, space, space.options[i].id, parameters, destination)
         == TryAdmit(privacy, space.options[i], parameters, destination)
  {
    var at := Find(space.options, space.options[i].id);
    assert at <= i;
  }
}
