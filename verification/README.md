# Verified model of the agent runtime's deterministic core

The runtime offers an agent semantic actions on an observed world, admits its choices against finite schemas, resolves
them to private execution routes, watches for lack of progress and keeps the authority state of a run. This project
models that logic in Dafny and proves what the components promise each other.

- **Schema algebra** (`Json`, `SchemaContract`, `ContractMeaning`, `SchemaValidation`, `SchemaMeaning`,
  `SchemaAgreement`, `OneOfExclusivity`, `InvalidPaths`, `PruningTheorems`, `ExpiredPaths`): the bounded JSON-Schema
  subset, its contract checker, its two validators and the pruner of values at rest.
- **Action routing** (`ActionSpace`, `ActionSpaceTheorems`, `ActionSpaceMeaning`, `OfferedBindings`, `Admission`,
  `RouteSelector`, `Paging`, `PhraseMatch`, `ActionRecall`, `RecallMeaning`, `ActionDelivery`, `GeometryPartition`,
  `GeometrySeating`, `GeometryTargets`): from the bindings of an observation to offered options, ranked pages, an
  admitted selection and one binding.
- **Episode monitor** (`TransitionCycle`, `MonitorSpec`, `EpisodeMonitor`, `MonitorTheorems`, `MonitorAdvice`,
  `MonitorCourse`, `StructurePaths`): the no-progress state machine and the reference-free identity of a target.
- **Run authority** (`RunControl`, `RunControlObject`, `Reconciliation`, `RunState`, `RunStateObject`, `RunMoves`,
  `RunLedger`, `TurnBudget`): pause and cancel, compensation, the constructor checks that mutating methods must keep,
  and what a run adds up to.
- `Sequences`, `Lexicographic`, `Grouping`, `Wrappers` and `ExecutionContracts` hold what the others share.

The source's mutable objects are classes whose methods are proved against functions on a record of their fields; the
theorems are about those functions and about every run of them. Its loops are methods proved against recursive
functions. What the source takes from outside is a parameter: regular expressions, private-name tests, text
normalisation and tokenising, character classes, and digests. A digest is an arbitrary function, and a theorem says so
where it needs it to be injective.

Check everything with `dafny verify dfyconfig.toml`.

## Where the code and its promises part

The model follows the code. Six promises hold only under a condition, which is stated exactly, with an input that
fails it:

- Branches the contract checker calls disjoint can share a value when the discriminating field is a number (1 and 1.0
  are different pins but equal values) or a container (its `const` is ignored).
- A step without a task evaluation consumes the recovery signal of an unarmed failure centre. The centre then blocks a
  stuck run only at a seventeenth member, so a run that keeps re-entering it is never blocked. The core loop's guard
  prevents this.
- A second cancel at a pause replaces the first, which never gets an outcome.
- Resuming under the identity of the pending command logs that command while it is pending, and settling it then
  breaks the outcome history. Restoring an outcome that is already logged breaks it at once.
- The turn budget ends a run unless its last turn is spent on a step that only waits. Such a run can be resumed with
  no turn left, which the guard of the loop does not see, and then go on without limit.
- `RunState` accepts some calls that leave it in a state its own constructor would refuse: a step that ends paused or
  carries a boundary its outcome does not match, receipts that differ from the compensation a closed reconciliation
  names, installing a reconciliation that already names one, or requiring input with one.

The rule for offered routes relies on the binding constructor, which refuses an optional destination mode. What the
builder would do with such bindings is characterised too: it would offer a route twice, and one that no binding
carries.

## Model

| member | source | states |
|---|---|---|
| `SchemaValidation.ValidateValue` | src/affordance_runtime/actions/schema_validation.py:273-364 | decides exactly the acceptance relation of a schema, unions by counting accepting branches |
| `SchemaValidation.CountMatches` | src/affordance_runtime/actions/schema_validation.py:274-288 | counts the branches of a union that accept the value |
| `SchemaValidation.ValidateItems` | src/affordance_runtime/actions/schema_validation.py:296-308 | array acceptance: length bounds and every item |
| `SchemaValidation.ValidateFields` | src/affordance_runtime/actions/schema_validation.py:309-334 | object acceptance: required names, size, declared, typed extra and forbidden extra fields |
| `ContractMeaning.AdmittedScalars` | src/affordance_runtime/actions/schema_validation.py:189-258 | which scalar schemas the contract checker admits: at a depth of at most eight, numbers with a range that is not crossed, strings with such lengths and a short pattern that compiles, all with typed pins, at most 512 and each once |
| `ContractMeaning.AdmittedArrays` | src/affordance_runtime/actions/schema_validation.py:171-187 | which array schemas: described items, at most 512 of them, and bounds that are not crossed |
| `ContractMeaning.AdmittedObjects` | src/affordance_runtime/actions/schema_validation.py:132-169 | which object schemas: at most 128 public properties, each once and admitted itself, required names that are declared and fit, and extra fields forbidden or bounded in number and name |
| `ContractMeaning.AdmittedUnions` | src/affordance_runtime/actions/schema_validation.py:57-107 | which unions: one to 128 admitted branches and no other keyword, those of `oneOf` told apart |
| `ContractMeaning.DistinctBranchesAre` | src/affordance_runtime/actions/schema_validation.py:82-129 | the branches of `oneOf` are distinct if and only if each pins a required field of its own and every two pin one common field to values they do not share |
| `SchemaMeaning.AcceptedIntegers` | src/affordance_runtime/actions/schema_validation.py:335-364 | an integer schema accepts exactly the integers between `minimum` and `maximum` that count as the constant and as some enumerated value, where 1, 1.0 and True count alike |
| `SchemaMeaning.AcceptedNumbers` | src/affordance_runtime/actions/schema_validation.py:335-364 | a number schema accepts exactly the integers and finite floats with the same bounds and pins, never an infinity or NaN |
| `SchemaMeaning.AcceptedStrings` | src/affordance_runtime/actions/schema_validation.py:335-356 | a string schema accepts exactly the strings its pattern matches, of a length between `minLength` and `maxLength`, equal to the constant and among the enumerated values |
| `SchemaMeaning.AcceptedBooleans` | src/affordance_runtime/actions/schema_validation.py:335-350 | a boolean schema accepts exactly the flags its pins allow; 0 and 1 are as good as pins as the flags |
| `SchemaMeaning.EqualityIs` | src/affordance_runtime/actions/schema_validation.py:347-350 | the equality the pins are compared by: numbers and flags by value, NaN equal to nothing, everything else by structure |
| `SchemaMeaning.AcceptedArrays` | src/affordance_runtime/actions/schema_validation.py:296-308 | an array schema accepts exactly the arrays of a length between `minItems` and `maxItems` all of whose items its item schema accepts |
| `SchemaMeaning.AcceptedObjects` | src/affordance_runtime/actions/schema_validation.py:309-334 | an object schema accepts exactly the objects that are not too large, have every required field, and hold under every key an accepted name and a value accepted by the declared schema, or else by the schema for extra fields |
| `SchemaMeaning.AcceptedByOneOf` | src/affordance_runtime/actions/schema_validation.py:274-288 | `oneOf` accepts exactly what one branch accepts and no other |
| `SchemaMeaning.AcceptedByAnyOf` | src/affordance_runtime/actions/schema_validation.py:274-288 | `anyOf` accepts exactly what some branch accepts |
| `SchemaAgreement.ValidatorsAgree` | src/affordance_runtime/actions/schema_validation.py:273-566 | on every schema the contract checker admits and every value, the issue-reporting validator is silent exactly when the raising validator accepts and no private name occurs at any depth |
| `SchemaAgreement.CountsAgree` | src/affordance_runtime/actions/schema_validation.py:483-500 | a union has as many violation-free branches as accepting ones when no private name occurs, and none otherwise |
| `SchemaAgreement.ObjectsAgree` | src/affordance_runtime/actions/schema_validation.py:501-566 | the agreement for objects, given it for every field |
| `OneOfExclusivity.SeparatedBranchesExclude` | src/affordance_runtime/actions/schema_validation.py:82-129 | two admitted branches whose required declared fields pin scalar values that compare unequal never accept the same value |
| `OneOfExclusivity.ExactDiscriminantsSeparate` | src/affordance_runtime/actions/schema_validation.py:109-129 | when the discriminating fields are strings, booleans, integers or null, what the contract checker calls disjoint is enough for that |
| `OneOfExclusivity.OneOfMeansAnyOf` | src/affordance_runtime/actions/schema_validation.py:82-129 | for an admitted `oneOf` with such discriminants, replacing `oneOf` by `anyOf` accepts the same values |
| `OneOfExclusivity.NumberPinsAlias` | src/affordance_runtime/actions/schema_validation.py:118-129 | the guarantee fails for number fields: the contract checker admits the pins 1 and 1.0 as disjoint, and one value satisfies both branches |
| `OneOfExclusivity.ContainerPinsAreIgnored` | src/affordance_runtime/actions/schema_validation.py:118-129 | the guarantee fails for container fields: their `const` is read by the contract checker but by neither validator |
| `OneOfExclusivity.PlainPinsExcludeExactlyWhenApart` | src/affordance_runtime/actions/schema_validation.py:109-129 | two fields pinned only by `const` or `enum` exclude each other if and only if no two pins compare equal |
| `InvalidPaths.CollectPaths` | src/affordance_runtime/actions/schema_validation.py:406-466 | the collecting loop returns the paths of the recursive description, in encounter order |
| `PruningTheorems.CleanIsOnlyMissing` | src/affordance_runtime/actions/schema_validation.py:483-566 | a value without violations has no defect but missing required fields |
| `PruningTheorems.PathsAreIncomparable` | src/affordance_runtime/actions/schema_validation.py:406-466 | no located path is a proper prefix of another |
| `PruningTheorems.PrunedIsOnlyMissing` | src/affordance_runtime/actions/schema_validation.py:386-466 | deleting the located paths below a node leaves only missing required fields, unless the node itself is located |
| `PruningTheorems.LocatedIsDefect` | src/affordance_runtime/actions/schema_validation.py:406-466 | every located path is present in the value and is a defect there |
| `PruningTheorems.MinimalPathsAre` | src/affordance_runtime/actions/schema_validation.py:469-480 | minimising keeps exactly the paths without a located ancestor, strictly sorted and prefix-free |
| `PruningTheorems.PruningIsExact` | src/affordance_runtime/actions/schema_validation.py:386-480 | for an admitted schema the result is a strictly sorted prefix-free list of present, genuinely defective positions, and either it expires the whole value or deleting it leaves only missing required fields; no legally named valid value is listed |
| `ExpiredPaths.ExpiresExactly` | src/affordance_runtime/actions/schema_validation.py:406-466 | the walk locates a position if and only if it expires: what is indivisible (a union, an array, an overfull object, one with a blank key, a value of another type) as a whole, and of a divisible object each field with a forbidden or ungoverned name, and inside each violating value what expires there |
| `ExpiredPaths.InvalidPathsAre` | src/affordance_runtime/actions/schema_validation.py:386-480 | the pruner raises exactly on a schema that is not admitted and otherwise returns exactly the positions that expire in a violating value |
| `ActionSpaces.FilterEligible` | src/affordance_runtime/actions/action_space.py:86-92 | the bindings that are current, allowed by the task and not on a conflicted target, in order |
| `OfferedBindings.EligibleTakesPart` | src/affordance_runtime/actions/action_space.py:86-92 | a binding is eligible if and only if it is of this observation with a fingerprint and the surface and revision of the first source of its id (or of the observation itself where there are no sources), its effects are permitted by the task, and its target is not contested |
| `OfferedBindings.BackerTakesPart` | src/affordance_runtime/actions/action_space.py:86-231 | no stale, forbidden or contested binding stands behind an offer |
| `ActionSpaces.FindConflicts` | src/affordance_runtime/actions/action_space.py:109-127 | compares every two groups of a selector once and tabulates the routes each loses and the fields reported |
| `ActionSpaces.PublishGroups` | src/affordance_runtime/actions/action_space.py:138-157 | drops withheld routes and merges the remaining groups by contract |
| `ActionSpaces.Build` | src/affordance_runtime/actions/action_space.py:81-231 | the steps together |
| `ActionSpaces.FieldsTellContractsApart` | src/affordance_runtime/actions/action_space.py:383-400 | no conflicting field if and only if all nine contract fields agree |
| `ActionSpaceTheorems.TableIs` | src/affordance_runtime/actions/action_space.py:112-127 | a group loses a route exactly when another group of its selector carries it under another contract, whatever the order of comparison |
| `ActionSpaceTheorems.GroupSurvives` | src/affordance_runtime/actions/action_space.py:139-146 | a group is published exactly when its bindings survive their disputes, with exactly the undisputed destinations |
| `ActionSpaceTheorems.PublishAllIs` | src/affordance_runtime/actions/action_space.py:138-157 | merging yields one entry per contract, holding exactly the bindings and open destinations of its groups |
| `ActionSpaceTheorems.OptionsMean` | src/affordance_runtime/actions/action_space.py:173-231 | an option lists exactly the surviving bindings of its contract and their open destinations; its risk bounds theirs and is attained |
| `ActionSpaceTheorems.BackedOnce` | src/affordance_runtime/actions/action_space.py:138-231 | a binding stands behind an option exactly when it is eligible and survives, and never behind two |
| `ActionSpaceMeaning.RouteOffered` | src/affordance_runtime/actions/action_space.py:81-231 | for bindings their constructor accepts, a route, with a destination or without, is offered if and only if some eligible binding carries it and all that do agree on the nine fields |
| `OfferedBindings.RouteOfferedPlainly` | src/affordance_runtime/actions/action_space.py:81-231 | the same rule in terms of the observation and the task alone |
| `OfferedBindings.OptionRiskIs` | src/affordance_runtime/actions/action_space.py:185-186 | an option is as risky as the riskiest binding behind it, low below medium below high below irreversible |
| `ActionSpaceMeaning.PlainRouteOffered` | src/affordance_runtime/actions/action_space.py:139-146 | in every destination mode, also those the binding constructor refuses: exactly when an option without destinations is offered |
| `ActionSpaceMeaning.PlainRouteOfferedTwice` | src/affordance_runtime/actions/action_space.py:139-146 | in every mode: a route without a destination is offered by two options if and only if two bindings of the selector are left without a destination under different contracts |
| `ActionSpaceMeaning.ConstructedAreRegistered` | src/affordance_runtime/world/contracts.py:596-621 | the binding constructor lets only the modes of the registry through, and no blank destination |
| `ActionSpaceContracts.ConstructedIs` | src/affordance_runtime/world/contracts.py:596-621 | what can be constructed is a drag with its destinations or another registered action without any |
| `ActionSpaceMeaning.OptionalModeBreaksBoth` | src/affordance_runtime/world/contracts.py:610-621 | why the binding constructor pins the mode: two bindings with an optional destination, which it refuses, would put two options on the route without one, which neither carries |
| `ActionSpaceMeaning.OffersStayAllowed` | src/affordance_runtime/actions/action_space.py:356-376 | no option carries a forbidden effect or an effect the task does not allow; a read-only task is offered only effect-free low-risk reading and activating |
| `ActionSpaceMeaning.OneOptionPerRoute` | src/affordance_runtime/actions/action_space.py:81-231 | no route is offered by two options |
| `ActionSpaceMeaning.OneOptionPerBinding` | src/affordance_runtime/actions/action_space.py:175-231 | under unique binding ids no id is listed by two options |
| `ActionSpaceMeaning.ActionIdsAreUnique` | src/affordance_runtime/actions/space_contracts.py:231-237 | with injective digests the uniqueness check of the action-space constructor never fails on a built space |
| `ActionSpaceMeaning.OptionDestinationsAreCanonical` | src/affordance_runtime/actions/space_contracts.py:276-284 | the destinations of every option are sorted, distinct, not blank and not private |
| `ActionSpaceMeaning.IssuesAreDisputes` | src/affordance_runtime/actions/action_space.py:112-137 | the issues list exactly the fields on which two eligible bindings sharing those routes differ |
| `Admission.AdmitNeverAsserts` | src/affordance_runtime/actions/action_space.py:233-254 | parameter issues coincide with raising, `admit` raises exactly when `try_admit` refuses, and its assertion is unreachable |
| `Admission.AdmissionIs` | src/affordance_runtime/actions/action_space.py:256-287 | an option is admitted if and only if no parameter has a forbidden name, the parameters do not violate its schema, and the destination is one of its own and not private, or none where none is required |
| `Admission.AdmitAssertsExactly` | src/affordance_runtime/actions/action_space.py:239-254 | on a schema that was never admitted the wrapper fails its assertion exactly where only the typed validator objects |
| `Admission.AdmittedById` | src/affordance_runtime/actions/action_space.py:289-312 | admission by a unique id is decided by the option with that id |
| `RouteSelector.SelectedIsBest` | src/affordance_runtime/actions/route_selector.py:40-62 | a binding is selected if and only if candidate ids are distinct and it beats every other candidate by confidence, cost and id |
| `RouteSelector.SelectedIsPreferred` | src/affordance_runtime/actions/route_selector.py:40-105 | what is selected is as captured, not excluded and does what was admitted; every other such binding is less confident, or as confident and costlier, or equal in both with a later id; nothing is selected only if there is none |
| `RouteSelector.ConflictIsSharedId` | src/affordance_runtime/actions/route_selector.py:55-58 | a conflict is reported if and only if two such bindings share an id |
| `RouteSelector.StillCurrentIsFresh` | src/affordance_runtime/actions/route_selector.py:90-105 | the selector's own check of currentness accepts exactly what the builder's does |
| `RouteSelector.SelectIgnoresOrder` | src/affordance_runtime/actions/route_selector.py:40-62 | the selection does not depend on the order of the bindings |
| `RouteSelector.CandidatesBack` | src/affordance_runtime/actions/route_selector.py:65-86 | the candidates are exactly the non-excluded bindings behind the option that carry the chosen destination |
| `RouteSelector.AdmissionImpliesRoute` | src/affordance_runtime/execution/contracts.py:174-206 | for an admitted selection on a built option, selecting never conflicts, succeeds exactly when a fitting binding is not excluded (always without exclusions), and the binding agrees on every term, also those the selector never compares, so the bound request accepts it |
| `RouteSelector.BindsExactly` | src/affordance_runtime/execution/contracts.py:174-206 | the bound request accepts a binding if and only if it agrees with the selection in all eight terms, target, action, schema, world and id, is no riskier, and carries the destination |
| `Paging.CollectRows` | src/affordance_runtime/actions/paging.py:1050-1060 | one row per destination of an option that requires one, one row for any other |
| `Paging.CollectShown` | src/affordance_runtime/actions/paging.py:759-765 | groups the visible rows by action, in order of first appearance |
| `Paging.PageAt` | src/affordance_runtime/actions/paging.py:711-805 | the page at a cursor, or the error for a bad cursor, an offset past the end or a limit that is not positive |
| `PagingTheorems.ShownAre` | src/affordance_runtime/actions/paging.py:759-767 | every action of the rows is shown once, with exactly the destinations its rows choose |
| `PagingTheorems.RowsOfRanking` | src/affordance_runtime/actions/paging.py:1050-1060 | all rows together choose exactly the destinations of an option that requires one; any other has one row |
| `PagingTheorems.PagesAreValid` | src/affordance_runtime/actions/paging.py:518-533 | every page passes the count, continuation, uniqueness and binding checks of the page constructor |
| `PagingTheorems.PageShows` | src/affordance_runtime/actions/paging.py:766-774 | what one page shows of one option |
| `PagingTheorems.CursorWalk` | src/affordance_runtime/actions/paging.py:711-805 | following the cursors ends; the pages are valid; their rows are exactly the rows of the ranking; each option is shown with exactly its destinations, one that requires none on exactly one page |
| `PagingTheorems.PageSizes` | src/affordance_runtime/actions/paging.py:757-781 | page `i` of the walk starts at row `i * limit` and holds `limit` rows, the last page what is left |
| `PagingTheorems.PageIsRefused` | src/affordance_runtime/actions/paging.py:711-757 | there is no page exactly for a limit below one, a cursor that cannot be read, or one past the last row |
| `PagingTheorems.SelectableIs` | src/affordance_runtime/actions/paging.py:536-560 | what can be chosen on a page is exactly what it has a row for; where no destination is required, any that is offered |
| `PhraseMatch.SearchBounded` | src/affordance_runtime/actions/paging.py:961-969 | searching restarts one past each occurrence and finds a bounded one exactly when there is one |
| `PhraseMatch.BoundedPhraseMatch` | src/affordance_runtime/actions/paging.py:956-970 | true exactly when the phrases are equal or one occurs in the other between word boundaries |
| `PhraseMatch.MatchIsSymmetric` | src/affordance_runtime/actions/paging.py:956-970 | the argument order is irrelevant, and only the shorter phrase needs to be searched for |
| `PhraseMatch.MatchCutsNoWord` | src/affordance_runtime/actions/paging.py:964-967 | a match is exactly an occurrence of the shorter phrase in the longer neither end of which lies inside a word |
| `ActionRecall.SplitOptions` | src/affordance_runtime/actions/paging.py:359-420 | the loop sends each option to the prioritised or the remaining ones by its verdict and gathers the matched tokens |
| `ActionRecall.PartitionOptions` | src/affordance_runtime/actions/paging.py:324-438 | the partition, or the error for an overlong query |
| `ActionRecall.PartitionSplits` | src/affordance_runtime/actions/paging.py:421-437 | prioritised and remaining options are the options exactly, the former in order of the sort key, each carrying the key of its own verdict |
| `Lexicographic.SortedIsStable` | src/affordance_runtime/actions/paging.py:421-437 | sorting keeps options with tied keys in the order they had |
| `ActionRecall.MatchedHasSource` | src/affordance_runtime/actions/paging.py:405-407 | a token counts as matched exactly when a prioritised option accounts for it |
| `ActionRecall.MatchedIsEvidence` | src/affordance_runtime/actions/paging.py:372-407 | what an option accounts for are query tokens on its label, its distinguishing path, its role or its operation; it accounts for none only by an exact label |
| `ActionRecall.CoverageIs` | src/affordance_runtime/actions/paging.py:393-401 | coverage is a fraction between 0 and 1, and 1 exactly when every target term is found |
| `ActionRecall.UnmatchedAreTheRest` | src/affordance_runtime/actions/paging.py:437-437 | the unmatched terms are exactly the other query tokens, in the order of the query |
| `ActionRecall.PartitionIsExact` | src/affordance_runtime/actions/paging.py:309-438 | the options are split exactly, and every query token is witnessed by a prioritised option or reported as unmatched |
| `RecallMeaning.VerdictIs` | src/affordance_runtime/actions/paging.py:359-420 | word by word: an option is prioritised if and only if it has every role and operation the query asks for, and some word of the target if one is asked for; its sort key counts those words |
| `RecallMeaning.RecallIs` | src/affordance_runtime/actions/paging.py:324-438 | the prioritised options are exactly the recalled ones, none before one with more of the target, an exact label, more words, more facets, a nearer place or an earlier public text, in that order of importance; the others keep their order; the unmatched words are exactly those no recalled option accounts for |
| `RecallMeaning.QueriesAre` | src/affordance_runtime/actions/paging.py:309-327 | a query of more than 240 characters is an error, a blank one leaves the options as they are |
| `ActionDelivery.RankingIsOfAllowed` | src/affordance_runtime/actions/paging.py:869-909 | without a query the ranking permutes the allowed options, with one it is a part of them |
| `ActionDelivery.RankingIsOrdered` | src/affordance_runtime/actions/paging.py:907-909 | an objective orders by role, falling score and position |
| `ActionDelivery.RankingIs` | src/affordance_runtime/actions/paging.py:869-909 | without a query exactly the deliverable options are ranked, by role, then higher score, then position, or without an objective in the order of the space |
| `ActionDelivery.QueryRanks` | src/affordance_runtime/actions/paging.py:886-906 | with a query the ranking is what the query recalls of the deliverable options |
| `ActionDelivery.BuiltIsDeliverable` | src/affordance_runtime/actions/space_contracts.py:231-284 | what the builder produces meets the conditions of the cursor walk |
| `ActionDelivery.AgreedRouteIsReachable` | src/affordance_runtime/actions/action_space.py:81-312 | end to end: a route that eligible bindings carry and agree on is offered by one option, is selectable on a page of the unfiltered walk, is admitted with exactly the parameters that raise no issue, and once admitted selects a binding that carries it on the offered terms |
| `GeometryPartition.GeometryPartitions` | src/affordance_runtime/actions/unified_grounding.py:268-294 | the greedy loop |
| `GeometryPartition.Resolve` | src/affordance_runtime/actions/unified_grounding.py:216-255 | grouping by name and then by geometry |
| `GeometryPartition.PartitionsPartition` | src/affordance_runtime/actions/unified_grounding.py:268-294 | the result is a partition of its input; once a source repeats, every part has distinct sources and pairwise overlapping or unknown boxes |
| `GeometryPartition.PartsHaveDistinctSources` | src/affordance_runtime/actions/unified_grounding.py:268-294 | in either case no part holds two candidates of one source |
| `GeometryPartition.PlacementLaw` | src/affordance_runtime/actions/unified_grounding.py:280-293 | one more item joins a part if and only if that part alone has no candidate of its source and none whose box contradicts its own; with none or several it starts a part |
| `GeometryPartition.PartitionsSplitRepeats` | src/affordance_runtime/actions/unified_grounding.py:270-279 | without a repeated source there is one part, otherwise the parts are built item by item |
| `GeometrySeating.PartsAreSeated` | src/affordance_runtime/actions/unified_grounding.py:280-294 | the loop builds exactly the parts of a declarative seating, in which every item names the first item of its part |
| `GeometrySeating.PartitionsAreSeated` | src/affordance_runtime/actions/unified_grounding.py:268-294 | once a source repeats, an item shares the part of an earlier one if and only if one part alone was open to it |
| `GeometryPartition.CompatibleIsOverlap` | src/affordance_runtime/actions/unified_grounding.py:508-517 | for boxes of positive size the test is that their interiors meet |
| `GeometryTargets.GroupsResolve` | src/affordance_runtime/actions/unified_grounding.py:216-266 | every part of every group becomes one target: named by the group where it is the only part and otherwise by the identities it holds in order, with its candidates in order of their ids, each pointed at it |
| `GeometryPartition.ResolveConserves` | src/affordance_runtime/actions/unified_grounding.py:216-255 | every input candidate comes out exactly once, changed at most in its target id |
| `StructurePaths.WalkUp` | src/affordance_runtime/agent/attempt_signature.py:182-208 | the ancestor loop returns the recursive description of the path, also on cyclic parent links |
| `StructurePaths.PathsAreRefFree` | src/affordance_runtime/agent/attempt_signature.py:173-227 | injectively renaming observation, target and structure ids leaves the paths unchanged |
| `StructurePaths.PathsIgnoreSourceOrder` | src/affordance_runtime/agent/attempt_signature.py:173-227 | reordering the sources leaves the multiset of paths unchanged |
| `StructurePaths.SortedPathsAreIdentity` | src/affordance_runtime/agent/attempt_signature.py:173-227 | sorted by an injective text, the paths are the same after renaming the ids and reordering the sources |
| `StructurePaths.OrdinalCountsEarlierSiblings` | src/affordance_runtime/agent/attempt_signature.py:187-195 | with ids unique in a source, the ordinal of an entry is the number of earlier indistinguishable siblings |
| `StructurePaths.SiblingsHaveDistinctEntries` | src/affordance_runtime/agent/attempt_signature.py:187-203 | two different siblings never get the same entry |
| `StructurePaths.PathsFollowAncestors` | src/affordance_runtime/agent/attempt_signature.py:182-208 | a path describes a chain of distinct nodes, each the parent of the next, of at most 8 entries |
| `StructurePaths.PathsInSourceAre` | src/affordance_runtime/agent/attempt_signature.py:173-208 | in each source exactly the nodes that stand for the target have a path, one each and in order |
| `StructurePaths.PathsAreOfSources` | src/affordance_runtime/agent/attempt_signature.py:173-227 | the paths of a target are those of the nodes that a link names or that carry its id in an observation of it |
| `EpisodeMonitors.EpisodeMonitor.Evaluate` | src/affordance_runtime/agent/monitor.py:250-553 | the new fields and the advice of one step, for every branch |
| `EpisodeMonitors.EpisodeMonitor.RestoreEpisode` | src/affordance_runtime/agent/monitor.py:123-177 | the monitor restored from a snapshot and a signal |
| `EpisodeMonitors.EpisodeMonitor.RecordTransition` | src/affordance_runtime/agent/monitor.py:555-566 | the bounded window, whether the transition recurred, and the cycle it closes |
| `MonitorAdvice.AdviceOutsideCentre` | src/affordance_runtime/agent/monitor.py:250-553 | an open step outside a centre is advised to recover if and only if a tool was refused, the step returns to a result or closes a cycle, or it is idle and stalls, and it is blocked if and only if a repeat was rejected or the stall repeats a prohibited attempt |
| `MonitorAdvice.AdviceInCentre` | src/affordance_runtime/agent/monitor.py:313-401 | inside a centre there is no further recovery; a step is blocked if and only if it neither makes progress nor moves the world and its repeat was rejected, it re-enters an armed or signalled centre, or would be the seventeenth member |
| `MonitorAdvice.ClosedTaskContinues` | src/affordance_runtime/agent/monitor.py:288-301 | a step on a task that is finished, impossible or not evaluated only continues |
| `MonitorAdvice.SignalIs` | src/affordance_runtime/agent/monitor.py:196-245 | a signal goes out with every recovery and block and nothing else, is numbered by the epoch it opens, describes the active centre and prohibits at most the attempt just made |
| `MonitorAdvice.SignalProhibits` | src/affordance_runtime/agent/monitor.py:612-700 | of a control stall a signal prohibits the attempt exactly when the step incriminates itself: it was refused, is proved to do nothing, or has brought the run here before; of an oscillation it prohibits nothing |
| `MonitorCourse.StepTakesCourse` | src/affordance_runtime/agent/monitor.py:250-553 | every step takes one of twelve courses, and the centre, the remembered attempt, both streaks, the gravity and the window it leaves are those of a table by course |
| `MonitorCourse.RestoredIs` | src/affordance_runtime/agent/monitor.py:123-177 | whatever is restored is a fresh episode but for the centre (that of the signal before that of a snapshot of the same world), the later epoch, the signal and the attempt it prohibits |
| `MonitorAdvice.RunCounts` | src/affordance_runtime/agent/monitor.py:250-553 | over every run the no-progress count is the number of unproductive steps and the epoch counter the number of signals |
| `TransitionCycle.ShortestRepeat` | src/affordance_runtime/agent/monitor.py:728-740 | the loop over periods returns the repeated word |
| `TransitionCycle.ShortestRepeatIsLeast` | src/affordance_runtime/agent/monitor.py:728-733 | a word is returned exactly when the window ends in a repetition of period at least two with two distinct digests, and its period is the least |
| `TransitionCycle.CanonicalIsLeastRotation` | src/affordance_runtime/agent/monitor.py:734-735 | the canonical form is a rotation that no rotation precedes |
| `TransitionCycle.CanonicalIdentifiesRotations` | src/affordance_runtime/agent/monitor.py:734-738 | two cycles have the same canonical form if and only if one is a rotation of the other |
| `MonitorTheorems.InvIsKept` | src/affordance_runtime/agent/monitor.py:250-553 | a centre has between 1 and 16 members, an unarmed centre has its signal outstanding, and an outstanding signal describes the centre, after every guarded step |
| `MonitorTheorems.InvIsKeptExactly` | src/affordance_runtime/agent/core_loop.py:1034-1053 | a step keeps this invariant if and only if it carries a task evaluation or no unarmed centre is active |
| `MonitorTheorems.RestoredIsSound` | src/affordance_runtime/agent/monitor.py:123-193 | a monitor restored from the snapshot and the signal of a sound one is sound |
| `MonitorTheorems.SnapshotsAreAdmissible` | src/affordance_runtime/agent/monitor.py:179-193 | every point of a guarded episode has a snapshot its constructor accepts |
| `MonitorTheorems.ActiveCentreBlocks` | src/affordance_runtime/agent/monitor.py:313-401 | an active centre blocks a stuck run, GUI steps included, before it could hold a seventeenth member |
| `MonitorTheorems.StallBound` | src/affordance_runtime/agent/monitor.py:250-553 | from the start of an episode, evaluated observation-only steps on an unchanged world without new information are blocked within max(2, limit) + 16 steps |
| `MonitorTheorems.StallBoundAnywhere` | src/affordance_runtime/agent/monitor.py:250-553 | the same bound from any point of any guarded episode |
| `MonitorAdvice.RepeatedDeadActionIsBlocked` | src/affordance_runtime/agent/monitor.py:486-553 | repeating one action after which world, findings and information are the same is answered by recovery or a block no later than its second occurrence and blocked no later than its third |
| `MonitorAdvice.DeadActionBound` | src/affordance_runtime/agent/monitor.py:250-553 | the same from any point of any guarded episode |
| `MonitorTheorems.UnevaluatedStepDisarms` | src/affordance_runtime/agent/core_loop.py:1034-1053 | a step without evaluation consumes the signal of an unarmed centre and leaves it unarmed |
| `MonitorTheorems.DisarmedCentreBlocksExactly` | src/affordance_runtime/agent/monitor.py:352-401 | such a centre blocks a stuck step if and only if the step would be its seventeenth member |
| `MonitorTheorems.ReenteringADisarmedCentreNeverBlocks` | src/affordance_runtime/agent/monitor.py:352-401 | so a run that only re-enters it, however long, is never blocked |
| `MonitorTheorems.AuthorityDecides` | src/affordance_runtime/agent/monitor.py:313-401 | while a centre is active, world, centre, epoch counter and the presence of a signal decide the advice and their own next values |
| `MonitorTheorems.PauseBisimulation` | src/affordance_runtime/agent/monitor.py:123-193 | restoring from the snapshot and the outstanding signal into the same world gives the same advice, centre and epochs on every later run until the centre is cleared |
| `RunControlObject.CooperativeRunControl.Submit` | src/affordance_runtime/agent/run_control.py:123-148 | the reply to a command, the new pending slot and history, and the protocol invariant of the object |
| `RunControlObject.CooperativeRunControl.RecordOutcome` | src/affordance_runtime/agent/run_control.py:247-252 | appends the outcome and evicts the oldest, as the eviction loop does |
| `RunControlTheorems.CallKeepsExactlyWhenFresh` | src/affordance_runtime/agent/run_control.py:123-252 | a call keeps the protocol invariant (a duplicate-free bounded history equal to the outcome keys, the pending command not in it, nothing or a cancel pending at a pause) if and only if it neither resumes a pause under the pending identity nor restores an outcome already logged |
| `RunControlTheorems.ResumeLogsThePending` | src/affordance_runtime/agent/run_control.py:217-232 | a resume under the pending identity keeps the history sound but logs the command while it is still pending |
| `RunControlTheorems.SettlingALoggedCommandBreaks` | src/affordance_runtime/agent/run_control.py:150-215 | acknowledging, failing or resolving a command that is already logged breaks the history |
| `RunControlTheorems.ResumeFailureIsReachable` | src/affordance_runtime/agent/run_control.py:123-232 | five calls from a fresh control break the history this way |
| `RunControlTheorems.RestoreKeepsExactly` | src/affordance_runtime/agent/run_control.py:234-252 | an accepted restore keeps the history sound if and only if the outcome is not logged yet |
| `RunControlTheorems.RestoreFailureIsReachable` | src/affordance_runtime/agent/run_control.py:123-252 | after a pause and a resume, restoring that pause breaks the history |
| `RunControlTheorems.SettledIsLogged` | src/affordance_runtime/agent/run_control.py:150-215 | a settled command gets its own outcome, of the kind the call decides, logged in that call |
| `RunControlTheorems.ReplyIs` | src/affordance_runtime/agent/run_control.py:123-148 | a request is a duplicate if and only if its identity is settled or pending, conflicts if and only if it is new and a pause finds anything under way or a cancel finds a cancel pending outside a pause, and only an accepted one changes anything |
| `RunControlTheorems.PausedIs` | src/affordance_runtime/agent/run_control.py:150-245 | the run is at a pause from an acknowledged or restored pause on, until a resume or an acknowledged cancel |
| `RunControlTheorems.AcknowledgedAt` | src/affordance_runtime/agent/run_control.py:150-188 | an acknowledged command gets its outcome with the boundary that acknowledged it, logged in that call |
| `RunControlTheorems.CallConservesExactly` | src/affordance_runtime/agent/run_control.py:123-148 | accepted commands are conserved exactly when the call is not a second cancel at a pause |
| `RunControlTheorems.ProtocolHolds` | src/affordance_runtime/agent/run_control.py:108-252 | over all call sequences of such callers the history is sound and every acceptance is pending or settled exactly once |
| `RunControlTheorems.CancelIsNotDisplaced` | src/affordance_runtime/agent/run_control.py:123-148 | a pending cancel is never displaced by a pause |
| `RunControlTheorems.SecondCancelLosesTheFirst` | src/affordance_runtime/agent/run_control.py:129-136 | the excluded case: a second cancel at a pause overwrites the first, which gets no outcome |
| `RunControlTheorems.CancelAtAPauseIsReachable` | src/affordance_runtime/agent/run_control.py:123-167 | such a state is three calls from a fresh control |
| `RunStateObject.Run.Apply` | src/affordance_runtime/agent/run_state.py:756-836 | the whole new state of a step, or no change when it raises |
| `RunStateObject.Run.ApplyControlBoundary` | src/affordance_runtime/agent/run_state.py:686-697 | the new state at a control boundary |
| `RunStateObject.Run.CommitDurablePause` | src/affordance_runtime/agent/run_state.py:725-742 | the new state of a durable pause |
| `RunStateObject.Run.InstallEffectReconciliation` | src/affordance_runtime/agent/run_state.py:626-634 | installing a reconciliation |
| `RunStateObject.Run.RequireInput` | src/affordance_runtime/agent/run_state.py:636-647 | closing a reconciliation by required input |
| `RunStateObject.Run.InstallDeliveryIndex` | src/affordance_runtime/agent/run_state.py:653-657 | the new delivery index, of the current world only |
| `RunStateObject.Run.InstallObservationProjection` | src/affordance_runtime/agent/run_state.py:667-675 | the new projection, of the current world and the installed canonical world only |
| `RunStateTheorems.ApplyRaisesOnlyUpFront` | src/affordance_runtime/agent/run_state.py:756-836 | a step that fails does so before any field is written |
| `RunMoves.ValidIs` | src/affordance_runtime/agent/run_state.py:468-583 | the constructor checks, grouped by what the state holds: facts of one world, of one task revision, and one pause or none |
| `RunMoves.StepControls` | src/affordance_runtime/agent/run_state.py:783-836 | the status, boundary and stop reason an applied step leaves |
| `RunMoves.StepViews` | src/affordance_runtime/agent/run_state.py:776-826 | the views of a world go with it: a new world has its own index, sets the old one aside and has no projection |
| `RunMoves.PauseIsCommitted` | src/affordance_runtime/agent/run_state.py:725-742 | exactly when a pause becomes durable |
| `RunMoves.PauseRoundTrip` | src/affordance_runtime/agent/run_state.py:699-742 | a durable pause comes back to where it paused from, and nothing but the boundary is gone |
| `RunMoves.BoundaryIsTaken` | src/affordance_runtime/agent/run_state.py:686-697 | every run that has not ended takes on a reached boundary; a cancel ends it, whatever it was doing |
| `RunMoves.OnlyCurrentIsInstalled` | src/affordance_runtime/agent/run_state.py:626-675 | nothing of another world, lineage or revision is installed, and a demand only where there is none |
| `RunLedger.CountersAddUp` | src/affordance_runtime/agent/run_state.py:756-836 | over every sequence of calls each counter is its start plus a sum over the applied steps: turns, observations, receipts, uncertain receipts, waiting time and decisions by kind; the remaining turns are what is left of them, never below zero |
| `RunLedger.LatestFactsStand` | src/affordance_runtime/agent/run_state.py:756-836 | the applied steps form a chain of worlds; the run is on the world of the last one, with its evaluation, the effect of the last receipt and the last finalisation |
| `TurnBudget.BudgetBoundsTurns` | src/affordance_runtime/agent/core_loop.py:903-909 | through the guard of the loop, and as long as no last turn only waits, no more turns are consumed than the run had, and the run has ended when all are |
| `TurnBudget.BudgetIsKeptExactly` | src/affordance_runtime/agent/core_loop.py:903-909 | a run without a turn left has ended after a call if and only if the call did not spend the last turn on waiting |
| `TurnBudget.WaitingOutlivesTheBudget` | src/affordance_runtime/agent/core_loop.py:903-909 | the budget fails for a last turn that waits: once resumed, the run can take any number of turns |
| `RunStateTheorems.ChecksSurviveExactly` | src/affordance_runtime/agent/run_state.py:468-583 | every constructor check survives a call if and only if the caller met the stated condition on receipts, status and reconciliation |
| `RunStateTheorems.PausedStepCorrupts` | src/affordance_runtime/agent/run_state.py:756-784 | a step that ends paused leaves a state the constructor refuses |
| `RunStateTheorems.MismatchedBoundaryCorrupts` | src/affordance_runtime/agent/run_state.py:783-787 | so does a step whose control boundary reports a cancel for a pause command |
| `RunStateTheorems.LaterReceiptCorrupts` | src/affordance_runtime/agent/run_state.py:795-817 | so does a receipt after the compensation was closed as compensated |
| `RunStateTheorems.ClosedDemandCorrupts` | src/affordance_runtime/agent/run_state.py:626-634 | so does installing a reconciliation that already names a compensation |
| `RunStateTheorems.InputWithEffectCorrupts` | src/affordance_runtime/agent/run_state.py:636-647 | so does requiring input with an effect that is not the latest |
| `RunStateTheorems.TerminalIsAbsorbing` | src/affordance_runtime/agent/run_state.py:677-836 | a terminal status is never left |
| `RunStateTheorems.RunsKeepChecks` | src/affordance_runtime/agent/run_state.py:468-836 | over every sequence of calls the constructor checks hold and a terminal status stays |
| `RunStateTheorems.PendingCloses` | src/affordance_runtime/agent/run_state.py:795-817 | receipts close a pending reconciliation without failing a constructor, as compensated exactly for one sent receipt on the same resource with a satisfied postcondition |
| `RunStateTheorems.ReconciliationStep` | src/affordance_runtime/agent/run_state.py:795-817 | one call leaves a reconciliation alone or closes a pending one with the verdict its receipts deserve |
| `RunStateTheorems.PendingUntilClosed` | src/affordance_runtime/agent/run_state.py:858-880 | until receipts or required input, the demand and the effect stay as installed |
| `RunStateTheorems.ClosedForGood` | src/affordance_runtime/agent/run_state.py:626-647 | a closed demand is never reopened or rewritten |
| `RunStateTheorems.DemandIsInstalled` | src/affordance_runtime/agent/run_state.py:626-634 | a demanded compensation installs on the revised run and keeps it valid |
| `Reconciliation.AssessmentsAreAdmissible` | src/affordance_runtime/actions/reconciliation.py:83-145 | every assessment passes its own constructor |
| `Reconciliation.VerdictsAre` | src/affordance_runtime/actions/reconciliation.py:83-145 | exactly when each disposition is given, and which of dispatch, lineage and semantics is unknown where nothing is decided |
| `Reconciliation.AssessmentsAre` | src/affordance_runtime/actions/reconciliation.py:32-80 | every reason belongs to one disposition and says whether there is an effect to show |
| `Reconciliation.ReconciliationsAre` | src/affordance_runtime/actions/reconciliation.py:166-210 | a reconciliation is admitted if and only if it undoes a sent effect that can be undone, in a later revision, with the outcome its status calls for |
| `Reconciliation.VerdictIsInstallable` | src/affordance_runtime/actions/reconciliation.py:83-210 | a verdict that demands compensation meets the constructor of the reconciliation for a later task revision |
| `Reconciliation.AttemptCloses` | src/affordance_runtime/actions/reconciliation.py:226-254 | closing an attempt never fails and gives the stated verdict |
| `Reconciliation.FailedAttemptsAre` | src/affordance_runtime/actions/reconciliation.py:226-254 | why a closing attempt failed: another resource before an unknown dispatch before a missing verification |

## Left out

- Text of admission issues, their public paths and their value summaries: an issue is present or absent.
- Schema keywords whose value is JSON null: the contract checker treats some of them as absent and the validators then raise a type error.
- Negative zero, and floats beyond finite, infinite and not-a-number; finite floats are reals.
- `ActionSpaces.Build`: options are listed in the order their contracts are first published and issues as a table; sorting both for display, the option description and the action-space digest are not modelled, and selectors are visited in first-seen order because the tables do not depend on it.
- `ActionSpaces.Build`: the capability registry checks of the option constructor (parameter schema kind, verification family, sealed contract) are not part of this model.
- `Admission.AdmitNeverAsserts`: the bounded expected outcome, a one-branch check, is not modelled.
- `RouteSelector.AdmissionImpliesRoute`: of the bound request, the intent, time limit and verification needs are not modelled, nor is its verification contract, which is a function of the compared fields.
- `PagingTheorems.PagesAreValid`: the page id, which the constructor recomputes by the same function, is not modelled.
- `ActionDelivery.RankingIsOfAllowed`: relevance classification is a parameter; looking prioritised options up by id is the identity under unique ids and not modelled separately.
- `StructurePaths.PathsIgnoreSourceOrder`: speaks of the unsorted paths; `SortedPathsAreIdentity` adds the sort, by any injective text in place of the JSON encoding.
- `GeometryPartition.Resolve`: the role, label and supported actions of the unified affordance are not modelled; the normalised name of a descriptor and the numeric bounding box of a payload are given; the execution plan and its score are not modelled.
- `EpisodeMonitors.EpisodeMonitor.Evaluate`: the instruction text and evidence of a recovery signal, and findings digests of an unread world, are not modelled; attempt signatures are given with the step.
- `RunStateObject.Run.Apply`: the workspace, action-page, discovery, delivery-store and recovery-signal fields that a step only copies are not modelled, nor is the task revision that the core loop writes directly.
- Cursor encoding is any function that decoding with the same fingerprint inverts.
- `RunControlObject.CooperativeRunControl.Submit`: the form of command identities (not blank, at most 128 characters) is not checked; nor is that of failure codes.
- Relevance scoring, fuzzy matching, history projection, leases, contract sealing, freezing and all input and output.
