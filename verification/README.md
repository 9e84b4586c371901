# Hemera: a verified model

Hemera loads a web page, turns what it sees into typed signals, and decides for every detector rule whether it is
`detected`, `not_detected` or covered insufficiently. This project models the parts of Hemera where that decision is
made or protected, and proves what they promise. `dafny verify dfyconfig.toml` checks all of it.

**The detection engine.** A rule is an all/any tree of weighted predicates with correlation groups, penalty evidence,
conflicts and required rules. Three evaluators run over the same tree: matching (`Matching`), scoring (`Scoring`,
`Detections`) and coverage (`Coverage`, `Status`, `Scanner`). The first two take lists of signals and a cache per
signal, the third bounds what unseen signals could still do. All are methods with loops, caches and memo tables as in
the source, and each is proved against a function of the *set* of signals; so order and repetition of signals leave no
trace. The central claim is `Conclusive.NotDetectedIsConclusive`: a `not_detected` verdict excludes detection on every
set of signals that the incomplete channels could still have completed. It needs confidence 1 of what was observed, or a
little less: `ConclusiveExactly.ConclusiveIffSettledWithin` gives the exact condition for any class of patterns, with
families of counterexamples where it fails, among them one of literals only. `ExactStatus` proves the converse
direction: with complete channels the status is exact, given that no ungrouped evidence id is also a group name.
`Ambiguity.ExactIffNoCollision` shows that this condition is exact. `BestCase` and `CoverageMeanings` give the verdicts
and their sources exactly while channels are incomplete, in terms of matching and scoring alone. `PatternMeanings`,
`PartialOutcomes` and `Explanations` say what a predicate, an outcome and a detection mean without the functions that
compute them.

**Validation.** `SchemaValidation` and `DependencyGraph` prove that `RuleSet.Validate` accepts exactly the rule sets
that the engine's theorems assume, with the depth-first search accepting exactly the acyclic `Requires` relations.
`SupportStandard` proves that the reachability checks on shipped rules are bounds, and that they are attained.
`Identifiers` says which names are accepted.

**Shared state of a navigation.** `RequestTracker` is a step system: any number of threads run acquire, release and
releaseAll, one critical section at a time. `RequestHistory` follows one request through a run: at which section a grant
took effect, and when it still holds at the return. `NavigationBudget` is the shared budget as an object and as a
machine over call sequences, and `BudgetedCopy` adds the copy loop and any number of concurrent copies.

**Capture and normalization.** `Capture` is the collector that correlates interleaved request lifecycles by id;
`Lifecycles` says field by field what a request ends up as; `CaptureLaws` and `CaptureLimits` prove that interleaving
does not matter and what the ceilings cut off; `Normalize` carries this to the sorted, de-duplicated signals that rules
see, which `EmissionMeanings` describes. `ChannelCompleteness` closes the circle: it compares a run with the run without
ceilings, and proves when what the browser declares complete justifies the hypothesis of conclusive negatives
(`ChannelCompleteness.VerdictsHoldIffNothingBetrays`). `Snapshots` adds the final snapshot, and with the theorems on the
serializer discharges what is assumed of its flags (`Snapshots.PageVerdictsHoldIff`).

**The bounded DOM serializer.** `DomModel` says what the script processes, token after token; `DomSerializer` is the
explicit-stack walk; `DomLaws`, `DomPieces` and `DomBounds` relate it to a plain recursive serializer and say exactly
when each of its flags is raised; `Readback` and `Escaping` prove that the text determines the document, and
`DomSources` where resource URLs come from; `DomPrefix` and `DomTruncation` say exactly when a truncated text is a
prefix of the whole.

`Ordering`, `OrderMeanings`, `Sums`, `Interleaving`, `Utf16` and `Utf8` hold the general facts.

Where the code and its documentation disagree, the model follows the code:

- `internal/browser/capture.go:132-134` says that `RequestsTruncated` also reports an omitted oversized request URL.
  `beginRequest` uses `cleanURL`, which drops such a URL with a warning only
  (`CaptureLimits.OversizedRequestsAreLostInSilence`). The flag means what is documented exactly under the condition of
  `CaptureLimits.FlagIsDocumentedIff`. The coverage built on it can therefore refute a rule wrongly, under the condition of
  `ChannelCompleteness.VerdictsHoldIffNothingBetrays`.
- The serializer's URL ceiling is meant in bytes, but its scratch buffer holds one byte more
  (`DomBounds.FitsURLExactly`, `DomBounds.OneByteTooLong`).

Conventions: weights, scores, confidences and timestamps are `real`; strings in rules and signals are character
sequences; strings in the collector are byte strings, and texts in the serializer are sequences of UTF-16 code units.
Library behaviour enters as parameters: a regular expression as its text and what compiling it yields, nothing or an
accepted language; how a text of the page is handed over as any function; lower-casing as a mapping of characters of
which nothing is assumed; URL parsing, metadata cleaning and decimal formatting as functions; readers and writers as
scripts of outcomes; the environment of the tracker as an input to every step.

## Model

| member | source | states |
|---|---|---|
| `Conclusive.NotDetectedIsConclusive` | internal/scanner/scanner.go:348-461 | If a rule of a validated rule set is `not_detected` on settled signals (all of confidence 1, for instance), then on every larger set of signals that adds only registry-supported signals of incomplete channels it is not detected either, with all dependencies, penalties and conflicts. |
| `Conclusive.ForeseenIsConclusive` | internal/scanner/scanner.go:348-461 | The same rule set by rule set: a `not_detected` verdict holds in every larger set of signals in which each predicate of the rules is matched no more strongly than seen or, if it was unmatched, is open to an incomplete channel. |
| `Conclusive.ReportedNegativesAreConclusive` | internal/scanner/scanner.go:463-473 | The same from report to report: a `not_detected` entry of the coverage list of one scan excludes `detected` in the detections of any admissible future. |
| `ConclusiveExactly.ConclusiveIffSettledWithin` | internal/rules/condition_coverage.go:81-93 | For any class of patterns: over all valid rule sets with patterns of the class and all admissible futures, `not_detected` verdicts are conclusive if and only if every valid predicate with such patterns that an incomplete channel could still match is unmatched or matched with certainty. |
| `ConclusiveExactly.LoadableConclusiveIff` | internal/rules/schema.go:495-500 | The instance for what rule documents can hold: whatever the compiler that maps an expression and its case flag to a language, the same equivalence over literals and expressions that denote what the compiler yields. |
| `ConclusiveExactly.UncertainIsOverturned` | internal/rules/match.go:277-293 | The failing family with literals only: an uncertain observation of an incomplete channel, of fields that are not empty and within the pattern size, overturns a verdict of a rule set of four exact literals once the channel repeats it with certainty. |
| `ConclusiveExactly.VerdictsHoldIff` | internal/scanner/scanner.go:363-460 | For any class of patterns, and any certain signals added: no `not_detected` verdict of a valid rule set over the class is contradicted if and only if no valid predicate over the class matches an added signal although its coverage excludes that. |
| `ConclusiveExactly.ConclusiveIffSettled` | internal/rules/condition_coverage.go:81-93 | The idealised statement, in which a regular expression may denote any predicate whatever its text: verdicts on a set of signals are conclusive, over all such rule sets and all admissible futures, if and only if no incomplete channel could repeat an observed content with more certainty. |
| `ConclusiveExactly.UnsettledIsOverturned` | internal/rules/condition_coverage.go:81-93 | The failing family: any valid predicate that is matched without certainty, and that an incomplete channel could still match, gives a valid rule set with no other patterns whose `not_detected` verdict is overturned. |
| `Conclusive.FutureReaches` | internal/rules/condition_coverage.go:219-276 | A rule that meets its own thresholds in a larger set of signals that its predicates foresee (in any admissible future of settled signals, for instance) is never closed by `EvaluateRuleCoverage` now: the reachable score and group count are upper bounds. |
| `BestCase.CoverIsBestCase` | internal/rules/condition_coverage.go:68-215 | In the best case of what is unknown (every unseen predicate that an incomplete capable source could match is matched with certainty, and no other changes), a condition is satisfiable exactly if it matches, and its potential evidence is the matched evidence, score by score. |
| `BestCase.ClosedIffMissedAtBest` | internal/rules/condition_coverage.go:219-276 | The converse of `Conclusive.FutureReaches`: without a collision of names, an undetected rule is closed by its own coverage exactly if it would miss a threshold in the best case: the condition, the positive total less the penalties seen, or the number of matched groups. |
| `BestCase.NotDetectedIffMissed` | internal/scanner/scanner.go:363-460 | Lifted to the scan: `not_detected` exactly if the rule is not detected and an undetected rule in the closure of its requirements would miss its thresholds in the best case; `insufficient_coverage` exactly if none would. |
| `BestCase.OpeningFills` | internal/rules/condition_coverage.go:74-122 | Best cases exist wherever certain signals of open predicates match no closed predicate and no weaker match. |
| `CoverageMeanings.PotentialIsShowing` | internal/rules/condition_coverage.go:68-215 | The potential evidence is that of the predicates shown in the best case, in document order: a seen one with its weighted confidence, an open one with its full weight and exactly its incomplete capable sources. |
| `CoverageMeanings.StateIsOfPotential` | internal/rules/condition_coverage.go:131-214 | A condition is `not_matched` exactly if unsatisfiable, and otherwise unknown exactly if some potential evidence is unknown; its incomplete sources are those that unknown potential evidence names. |
| `CoverageMeanings.RequiredIsConsulted` | internal/rules/condition_coverage.go:131-214 | The required sources are exactly those that can produce a predicate that is looked at, where an all-condition stops behind its first unsatisfiable child. |
| `CoverageMeanings.OpenVerdictLists` | internal/scanner/scanner.go:394-460 | An `insufficient_coverage` verdict lists exactly the open sources of the unseen predicates, shown in the best case, of the undetected rules in the closure of its requirements. |
| `CoverageMeanings.VerdictRequires` | internal/scanner/scanner.go:394-460 | The required sources of a verdict are exactly those that can produce a predicate looked at in the rule itself or in a dependency of an undetected rule in its closure. |
| `Conclusive.PenaltiesSeenGrow` | internal/scanner/scanner.go:373-392 | The penalties that a scan subtracts are at most those of every future in which the rule is a candidate. |
| `Conclusive.PositiveScoreGrows` | internal/scoring/scoring.go:215-261 | The positive score of a candidate does not fall as signals are added. |
| `Conclusive.ConflictsGrow` | internal/scoring/scoring.go:137-153 | The conflict penalties applied to a rule do not fall as signals are added. |
| `CoverageLaws.CertainIsSettled` | internal/browser/analyzer.go:150-153 | Signals of confidence 1, as the analyzers emit them, meet the hypothesis of conclusive negatives. |
| `CoverageLaws.NoStrongerMatch` | internal/rules/condition_coverage.go:81-93 | A predicate that is matched, and settled, is not matched with more confidence in any admissible future. |
| `CoverageLaws.SettledIsForeseen` | internal/rules/condition_coverage.go:74-122 | What an admissible future does to a settled predicate is foreseen by its coverage. |
| `CoverageLaws.FutureIsBounded` | internal/rules/condition_coverage.go:68-215 | A condition that matches in a larger set of signals that its predicates foresee is satisfiable now, and each piece of its later evidence is covered by a potential evidence of its own that scores at least as much. |
| `CoverageLaws.BoundedScores` | internal/rules/condition_coverage.go:219-276 | Evidence bounded by potential evidence scores no more and has no more groups than the group summaries, although the two group ungrouped evidence differently. |
| `CoverageLaws.KeysSeparate` | internal/rules/condition_coverage.go:238-241 | The key `__independent_i` never equals a group name or the key of another position. |
| `CoverageLaws.CoverSourced` | internal/rules/condition_coverage.go:68-215 | Every potential evidence comes from a leaf of its own of the condition. |
| `Exactness.CoverExact` | internal/rules/condition_coverage.go:68-215 | A satisfiable condition without unknown potential evidence matches, and its potential evidence is its matched evidence with the same scores. |
| `Exactness.SplitAgreesIffNoCollision` | internal/rules/condition_coverage.go:238-241 | Coverage groups and scoring groups have the same totals if and only if no ungrouped evidence id is the group name of other evidence. |
| `Exactness.OwnIsExact` | internal/rules/condition_coverage.go:219-276 | Without such a collision, a rule left open with no incomplete source meets its thresholds already. |
| `Exactness.CoverNames` | internal/rules/condition_coverage.go:68-215 | Incomplete sources of potential evidence are capable, incomplete, and among the required sources. |
| `ExactStatus.InsufficientNamesAChannel` | internal/scanner/scanner.go:394-460 | Without a collision `insufficient_coverage` always lists at least one incomplete source. |
| `ExactStatus.NamedSourcesAreOpen` | internal/scanner/scanner.go:394-460 | Only `insufficient_coverage` lists incomplete sources, all of them among the required ones, and each is an incomplete capable source of evidence of the rule or of a rule it requires. |
| `ExactStatus.InsufficientMeansIncomplete` | internal/scanner/scanner.go:394-460 | Without a collision, an `insufficient_coverage` verdict exhibits a registered channel that is incomplete. |
| `ExactStatus.CompleteMeansExact` | internal/scanner/scanner.go:363-460 | Without a collision, when every registered channel is complete the status is `detected` or `not_detected` as scoring decides. |
| `Ambiguity.OpenWithoutAChannel` | internal/rules/schema.go:430-435 | Every collision does harm: any valid list of evidence names in which an ungrouped id is also a group name belongs to a valid rule set that ends in `insufficient_coverage` without any source, whatever the channels, even all complete ones. |
| `Ambiguity.ExactIffNoCollision` | internal/scanner/scanner.go:394-460 | With complete channels, the status is what scoring decides for all valid rule sets whose evidence carries the given ids and groups, and all signals, if and only if no ungrouped id is also a group name. |
| `Information.MoreInformation` | internal/scanner/scanner.go:394-460 | Making the completer pointwise more complete keeps `detected` and `not_detected`, can only resolve `insufficient_coverage` to `not_detected`, and never adds an incomplete source. |
| `Status.AnswersSolve` | internal/scanner/scanner.go:363-460 | The recursion of `evalRule` has a closed form: refuted iff some rule reachable through `Requires` is closed by its own coverage, with the incomplete and required sources of what is consulted. |
| `Status.StatusUnfold` | internal/scanner/scanner.go:394-429 | A rule is refuted iff its own coverage closes it or a direct dependency is `not_detected`. |
| `Status.OpenUnfold` | internal/scanner/scanner.go:400-442 | The incomplete sources of an open rule are its own and those of its open dependencies. |
| `Scanner.CoverageResolver.EvalRule` | internal/scanner/scanner.go:348-362 | The memoised recursion terminates, never takes the fallback for a rule under evaluation, and returns the closed form. |
| `Scanner.CoverageResolver.Resolve` | internal/scanner/scanner.go:363-460 | One rule: the loop over dependencies and the decisions after it agree with the closed form. |
| `Scanner.SumObservedPenalties` | internal/scanner/scanner.go:373-390 | The observed penalties are the magnitudes of negative and ambiguous evidence and of applied conflicts. |
| `Scanner.TablesResolve` | internal/scanner/scanner.go:320-337 | The tables built before the recursion describe the rules, conditions and detections that the closed form is about. |
| `Scanner.FactsConsistent` | internal/scanner/scanner.go:363-371 | Detected facts agree with the dependency graph: dependencies of a detected rule are detected. |
| `Scanner.BuildDetectionCoverage` | internal/scanner/scanner.go:311-474 | For a validated rule set and its detections, one state per rule in document order, each the closed form of its rule over the set of signals. |
| `Completeness.BuildCapabilityCompleter` | internal/scanner/scanner.go:499-524 | A source that claims capabilities is complete for a type exactly if it claims so; a source that claims nothing is complete exactly if its run was. |
| `Ordering.DeduplicateSorted` | internal/scanner/scanner.go:476-488 | The strictly sorted list of exactly the given strings. |
| `Ordering.SortByCanonical` | internal/browser/capture.go:518-551 | With a strict total comparator the sorted list does not depend on the order of the input. |
| `Ordering.BeforeStrictTotal` | internal/scanner/scanner.go:476-488 | The string order is a strict total order. |
| `OrderMeanings.BeforeIffParts` | internal/scanner/scanner.go:476-488 | One string comes before another exactly if, where they part, it has ended or has the smaller character. |
| `Coverage.EvaluateConditionCoverage` | internal/rules/condition_coverage.go:68-215 | The accumulating evaluator, over caches in any state, returns the three-valued coverage of the condition on the set of signals. |
| `Coverage.EvaluateLeaf` | internal/rules/condition_coverage.go:74-122 | A leaf is matched with its strongest signal, closed if every capable source is complete, and otherwise potential with full confidence. |
| `Coverage.EvaluateAllCoverage` | internal/rules/condition_coverage.go:131-167 | An all-condition fails at its first unsatisfiable child and otherwise collects all potential evidence. |
| `Coverage.EvaluateAnyCoverage` | internal/rules/condition_coverage.go:169-214 | An any-condition is satisfiable if a child is, and collects the potential evidence of all satisfiable children. |
| `Coverage.EvaluateRuleCoverage` | internal/rules/condition_coverage.go:219-276 | The own coverage of a rule: closed unless the group maxima, less the observed penalties, and the number of groups can reach the thresholds. |
| `Coverage.SumGroups` | internal/rules/condition_coverage.go:255-260 | The sum over the group map does not depend on the order in which its keys are visited. |
| `Coverage.ParseDecimal` | internal/rules/condition_coverage.go:238-241 | The decimal position in a group key can be read back, so positions do not collide. |
| `Capabilities.NewCapabilityRegistry` | internal/rules/capability_registry.go:33-75 | Accepts exactly the lists of valid pairs, the empty list included, and then supports exactly the listed pairs. |
| `Capabilities.CapableSources` | internal/rules/capability_registry.go:96-108 | The sorted list of the registered sources that produce the type and satisfy the source pattern. |
| `Matching.StrongerTotal` | internal/rules/match.go:180-192 | `strongerSignal` is irreflexive, asymmetric and total on distinct signals. |
| `Matching.StrongerTransitive` | internal/rules/match.go:180-192 | `strongerSignal` is transitive. |
| `Matching.StrongestUnique` | internal/rules/match.go:157-178 | At most one matching signal is strongest, so the selected one depends on the set of signals only. |
| `Matching.StrongestMatch` | internal/rules/match.go:157-178 | The loop finds the strongest matching signal of the set, or none if none matches. |
| `Matching.CachedSignal.Field` | internal/rules/match.go:327-352 | The case-fold cache returns what folding the field character by character afresh would, whatever the mapping of characters, and stays valid. |
| `Matching.CachedSignal.MatchesEvidence` | internal/rules/match.go:252-275 | Matching over the cache agrees with uncached matching of all four patterns and the type. |
| `PatternMeanings.MatchesMeans` | internal/rules/match.go:277-293 | A predicate matches exactly the signals of its type of which each pattern says what it does: equal to the operand, or made up of it with anything around, behind, or before it; with the flag, of both texts folded. |
| `OrderMeanings.StrongerMeans` | internal/rules/match.go:180-192 | Of two signals the more confident is stronger; among equally confident ones the first of type, source, key, value and URL that differs decides, the smaller being stronger. |
| `Matching.EvaluateCondition` | internal/rules/match.go:90-141 | The accumulating evaluator refines the evaluation over the set of signals: matched, evidence, missing ids. |
| `Matching.MatchEvidenceList` | internal/rules/match.go:143-155 | The matches of penalty evidence over the set of signals. |
| `Matching.CountEvidenceGroups` | internal/rules/match.go:194-200 | The number of distinct groups of the evidence. |
| `Matching.Match` | internal/rules/match.go:43-82 | Fails exactly on an invalid rule set or signal; otherwise one result per rule in document order, a function of the set of signals. |
| `MatchingLaws.EvaluateGrows` | internal/rules/match.go:90-141 | A matched condition stays matched as signals are added, and every piece of evidence is found again at least as strong. |
| `MatchingLaws.CandidateGrows` | internal/rules/match.go:38-40 | A candidate stays a candidate as signals are added. |
| `MatchingLaws.MatchedIffNothingMissing` | internal/rules/match.go:90-141 | For a valid condition, matched iff the missing list is empty. |
| `MatchingLaws.MissingIsSufficient` | internal/rules/match.go:90-141 | For a valid condition, any superset of the signals that satisfies every listed missing predicate makes it match. |
| `PartialOutcomes.MissingIsNecessary` | internal/rules/match.go:90-141 | Wherever an unmatched condition matches in another set of signals, one of its listed predicates has been supplied there. |
| `PartialOutcomes.MissingExactly` | internal/rules/match.go:90-141 | An id is listed as missing exactly if it belongs to an unmatched leaf with no matched any-condition above it. |
| `PartialOutcomes.MissingIsLacking` | internal/rules/match.go:90-141 | The list names these leaves in document order. |
| `PartialOutcomes.EvidenceExactly` | internal/rules/match.go:90-141 | The evidence holds a match for exactly the matched leaves that do not lie below an unmatched child of a matched any-condition. |
| `PartialOutcomes.EvidenceIsShowing` | internal/rules/match.go:90-141 | The evidence lists these leaves in document order, each with its strongest signal. |
| `PartialOutcomes.MatchListExactly` | internal/rules/match.go:143-155 | Every penalty predicate that matches is listed once, in document order, with its strongest signal, and no other. |
| `Scoring.ScorePositive` | internal/scoring/scoring.go:215-261 | The groups partition the positive evidence, each selects a member of maximal raw contribution, only selected members contribute, and the total is the sum over groups and over members. |
| `Scoring.ScorePenalties` | internal/scoring/scoring.go:263-278 | Penalties are reported raw for every match and counted only for a candidate. |
| `Scoring.PartitionTotal` | internal/scoring/scoring.go:215-261 | Whatever the order of the groups of a partition, their maxima sum to the positive total. |
| `Sums.GroupMaximaMeaning` | internal/scoring/scoring.go:215-261 | The maximum of a group bounds all its members and is the score of one of them. |
| `Sums.BelowBounds` | internal/rules/condition_coverage.go:219-276 | Splitting groups more finely or adding members never lowers the number of groups or the sum of their maxima. |
| `Sums.BelowStrictly` | internal/rules/condition_coverage.go:238-241 | Telling two members of one group apart strictly raises both. |
| `Detections.Eligibility.Eligible` | internal/scoring/scoring.go:155-175 | The memoised recursion computes membership in the closed form: the rule and every rule it transitively requires is a candidate whose evidence score reaches its minimum. |
| `Detections.DetectedUnfold` | internal/scoring/scoring.go:155-175 | The closed form satisfies the recursion: standing by itself and all direct dependencies detected. |
| `Detections.ScoreMatches` | internal/scoring/scoring.go:100-213 | Fails exactly when the results are not one per rule; otherwise every detection reports candidate, detected, clamped score, level, missing dependencies, applied conflicts and explanation of its rule. |
| `Detections.ApplyConflicts` | internal/scoring/scoring.go:137-153 | The score is lowered by exactly the conflicts whose target is a candidate with a positive score, in document order. |
| `Detections.EvaluateSignals` | internal/scoring/scoring.go:75-81 | Fails exactly on an invalid rule set or signal; the detections are a function of the set of signals. |
| `Detections.DetectedMeans` | internal/scoring/scoring.go:178-212 | Detected iff candidate, enough groups, no missing dependency and reported score at least the minimum; a detected rule never has the level of an undetected one. |
| `Detections.MissingIffUndetected` | internal/scoring/scoring.go:180-190 | No dependency is reported missing iff all are detected. |
| `Detections.LevelCountsThresholds` | internal/scoring/scoring.go:178-212 | The level is the number of thresholds 25, 50, 75 and 90 that the score reaches. |
| `Explanations.ScoreAddsUp` | internal/scoring/scoring.go:100-213 | A detection explains its score: for a candidate, the contributions of its groups and penalties less its applied conflicts, kept within 0 and 100; otherwise zero; and zero with a missing dependency. |
| `Explanations.MissingAreUndetected` | internal/scoring/scoring.go:180-190 | The missing dependencies are exactly the undetected ones, in document order. |
| `Explanations.AppliedAreActive` | internal/scoring/scoring.go:137-153 | The applied conflicts are exactly those whose target is a candidate with a positive total, in document order. |
| `DependencyGraph.ValidateDependencyGraph` | internal/rules/schema.go:463-493 | Terminates and accepts exactly the rule sets whose `Requires` relation has no cycle. |
| `DependencyGraph.CycleSearch.Visit` | internal/rules/schema.go:463-493 | One visit: false only if a cycle exists; on true the rule and all it reaches are finished and the open rules are as before. |
| `DependencyGraph.RankFalls` | internal/rules/schema.go:463-493 | Along every edge of an acyclic graph a rank falls, so recursion over dependencies terminates. |
| `DependencyGraph.SupportedUnfold` | internal/scoring/scoring.go:155-175 | A property of everything reachable is a property of the rule and of all its direct dependencies. |
| `SchemaValidation.Validate` | internal/rules/schema.go:213-270 | Accepts exactly the valid rule sets: versions, sizes, valid rules, unique ids, resolved references, no cycle. |
| `SchemaValidation.ValidateRule` | internal/rules/schema.go:272-334 | Accepts exactly the valid rules: identifiers, ranges, condition, distinct evidence ids, enough groups, penalties, conflicts, dependencies. |
| `SchemaValidation.RuleValidator.ValidateCondition` | internal/rules/schema.go:336-387 | Accepts exactly well-formed conditions whose leaves fit the node budget with fresh ids, and records exactly their ids and groups. |
| `SchemaValidation.RuleValidator.ValidateEvidence` | internal/rules/schema.go:389-421 | Accepts exactly valid evidence with a fresh id, and records the id. |
| `SchemaValidation.RuleValidator.ValidatePenalties` | internal/rules/schema.go:423-428 | Accepts exactly valid ungrouped penalty evidence with fresh distinct ids. |
| `SchemaValidation.ValidateReferencesOf` | internal/rules/schema.go:235-264 | Accepts exactly rules whose dependencies and conflict targets are other known rules, each named once. |
| `SchemaValidation.ReferencesClose` | internal/rules/schema.go:235-264 | Valid references make the dependency graph closed, so closedness follows from validity. |
| `Identifiers.IdentifierIffJoined` | internal/rules/schema.go:36 | Identifiers are exactly lower-case alphanumeric words joined by single dots, underscores or hyphens. |
| `Utf8.ByteLengthCounts` | internal/rules/schema.go:448-450 | The size of a pattern is the number of bytes of its UTF-8 encoding. |
| `SupportStandard.GroupCollector.CollectEvidenceGroups` | internal/detectors/standard.go:84-101 | The recursive writes into the shared map leave the maximal weight of every group. |
| `SupportStandard.CheckReachable` | internal/detectors/standard.go:66-82 | Accepts exactly when the sum of the maxima reaches the minimum score and their number the minimum evidence. |
| `SupportStandard.MaximaAreBounds` | internal/detectors/standard.go:66-101 | For every set of signals the positive score and the matched group count are at most the computed maxima. |
| `SupportStandard.RefusedIsNeverDetected` | internal/detectors/standard.go:66-82 | A rule that the checks refuse is detected on no set of signals. |
| `SupportStandard.MaximaAreAttained` | internal/detectors/standard.go:66-82 | With nothing against the rule and every predicate met, it meets its thresholds iff the checks accept it. |
| `RequestTracker.RunsAreSafe` | internal/browser/chromedp.go:572-641 | Over every interleaving of any number of threads no run gets stuck, tokens equal active requests plus tokens held mid-operation, and never more than the limit are active. |
| `RequestTracker.StepKeepsInv` | internal/browser/chromedp.go:586-635 | Every critical section keeps that balance, and tokens within the limit. |
| `RequestTracker.NeverBlocked` | internal/browser/chromedp.go:586-635 | A drain of the channel is only reached with a token in it, so no section ever blocks. |
| `RequestTracker.QuietRunsBalance` | internal/browser/chromedp.go:572-641 | Between operations tokens equal active requests and tokens taken minus tokens returned equal active requests: each token is returned exactly once. |
| `RequestTracker.EveryStepProgresses` | internal/browser/chromedp.go:586-635 | However threads interleave, each operation ends after a bounded number of its own sections and moves no other thread. |
| `RequestTracker.SoloAcquire` | internal/browser/chromedp.go:586-614 | Alone, acquire is idempotent: it grants an active or fitting request, adding it once, and otherwise refuses and changes nothing. |
| `RequestTracker.SoloRelease` | internal/browser/chromedp.go:616-625 | Alone, release undoes an acquire and does nothing for a request that is not active. |
| `RequestTracker.SoloReleaseAll` | internal/browser/chromedp.go:627-635 | Alone, releaseAll empties tracker and channel. |
| `RequestHistory.GrantsWereActive` | internal/browser/chromedp.go:586-635 | Over every run: an acquire that returns success had its request active at one of its own sections, its last or, if it handed a token back, the one before; at the return the request is active if and only if no release or clear has taken it out since that section without it being put back. |
| `RequestHistory.RefusalsWereFull` | internal/browser/chromedp.go:586-614 | Over every run: an acquire that is refused was stopped, or found every token taken by active requests and by threads between two sections. |
| `RequestHistory.ActiveUnlessLost` | internal/browser/chromedp.go:586-635 | Over every run: a request active at one moment is active at a later one if and only if it was not taken out in between without being put back. |
| `RequestHistory.UndoFollowsFind` | internal/browser/chromedp.go:604-609 | Over every run: a thread that is about to hand its token back found its request active in its last section. |
| `RequestHistory.GrantedButReleased` | internal/browser/chromedp.go:586-635 | The failing run, for every limit of at least 2 and every request: an acquire returns success while its request is no longer active, because a release overtook the hand-back. |
| `NavigationBudget.RunsKeepInv` | internal/browser/proxy.go:308-451 | Over every sequence of calls all counters stay within their ceilings without overflow, and redirects within requests. |
| `NavigationBudget.ErrorsAreFirst` | internal/browser/proxy.go:397-429 | Over every sequence of calls each kind of error is the first one reported of that kind. |
| `NavigationBudget.DoneMeans` | internal/browser/proxy.go:397-451 | `done` is closed exactly by a stop or a policy error, and stays closed. |
| `NavigationBudget.PolicyOutranksInfrastructure` | internal/browser/proxy.go:431-438 | The failure is the first policy error, else the first infrastructure error, in whatever order they were reported. |
| `NavigationBudget.NothingAfterPolicyError` | internal/browser/proxy.go:330-395 | After a policy error every positive grant is refused with it, and no counter moves again. |
| `NavigationBudget.CountersBalance` | internal/browser/proxy.go:330-379 | Transferred bytes, requests and redirects are exactly the sums of what was granted. |
| `NavigationBudget.ConsumptionIsExact` | internal/browser/proxy.go:365-379 | After every sequence of calls: bytes are granted if and only if no policy error was reported and they fit the limit together with all bytes granted before; otherwise the first policy error is returned, or else the transfer limit. |
| `NavigationBudget.AuthorizationIsExact` | internal/browser/proxy.go:330-350 | After every sequence of calls: a request is granted if and only if no policy error was reported and the counted requests, and for a redirect the counted redirects, are below their limits; otherwise the first of these reasons is returned. |
| `NavigationBudget.DecodingIsExact` | internal/browser/proxy.go:381-395 | After every sequence of calls: decoded bytes are granted if and only if no policy error was reported and they fit a limit of their own together with all decoded bytes granted before. |
| `NavigationBudget.ProxyingIsExact` | internal/browser/proxy.go:352-363 | After every sequence of calls: a proxied connection is granted if and only if no policy error was reported and fewer than the request limit were granted before. |
| `NavigationBudget.PolicyErrorIsPermanent` | internal/browser/proxy.go:397-438 | Once a policy error was reported the first one stays the failure and `done` stays closed, whatever is called afterwards. |
| `BudgetedCopy.CopyWithBudget` | internal/browser/proxy.go:484-507 | The destination gets a prefix of the source, charged in full; nil is returned exactly if the source ends, every write takes all, and the source fits the budget, and then everything was delivered. |
| `BudgetedCopy.ConcurrentCopiesAreBounded` | internal/browser/proxy.go:365-379 | Any number of copies, interleaved with any other calls: each destination is a prefix of its source, whole after nil, and all together never exceed the bytes charged or `MaxTransferBytes`. |
| `BudgetedCopy.StepKeeps` | internal/browser/proxy.go:484-507 | Every interaction of a copy or of another connection keeps that every delivered byte was paid for. |
| `Capture.CaptureCollector.BeginRequest` | internal/browser/capture.go:266-293 | The collector makes the transition of beginRequest: a request observation, and unless refused a new open transaction. |
| `Capture.CaptureCollector.ObserveResponse` | internal/browser/capture.go:297-304 | The transition of observeResponse: a response observation and the patch of the open transaction of the id. |
| `Capture.CaptureCollector.ObserveRedirect` | internal/browser/capture.go:309-320 | The transition of observeRedirect: patch, total, and the end of the hop. |
| `Capture.CaptureCollector.FinishRequest` | internal/browser/capture.go:324-337 | The transition of finishRequest: wire size, total, and the end of the correlation. |
| `Capture.CaptureCollector.FailRequest` | internal/browser/capture.go:340-344 | The transition of failRequest. |
| `Capture.BoundedDurationMs` | internal/browser/capture.go:375-384 | Zero for non-positive durations, the ceiling for durations of at least the ceiling, and otherwise within half a millisecond of the duration. |
| `CaptureLaws.EveryIdIsOnItsOwn` | internal/browser/capture.go:266-370 | However events are interleaved, the transactions of an id and its open state are those of a plain fold over its own events. |
| `CaptureLaws.InterleavingsCaptureTheSame` | internal/browser/capture.go:266-370 | Two traces with the same events per id capture the same transactions up to order. |
| `CaptureLaws.PrecedesStrictTotal` | internal/browser/capture.go:518-551 | The comparator over all fields is a strict total order on transactions. |
| `CaptureLaws.SortedTransactionsAreCanonical` | internal/browser/capture.go:518-551 | Two traces with the same events per id yield the same sorted transaction list, whatever the sort algorithm. |
| `CaptureLaws.LatestObservationWins` | internal/browser/capture.go:346-370 | However many responses patch a transaction: status and reuse are those of the last, type and protocol those of the last that had any, and what the request said stays. |
| `CaptureLaws.LatestTimingWins` | internal/browser/capture.go:346-370 | However many responses patch a transaction: every phase, and the queue time, is that of the last response in which it was positive, and the total stays. |
| `Lifecycles.LifecycleIsRecorded` | internal/browser/capture.go:266-370 | A lifecycle among any other events: from its end on, whatever follows, its transaction holds the cleaned method, type and acceptable URL of its request, status and reuse of its last response, every other field of the last response that had it, the wire size of a finish that reports one, and the duration up to a finish or redirect; a failure adds nothing. |
| `Lifecycles.OpenRequestRecords` | internal/browser/capture.go:266-304 | While it is open the same holds of the responses so far, with no wire size and no total. |
| `OrderMeanings.PrecedesMeans` | internal/browser/capture.go:518-551 | The comparator: URL, method, types and protocol in this order, then status, size and timings, then fresh connections before reused ones; the first field that differs decides, the smaller coming first. |
| `CaptureLimits.ArrivalOrderIsLost` | internal/browser/capture.go:266-446 | Unless a ceiling was met, any interleaving of the same lifecycles also meets none, and leaves the same requests, responses and sorted transactions. |
| `CaptureLimits.CeilingsOnlyTruncate` | internal/browser/capture.go:412-419 | A lower ceiling keeps the first transactions, patched exactly as under a higher one. |
| `CaptureLimits.PendingCeilingIsRedundant` | internal/browser/capture.go:281-284 | The ceiling on pending entries never turns away what the ceiling on transactions would let in. |
| `CaptureLimits.RefusedIffOverfull` | internal/browser/capture.go:412-419 | A transaction is turned away iff the unlimited run has more than the ceiling. |
| `CaptureLimits.RefusalsAreWarnedOf` | internal/browser/capture.go:412-419 | The transaction warning is raised exactly if a transaction was turned away. |
| `CaptureLimits.RequestsAreTold` | internal/browser/capture.go:401-408 | The first accepted requests are kept, and the request flag is raised exactly if more were accepted. |
| `CaptureLimits.FlagIsDocumentedIff` | internal/browser/capture.go:132-134 | The request flag has its documented meaning if and only if no request URL was oversized or more requests were accepted than the ceiling. |
| `CaptureLimits.ResponsesAreTold` | internal/browser/capture.go:429-446 | The first accepted responses are kept, and the response flag is raised exactly if more were accepted or an oversized URL was dropped. |
| `CaptureLimits.WarningsAreExact` | internal/browser/capture.go:401-446 | The warnings on requests, responses and URLs are raised exactly if more requests or responses were accepted than the ceiling, or a URL was oversized. |
| `CaptureLimits.OversizedRequestsAreLostInSilence` | internal/browser/capture.go:266-276 | An oversized request URL is dropped with a warning but without the request flag. |
| `Normalize.NormalizeCapture` | internal/browser/analyzer.go:139-249 | Fails exactly if an emitted signal is invalid; otherwise the strictly increasing list of exactly the emitted signals. |
| `Normalize.CompactInPlace` | internal/browser/analyzer.go:238-248 | The compaction into the slice it reads keeps one copy of every run and never overwrites an unread element. |
| `Normalize.Emit` | internal/browser/analyzer.go:140-220 | The emission loops emit exactly the signals of the capture's parts. |
| `EmissionMeanings.EmitsMeans` | internal/browser/analyzer.go:140-220 | The emitted signals, kind by kind: condition, key, value and URL in terms of the request, transaction, form, response, document, resource or cookie. |
| `EmissionMeanings.MethodMeans` | internal/browser/analyzer.go:146 | The method is the verb without the white space around it, in upper case. |
| `OrderMeanings.SignalBeforeMeans` | internal/browser/analyzer.go:222-236 | Normalized signals are ordered by the position of their kind, then by the first of key, value and URL that differs. |
| `Normalize.SignalBeforeStrictTotal` | internal/browser/analyzer.go:222-236 | On browser signals the comparator by rank, key, value and URL is a strict total order. |
| `Normalize.OnlyBlankCookiesFail` | internal/browser/analyzer.go:239-242 | Normalization fails exactly for a cookie with a domain and a name that is blank but not empty. |
| `Normalize.OrderIsErased` | internal/browser/analyzer.go:139-249 | Order and repetition of the capture's slices change neither success nor result. |
| `Normalize.InterleavingNeverReachesSignals` | internal/browser/analyzer.go:139-249 | Unless a ceiling was met, interleaving the same request lifecycles differently changes neither success nor any normalized signal. |
| `Normalize.NormalizedSignalsAreSettled` | internal/browser/analyzer.go:150-153 | Normalized browser signals meet the hypothesis of conclusive negatives. |
| `ChannelCompleteness.CoverageMeans` | internal/browser/analyzer.go:98-116 | A signal type is declared complete if and only if normalization and navigation succeeded and no part that it is taken from is incomplete or truncated; transactions and form submissions are never declared. |
| `ChannelCompleteness.RequestsAreWhole` | internal/browser/capture.go:266-276 | The request list equals that of a run without ceilings if and only if the request flag is clear and no acceptable request was dropped for the size of its URL. |
| `ChannelCompleteness.ResponsesAreWhole` | internal/browser/capture.go:429-446 | If the response flag is clear, the response list equals that of a run without ceilings; the converse holds unless an oversized URL would have been rejected anyway. |
| `ChannelCompleteness.TransactionsAreWhole` | internal/browser/capture.go:266-293 | Every transaction kept is the one of the run without ceilings at the same place, or differs from it only by lacking its URL. |
| `ChannelCompleteness.NothingIsInvented` | internal/browser/analyzer.go:139-249 | Where only the ceilings stand between the two runs, every normalized signal is also one of the run without ceilings. |
| `ChannelCompleteness.DeclaredLosesOnlyOversized` | internal/browser/analyzer.go:98-116 | What a browser channel lost although it is declared complete is exactly the signals of requests that were dropped for the size of their URL and that no other request gave. |
| `ChannelCompleteness.WholeIsAdmissibleIff` | internal/scanner/scanner.go:499-524 | The signals of the run without ceilings form an admissible future, as the theorems on verdicts assume, if and only if no request was lost in this way. |
| `ChannelCompleteness.VerdictsHoldIffNothingBetrays` | internal/scanner/scanner.go:311-474 | From browser events to verdicts, for any class of patterns: over all valid rule sets with patterns of the class, no `not_detected` verdict is contradicted by what the ceilings withheld, if and only if no predicate with such patterns matches a request lost in this way while its coverage is closed on what was seen. |
| `ChannelCompleteness.VerdictsHoldIffNothingLostInSilence` | internal/scanner/scanner.go:311-474 | The idealised statement, in which a regular expression may denote any predicate whatever its text: over all such valid rule sets, no `not_detected` verdict on settled signals is contradicted by what the ceilings withheld, if and only if no request was lost in this way. |
| `ChannelCompleteness.LostIsRefuted` | internal/scanner/scanner.go:311-474 | The failing family, with literals only: for every request lost in this way whose method and URL are within the pattern size, the rule of exact literals for source, method and URL is `not_detected` on what was seen and detected with the run without ceilings. |
| `ChannelCompleteness.OversizedIsLostInSilence` | internal/browser/capture.go:266-276 | Such losses are real: any oversized request URL that would be accepted, for instance one with a long query, gives a run with every flag clear. |
| `Snapshots.CleanResourceURLs` | internal/browser/capture.go:553-573 | Keeps the first accepted URLs up to the ceiling, and reports truncation exactly if more were accepted or one was oversized. |
| `Snapshots.CleanCookies` | internal/browser/capture.go:738-764 | However the map is visited: the acceptable cookies, each once, in strictly increasing order, the first ones up to the ceiling, with truncation reported exactly if there were more. |
| `OrderMeanings.CookieBeforeMeans` | internal/browser/capture.go:752-757 | Cookies are ordered by name, then domain. |
| `Snapshots.SnapshotTells` | internal/browser/capture.go:465-516 | Where its flags are clear, a snapshot holds what the page has to offer without any ceiling, from the document on: its plain serialization and all resolved and acceptable sources, and all cookies. |
| `Snapshots.SnapshotInternal` | internal/browser/capture.go:465-516 | Assembles the parts and flags of the result from what the serializer returned for the page, so that where a flag is clear nothing of its part is missing. |
| `Snapshots.PageVerdictsHoldIff` | internal/browser/analyzer.go:98-116 | From page and events to verdicts, with no assumption on the flags: the equivalence of `ChannelCompleteness.VerdictsHoldIffNothingBetrays` for the ceilings of collector, snapshot and serializer together. |
| `DomSerializer.BoundedSerializer.Serialize` | internal/browser/chromedp.go:983-1185 | The explicit-stack walk: unless flagged the text is the plain recursive serialization; within the byte budget; flagged iff work or cost exceeds its ceiling, cut off iff there is too much work; within twice the work ceiling of rounds. |
| `DomSerializer.BoundedSerializer.Walk` | internal/browser/chromedp.go:1091-1170 | The stack walk processes exactly the tokens of the document in recursive order, until work runs out. |
| `DomSerializer.BoundedSerializer.AppendRaw` | internal/browser/chromedp.go:1005-1032 | Encoding slice by slice through the scratch buffer equals one greedy encoding into the whole remaining budget. |
| `DomSerializer.BoundedSerializer.AppendEscaped` | internal/browser/chromedp.go:1034-1051 | Escaping in parts of 4096 units, each appended while room is left. |
| `DomSerializer.ScratchIsInvisible` | internal/browser/chromedp.go:1010-1028 | One pass over a slice takes what the whole remaining buffer would take first, and stalls only if nothing fits. |
| `DomLaws.DocumentMeans` | internal/browser/chromedp.go:1091-1170 | The tokens of a document write its recursive serialization, count its nodes and attributes, and list its sources in document order. |
| `Readback.DocumentIsRead` | internal/browser/chromedp.go:1091-1170 | Round trip: reading the plain serialization of a document, whose parts end where their own delimiters say so, gives back its elements, attributes, characters, comments and other nodes in order; nothing is lost or confused. |
| `Escaping.EscapeMeans` | internal/browser/chromedp.go:1034-1051 | Decoding the entities of an escaped text gives the text back; the escaped text has no angle brackets and, in attributes, no quotation marks; a text without special characters is unchanged. |
| `DomSources.SourcesMean` | internal/browser/chromedp.go:1119-1131 | A URL is a source of a document exactly if a script, or iframe, element somewhere in it has it as the value of its last `src` attribute. |
| `DomSources.WantedMean` | internal/browser/chromedp.go:1063-1089 | A URL is wanted exactly if a source resolves to it and both are short enough; something counts as oversized exactly if a source or what it resolves to is too long. |
| `DomBounds.TextIsExact` | internal/browser/chromedp.go:1005-1171 | Unless its flag is raised the text is the plain serialization; its UTF-8 length never exceeds the budget. |
| `DomBounds.TraversalIsExact` | internal/browser/chromedp.go:1095-1117 | The traversal is cut off iff nodes and attributes exceed the work ceiling. |
| `DomBounds.TruncationIsExact` | internal/browser/chromedp.go:1005-1117 | The text is flagged as truncated if and only if nodes and attributes exceed the work ceiling, or the bytes of the pieces in which the text is appended exceed the budget. |
| `DomBounds.CostIsBounded` | internal/browser/chromedp.go:1005-1051 | These bytes are at least the UTF-8 length of the plain serialization and at most three for each of its code units. |
| `DomBounds.RoomToSpare` | internal/browser/chromedp.go:1005-1051 | Corollary: a document within the work ceiling and of at most a third of the budget in code units is serialized whole. |
| `DomBounds.ResourcesAreExact` | internal/browser/chromedp.go:1063-1089 | After a complete traversal the URLs are the first wanted ones in document order, and the flag is raised exactly if there were too many or one was too long. |
| `DomBounds.FitsURLExactly` | internal/browser/chromedp.go:1053-1056 | A URL fits iff its code units are within the ceiling and its UTF-8 bytes within one more than the ceiling. |
| `DomBounds.OneByteTooLong` | internal/browser/chromedp.go:1053-1056 | For every positive ceiling there is a URL that fits and is one byte too long. |
| `DomPieces.FeedIsExact` | internal/browser/chromedp.go:1005-1051 | Appending pieces one after the other: without truncation everything is there and charged exactly, and with a last piece that is not empty truncation means that the pieces cost more than the budget. |
| `DomPrefix.PiecesStayPrefix` | internal/browser/chromedp.go:1012-1031 | For any pieces: the text taken is a prefix of the whole if and only if, behind the first piece that is cut, no piece begins with a scalar value that fits the bytes left, or the first one that does begins with the code unit that was cut off. |
| `DomPrefix.OnlyHalvesGoOn` | internal/browser/chromedp.go:1012-1031 | The second case occurs only where a surrogate pair was cut off with three bytes left, and a lone surrogate follows. |
| `DomTruncation.PrefixExactly` | internal/browser/chromedp.go:983-1185 | For every document and all limits: the serialized text is a prefix of the plain serialization if and only if that condition holds of the pieces the walk gets to. |
| `DomTruncation.PairedPrefixExactly` | internal/browser/chromedp.go:983-1185 | For documents without lone surrogates only the first case remains: behind the first piece that is cut, no piece begins with a scalar value that fits the bytes left. |
| `DomTruncation.AsciiIsCutToPrefix` | internal/browser/chromedp.go:1012-1031 | A document whose plain serialization is ASCII is always cut to a prefix of it. |
| `DomTruncation.TruncatedTextIsNoPrefix` | internal/browser/chromedp.go:1012-1031 | The failing family: for every byte budget of at least 5 and at least 2 work items there is a document, of one comment, whose traversal is complete and whose truncated text is not a prefix, because a wide character is skipped and narrow text follows. |
| `DomTruncation.ProductionTextIsNoPrefix` | internal/browser/chromedp.go:832 | The limits that the script runs with are an instance. |
| `Utf16.SliceIsEnough` | internal/browser/chromedp.go:1012-1016 | Cutting the candidate at the capacity in code units changes nothing: a pair cut in two never fits. |
| `Utf16.EncodingResumes` | internal/browser/chromedp.go:1012-1028 | Encoding into a smaller buffer and resuming equals encoding into the larger one. |
| `Utf8.EncodingIsExact` | internal/browser/chromedp.go:1012-1028 | The byte counts are those of UTF-8 as section 3 of RFC 3629 defines it: decoding the encoded text gives its scalar values, and the counted length is the number of bytes. |
| `Utf8.BoundedEncodingIsExact` | internal/browser/chromedp.go:1012-1028 | A bounded encoding writes the bytes of what it reads, and stops only where the next scalar value would not fit. |

## Left out

- Conclusive.NotDetectedIsConclusive: over real numbers, so float64 rounding and NaN are not modelled; in particular the map-order summation of group scores is exact here.
- ConclusiveExactly.ConclusiveIffSettled: idealised, since it also uses predicates that no expression of 2048 bytes denotes; the statements over a class of patterns (ConclusiveExactly.ConclusiveIffSettledWithin, ConclusiveExactly.LoadableConclusiveIff) and the literal family do not.
- SchemaValidation.Validate: JSON decoding, error messages, and the check that a condition has exactly one kind are left out, since a condition is an algebraic value here. What an expression compiles to is data of the pattern; ConclusiveExactly.LoadableConclusiveIff ties it to a compiler.
- Detections.ScoreMatches: name, category, vendor and product are copied through unchanged by the source and are not part of a detection here.
- Scanner.BuildDetectionCoverage: takes the completer and registry as parameters; running analyzers, `validateObservation` and report assembly are left out.
- Ordering.DeduplicateSorted: on values, so that the source sorts and shares the backing array of its argument is not modelled.
- Capabilities.NewCapabilityRegistry: the default capability list and `ValidateRuleSetCapabilities` are data and an easy traversal.
- RequestTracker.RunsAreSafe: that `select` may choose either ready channel is covered by the input; timers and `waitForNetworkQuiet` give no strict bound to prove.
- RequestHistory.RefusalsWereFull: an acquire may be refused while another thread still holds a token that it is about to return; the model states this as full channel, not as full active set.
- NavigationBudget.AuthorizationIsExact: parsing the URL is a parameter, and close-once of the channel is a flag that is set at most once.
- BudgetedCopy.CopyWithBudget: one thread; interleaving with others is in the step system of BudgetedCopy.ConcurrentCopiesAreBounded. `budgetReadCloser` adds only one charge per read.
- Capture.BoundedDurationMs: non-finite durations are not modelled.
- Capture.CaptureCollector.BeginRequest: warnings are a set, so the order in which distinct warnings first appear is not modelled; the mutex makes every call one step.
- CaptureLaws.SortedTransactionsAreCanonical: the library sort is any function that sorts; its algorithm is not modelled.
- Normalize.NormalizeCapture: upper-casing of methods is for ASCII letters; decimal formatting is a parameter.
- DomSerializer.BoundedSerializer.Serialize: documents are finite trees that do not change during the walk; URL resolution, lower-casing and the DOM interface are parameters.
- Readback.DocumentIsRead: for documents whose parts do not contain their own delimiters; a script can build others, and their text cannot be read back. The lists of void and raw-text elements are taken over as they are.
- BestCase.ClosedIffMissedAtBest: under unambiguous names, as for ExactStatus.CompleteMeansExact; with a collision only Conclusive.FutureReaches holds.
- ChannelCompleteness.VerdictsHoldIffNothingBetrays: the verdict is compared with what was seen joined by the signals of the run without ceilings. By ChannelCompleteness.NothingIsInvented these are the signals of that run where only the ceilings on events differ; a clipped text or a lost final URL may leave signals that it does not have.
- ChannelCompleteness.VerdictsHoldIffNothingLostInSilence: idealised in the same way as ConclusiveExactly.ConclusiveIffSettled.
- Snapshots.SnapshotTells: how a text of the page becomes a string is a parameter, of which only valid UTF-8 is assumed; the variant of the snapshot that extracts resources with the HTML tokenizer, and warnings, are left out.
- Form inspection, the syntax of cookies and domains, the HTML tokenizer, HTTP, DNS, TLS, CDP and proxy sockets, the CLI and the report: input and output, or easy members.
