# Verified model of the conforma CLI's policy core

This Dafny project models the parts of the CLI whose behaviour depends on state, order or
arithmetic, and proves what they promise over every input, every run or every interleaving. Code
that updates fields, maps or slices is modelled by classes and methods with the same branches and
loops, each proved equal to a specification function; the laws are then proved about those
functions. Goroutines are modelled as interleaved steps.

Run `dafny verify dfyconfig.toml`.

| file | what it is about |
|---|---|
| `Tracker.dfy`, `TrackerRuns.dfy`, `TrackerGroups.dfy` | the tracker of trusted task bundles: one run, and any number of runs |
| `Specificity.dfy`, `SpecificityBounds.dfy` | scores of include and exclude names, and how far an exclude reaches |
| `Results.dfy`, `Matching.dfy` | rules, results, and the names that match them |
| `Criteria.dfy` | include and exclude items for all images, a repository or a digest |
| `PolicyResolver.dfy`, `PackageSelection.dfy`, `ResolvedPolicy.dfy` | which rules and packages are included before anything is evaluated |
| `PostEvaluation.dfy`, `Categorisation.dfy`, `RuleMetadata.dfy` | filtering and categorising results afterwards |
| `Evaluation.dfy`, `ExcludedSuccesses.dfy`, `OldDates.dfy`, `EvaluationExamples.dfy`, `Reports.dfy`, `Trim.dfy` | the whole evaluation: successes, unmatched includes, dependencies |
| `RekorFetch.dfy`, `RekorSelection.dfy` | fetching log entries in parallel and choosing the latest one |
| `DownloadCache.dfy` | one download per URL, shared by concurrent calls |
| `SnapshotMerge.dfy`, `IndexExpansion.dfy`, `ImageReports.dfy` | merging snapshots, expanding image indexes, filtering a report by an index |
| `Retry.dfy` | retrying HTTP requests with backoff |
| `Sequences.dfy`, `Strings.dfy`, `Wrappers.dfy` | helpers |

## What the proofs found

Where the code does not do what its documentation, its comments or one's expectation says, the
model follows the code, a lemma gives the input, and where there is an exact condition it is proved.

- Specificity: the configuration page says that a package name counts 10 however long its path is,
  and scores `release.test` 10 and `release.test.rule:term` 210. The code counts 10 for each part of
  the path and takes the last part of a path that nothing follows for a rule, so it gives 110 and 220.
  For names made of the page's own parts the two agree if and only if the name is a collection, covers
  everything, or has a package path of one part (`DocumentedScoreIff`). A name with a longer path that
  is followed by a rule matches nothing anyway (`LongPathsMatchNothing`).
- Specificity: an exclude that names a rule beats every include list of less specific names if and
  only if the rule is in at most eight collections. One that names a rule and a term that the result
  has n times does if and only if 131+10c <= 210n for c collections, so with the term once at most
  seven (`RuleExclusionBound`, `TermExclusionBound`, `SingleTermExclusionBound`).
- Include lists: with volatile includes for other images only, a target has an empty include list
  (`NothingIncludedFor`). Then rules are included and their results dropped
  (`RuleAndResultAgree`, `SourceDecidesAlike`; `OtherImagesDropResults` has the input).
- Package selection: an include that names a term keeps the result but does not include the
  package, so with another package included the result is never produced (`IncludedTermIsNotEvaluated`).
  A package can lose results in this way if and only if it is not evaluated and one of its rules
  favours a term, or a collection if the rule has none (`PackageLosesNothingIff`).
- Package selection: the included packages depend on the iteration order of a map if and only if
  some package has a code in common with a rule of another package whose verdict ranks above the
  status it has by its own rules (`OrderFreeIff`, `SharedCodeMakesOrderMatter`). Rules are collected
  by code, which excludes it (`RulesKeyedByCodeAreOrderFree`).
- Categories: a failure whose code is also a warning's is taken for a warning
  (`FailureStaysFailure`, `WarningHidesFailure`).
- Successes: a failure that is filtered out because of its term lets its rule pass
  (`ExcludingTermLetsRulePass`, an evaluated outcome). This can happen to a rule if and only if its
  success is kept and some term, or if the rule has no collections some collection, scores higher on
  the excludes than on the includes (`ComesBackIff`).
- Dependencies: circular `depends_on` lists silence everything (`SilencedIff`,
  `CircularDependenciesAreSilenced`); a result with several of them appears once for each one not reported
  (`TrimmedMultiplicity`).
- Tracker: if a run hands out an earlier date than a run before it, a later one that does not prune
  may erase the date of a record before it has come (`ShorteningBreaksGracePeriod`). Whatever else
  the runs do, every record is kept until its date if and only if the dates handed out, but for the
  last two, never move back (`GracePeriodIff`). Records without a ref, which a git URL ending in `@`
  makes, are dropped at the end of a list and only there (`KeptWithoutBlankTail`).
- Download cache: a call can fail although its destination is there and right. It can if and only if
  there are another call for the same destination and one for the same URL in another directory
  (`AlreadyThereIff`).
- Retry: the comment says network errors are not retried. They are, without a wait, and may be
  returned together with an earlier response (`ReplyAndErrorTogether`; `RoundTrip` says exactly when).

## Model

| member | source | states |
|---|---|---|
| BundleTracker.Tracker.AddTrustedTaskRecord | internal/tracker/tracker.go:73-86 | the record becomes the head of its group; every other group stays as it is |
| BundleTracker.FilterRecords | internal/tracker/tracker.go:261-300 | the backward loop computes the order-preserving removal of duplicates (the oldest of each stretch stays) and, if pruning, of expired records |
| BundleTracker.Tracker.FilterBundles | internal/tracker/tracker.go:251-256 | every group is filtered, in whatever order the map yields them |
| BundleTracker.Tracker.SetExpiration | internal/tracker/tracker.go:305-321 | in every group the head has no expiry, records with an expiry keep it, the others get the rounded day plus the days in effect |
| BundleTracker.Track | internal/tracker/tracker.go:105-126 | a run loads, adds, filters, dates and writes: the output is one step of the transition system |
| TrackerRuns.OldestOfEachKeepsRunEnds | internal/tracker/tracker.go:261-281 | removing duplicates keeps exactly the positions that end a stretch of equal refs, in order |
| TrackerRuns.OldestOfEachHasNoAdjacentDuplicates | internal/tracker/tracker.go:258-281 | no two neighbours share a ref afterwards; the first ref and the last record are kept |
| TrackerRuns.KeptWithoutBlankTail | internal/tracker/tracker.go:261-281 | what the loop drops at the end is exactly the trailing records without a ref; nothing is dropped iff the last one has one |
| TrackerRuns.FilteringIsIdempotent | internal/tracker/tracker.go:261-300 | without pruning, filtering a second time changes nothing |
| TrackerRuns.PruningCutsSuffixIffSorted | internal/tracker/tracker.go:283-293 | pruning removes a suffix at every time if and only if no record expires later than one in front of it |
| TrackerRuns.StepPerGroup | internal/tracker/tracker.go:105-126 | a run treats every group on its own: additions in front, then filter, date, write |
| TrackerRuns.StepGroupShape | internal/tracker/tracker.go:261-321 | a run leaves the records behind the old head untouched except for pruned ones, which are a suffix if the group is sorted |
| TrackerRuns.StepGroupKeepsOrder | internal/tracker/tracker.go:261-321 | one run keeps the order of a group: only the head undated, no adjacent duplicates and, if the run's date is late enough, expiries non-increasing and no later than it |
| TrackerRuns.GroupsStayInOrder | internal/tracker/tracker.go:105-126 | after any admissible runs, starting without a file, a group exists iff something was ever added to it, is in that order, and is headed by the ref added last |
| TrackerRuns.SteadyRunsAreAdmissible | internal/tracker/tracker.go:305-311 | a clock that never goes back and a fixed number of days make any runs admissible |
| TrackerRuns.GracePeriodIsKept | internal/tracker/tracker.go:283-321 | a dated record is never changed, and is only lost to a later run that prunes on or after its date, even if the last two dates move back |
| TrackerRuns.HeadIsKept | internal/tracker/tracker.go:305-321 | a head stays the head after every run until one puts another ref in front and dates it; it is then only lost to pruning on or after that date |
| TrackerRuns.PruningLeavesNothingExpired | internal/tracker/tracker.go:283-293 | what a pruning run leaves expired was dated by that very run |
| TrackerRuns.ShorteningBreaksGracePeriod | internal/tracker/tracker.go:261-311 | for any dates of which one moves back and at least two follow: runs, under a clock that stands still, that bring duplicates together and then erase the date of a record without pruning |
| TrackerRuns.GracePeriodIff | internal/tracker/tracker.go:261-321 | all runs with the given dates keep every record until its date iff the dates but for the last two never move back |
| TrackerGroups.SameGroupIff | internal/tracker/tracker.go:73-86 | bundles of one repository share a group iff they have the same tag |
| TrackerGroups.LastAddedIsHead | internal/tracker/tracker.go:73-86 | after any runs the ref added last under prefix, repository and, behind a colon, tag heads the group of that name and does not expire |
| TrackerGroups.OnlyNamedGroups | internal/tracker/tracker.go:73-86 | every group has such a name of something that was added |
| TrackerGroups.ExpiryInNanoseconds | internal/tracker/tracker.go:305-321 | the date handed out is so many times 86400 seconds after the midnight nearest to the clock |
| Specificity.LegacyScore | internal/evaluator/filters.go:839-879 | the score follows the guidelines: 10 a collection, 1 for everything or 10 a path part, 100 for a rule, 100 for a term |
| Specificity.LegacyScoreMatches | internal/evaluator/filters.go:813-824 | the nested loops sum the score of every needle for each time it is listed, and delete exactly the listed needles from the set to be pruned |
| Specificity.TotalScoreIsMonotone | internal/evaluator/filters.go:813-824 | a list with more entries, in any order, never scores less |
| Specificity.TotalScoreIsAdditive | internal/evaluator/filters.go:813-824 | scores of concatenated lists add up |
| Specificity.TotalScoreIgnoresOrder | internal/evaluator/filters.go:813-824 | neither the order of the matchers nor that of the list matters |
| Specificity.TotalScorePositiveIffMatched | internal/evaluator/filters.go:813-824 | the score is positive iff some matcher is listed |
| Specificity.MoreIncludesKeepMore | internal/evaluator/filters.go:803-808 | adding an include never drops a result, adding an exclude never admits one |
| Matching.ScoreOfStarRule | internal/evaluator/filters.go:839-879 | `*.rule` counts 1 for covering everything and 100 for the rule, `*.*` counts 1 |
| SpecificityBounds.TermlessScore | internal/evaluator/filters.go:813-879 | lists without duplicates and terms score at most 131+10c, without rules at most 21+10c |
| SpecificityBounds.ExcludedRuleStaysOut | internal/evaluator/filters.go:803-917 | excluding `pkg.rule` beats every include list of less specific names with at most eight collections, whatever the terms |
| SpecificityBounds.ExcludedTermStaysOut | internal/evaluator/filters.go:803-917 | excluding `pkg.rule:term` beats every termless include list with at most seven collections |
| SpecificityBounds.RuleExclusionBound | internal/evaluator/filters.go:803-917 | eight collections is exact: the exclusion always wins iff there are at most eight |
| SpecificityBounds.TermExclusionBound | internal/evaluator/filters.go:803-917 | for any terms, excluding one that the result has n times always wins against termless includes iff 131+10c <= 210n |
| SpecificityBounds.SingleTermExclusionBound | internal/evaluator/filters.go:803-917 | so if it has the term once, among any others, iff there are at most seven collections |
| SpecificityBounds.LongPathsMatchNothing | internal/evaluator/filters.go:883-917 | a name with a longer package path matches no result, whatever its code, terms and collections |
| SpecificityBounds.LongPathsScoreMore | docs/modules/ROOT/pages/configuration.adoc:98-108 | such a name with rule and term scores 220, contrary to the page |
| SpecificityBounds.DocumentedScoreIff | docs/modules/ROOT/pages/configuration.adoc:98-108 | for names made of the page's parts, the score is the documented one iff the name is a collection, covers everything or has a package path of one part; else it is more by a given amount |
| Results.ExtractStringsFromMetadata | internal/evaluator/conftest_evaluator.go:1102-1116 | the non-empty strings at a key, be it a string or an untyped list |
| Results.LegacyMakeMatchers | internal/evaluator/filters.go:883-917 | the names that match a result: package, package wildcard, rule, each with each term, everything, collections |
| Results.CreateRuleMatchers | internal/evaluator/filters.go:653-678 | the names that match a rule are those of a termless result of it |
| Matching.StringsAtIff | internal/evaluator/conftest_evaluator.go:1102-1116 | a string is read at a key iff it is not empty and is the value or in the untyped list there |
| Matching.CodeOf | internal/evaluator/conftest_evaluator.go:1093-1116 | the code is the string, or the first string in the list that is not empty |
| Matching.CollectionsIff | internal/evaluator/conftest_evaluator.go:1078-1091 | a result is in exactly the collections of its typed list |
| Matching.ResultMatchersIff | internal/evaluator/filters.go:883-917 | for a code of any length, exactly these names match: the last but one part, all its rules, the rule, each also with each term, everything, the collections |
| Matching.MatchersWithoutPackage | internal/evaluator/filters.go:883-917 | without a package only everything and the collections match |
| PolicyCriteria.Criteria.Len | internal/evaluator/criteria.go:37-43 | the length is zero iff there is no item under any key |
| PolicyCriteria.Criteria.AddItem | internal/evaluator/criteria.go:45-54 | appends under the key, or to the default items, and changes nothing else |
| PolicyCriteria.Criteria.AddArray | internal/evaluator/criteria.go:56-65 | the same for several values |
| PolicyCriteria.Criteria.Get | internal/evaluator/criteria.go:69-92 | repository items, then digest items, then default items |
| PolicyCriteria.CollectVolatileConfigItems | internal/evaluator/criteria.go:136-168 | appends the active criteria's values under their keys |
| PolicyCriteria.CollectedUnderKey | internal/evaluator/criteria.go:136-168 | under every key exactly the active values of that key are appended, in order |
| PolicyCriteria.ComputeIncludeExclude | internal/evaluator/criteria.go:101-134 | own items, else the global configuration, and everything included if there is nothing |
| PolicyCriteria.OwnItemsFor | internal/evaluator/criteria.go:69-168 | an item applies to a target iff it is listed or an active criterion for all images, its repository or its digest |
| PolicyCriteria.NothingIncludedFor | internal/evaluator/criteria.go:101-134 | the include list is never empty as a whole, and empty for a target iff nothing is listed and all active includes, at least one, are for other images |
| PolicyCriteria.IncludedForIff | internal/evaluator/criteria.go:69-168 | in terms of the fields of the source: exactly what is included for a target, with dates, image keys, configuration and the wildcard |
| PolicyCriteria.ExcludedForIff | internal/evaluator/criteria.go:69-168 | the same for what is excluded |
| PolicyCriteria.OwnItemsInOrder | internal/evaluator/criteria.go:69-92 | repository items, then digest items, then default items, each in order |
| PolicyResolution.GroupByPackage | internal/evaluator/filters.go:543-551 | each rule is in the group of the first dotted part of its name, and in no other |
| PolicyResolution.PolicyResolver.BaseEvaluateRuleInclusion | internal/evaluator/filters.go:590-623 | adds the rule to what its verdict says, and drops exactly the includes that match it |
| PolicyResolution.PolicyResolver.BaseDeterminePackageInclusion | internal/evaluator/filters.go:626-650 | a package is included if one of its codes is, else excluded if one is |
| PolicyResolution.PolicyResolver.MatchesPipelineIntention | internal/evaluator/filters.go:742-764 | without intentions only packages free of them pass, else those sharing one |
| PolicyResolution.PolicyResolver.ProcessPackage | internal/evaluator/filters.go:701-725 | a package that does not pass changes nothing; otherwise all its rules and then itself are decided |
| PolicyResolution.PolicyResolver.BaseResolvePolicy | internal/evaluator/filters.go:535-559 | in any order, rules and missing includes equal one closed form, package sets are disjoint, and they equal the closed form too if order-free |
| PolicyResolution.StatusOnlyRises | internal/evaluator/filters.go:626-650 | packages processed before can only raise a package's status |
| PolicyResolution.OrderFreeIff | internal/evaluator/filters.go:535-559 | statuses are the same in every order iff no rule that shares a code with another package's has a verdict ranked above that package's own status |
| PolicyResolution.RulesKeyedByCodeAreOrderFree | internal/evaluator/conftest_evaluator.go:497-522 | rules collected under their codes are order-free |
| PolicyResolution.IntentionsOnlyRestrict | internal/evaluator/filters.go:701-764 | heeding intentions equals plain resolution of only the packages that pass |
| ResolvedPolicy.VerdictIff | internal/evaluator/filters.go:590-623 | a rule is included iff it scores more on the includes, or there are none and it is on no list; excluded iff not and it is on the exclude list |
| ResolvedPolicy.PassesIff | internal/evaluator/filters.go:742-764 | which packages pass for which intentions |
| ResolvedPolicy.PackageOfName | internal/evaluator/filters.go:543-551 | a package is what is in front of the first dot, or the name if nothing is |
| ResolvedPolicy.ResolvedRulesIff | internal/evaluator/filters.go:535-623 | exactly which rules are included and excluded, and which includes are missing |
| ResolvedPolicy.ResolvedPackagesIff | internal/evaluator/filters.go:626-650 | of rules collected by code, exactly which packages are included and excluded |
| SpecificityBounds.ScoreOfResult | internal/evaluator/filters.go:883-917 | a result scores what its rule scores plus what each of its terms adds |
| PackageSelection.SelectionLosesNothingIff | internal/evaluator/filters.go:590-623 | whatever terms, and collections if the rule has none, a kept result has its rule is included, iff the rule is included anyway or favours none of them |
| PackageSelection.KeptResultsAreEvaluated | internal/evaluator/conftest_evaluator.go:517-556 | under that condition, the package of every result that would be kept is included, in every order |
| PackageSelection.PackageLosesNothingIff | internal/evaluator/conftest_evaluator.go:517-556 | no result of a package that would be kept is lost, in any order and with any configured namespaces, iff the package is evaluated or none of its rules favours anything |
| PackageSelection.IncludedTermIsNotEvaluated | internal/evaluator/conftest_evaluator.go:517-556 | a result kept for its term alone, of a package that is not evaluated because another one is |
| ResolvedPolicy.NothingIncluded | internal/evaluator/conftest_evaluator.go:541-556 | without an included package exactly the configured ones are evaluated, or all |
| PostEvaluation.LegacyIsResultIncluded | internal/evaluator/filters.go:803-808 | kept iff the include score is higher; the listed matchers are pruned |
| PostEvaluation.FilterResults | internal/evaluator/filters.go:1074-1111 | keeps exactly the uncoded and the outscoring results, in order; an include stays missing iff no coded result matches it on the target's list and no kept result matches it at all |
| PostEvaluation.FilterResultsByRules | internal/evaluator/filters.go:1045-1072 | with intentions, keeps exactly the uncoded results and those of included rules |
| ResolvedPolicy.KeptIff | internal/evaluator/filters.go:1074-1090 | a result is kept iff it has no code or scores more on the includes |
| ResolvedPolicy.KeptByRulesIff | internal/evaluator/filters.go:1045-1063 | with intentions, iff it has no code or its rule is included |
| PostEvaluation.RuleAndResultAgree | internal/evaluator/filters.go:590-623 | a rule and its termless results are decided alike iff the target has an include list or the exclude list matches |
| Categorisation.DetermineOriginalType | internal/evaluator/filters.go:1160-1218 | by code, else by message, else a failure if it has an effective date |
| Categorisation.CategorizeResults | internal/evaluator/filters.go:1116-1156 | every category is the kept results that belong to it, in order, plus the original exceptions and skipped results |
| Categorisation.CategoriesConserveResults | internal/evaluator/filters.go:1116-1156 | as multisets, the four categories add up to the kept results |
| Categorisation.FailureStaysFailure | internal/evaluator/filters.go:1116-1218 | a failure stays one iff it is in effect and not demoted, or, if a warning hides it, iff its severity says so |
| Categorisation.WarningStaysWarning | internal/evaluator/filters.go:1116-1218 | a warning becomes a failure iff its severity says so |
| Categorisation.FailureBySeverity | internal/evaluator/filters.go:1116-1156 | in terms of the metadata: a failure no warning hides stays one iff its effective date has passed or is none and its severity is not "warning"; a hidden one iff it is "failure" |
| Categorisation.WarningBySeverity | internal/evaluator/filters.go:1116-1156 | a warning becomes a failure iff its severity is "failure" |
| Categorisation.ExceptionIff | internal/evaluator/filters.go:1160-1218 | a result is an exception iff it shares its code, or sharing that with nothing its message, with an exception and no warning or failure |
| Categorisation.SkippedIff | internal/evaluator/filters.go:1160-1218 | it is skipped iff it shares it with skipped results only |
| Categorisation.UnknownOrigin | internal/evaluator/filters.go:1195-1218 | a result that shares neither is treated as a failure iff it has an effective date |
| Categorisation.AddMetadataToResults | internal/evaluator/conftest_evaluator.go:842-908 | the loop and the branches add exactly what the rule says and drop a date of more than ninety days ago |
| Categorisation.AugmentedKeepsIdentity | internal/evaluator/conftest_evaluator.go:842-908 | message, codes and terms stay; collections are the rule's if it has any |
| RuleMetadata.TextsComeFromRule | internal/evaluator/conftest_evaluator.go:842-908 | title, severity, description and solution are the rule's if it has them; all else but lists and date stays |
| RuleMetadata.DateComesFromRule | internal/evaluator/conftest_evaluator.go:892-907 | the date is the rule's or the result's, unless it is more than ninety days ago |
| RuleMetadata.CollectionsComeFromRuleOrResult | internal/evaluator/conftest_evaluator.go:842-908 | exactly what becomes of the collections, printed values included |
| RuleMetadata.DependenciesComeFromRule | internal/evaluator/conftest_evaluator.go:842-908 | the dependencies are the rule's if it has any |
| RuleMetadata.MetadataByCode | internal/evaluator/conftest_evaluator.go:834-840 | only results whose code is a string get metadata |
| OldDates.OldDatesChangeNothing | internal/evaluator/conftest_evaluator.go:892-907 | for every outcome, dropping such dates leaves the same results kept, in the same categories and order |
| Trim.TrimOutput | internal/evaluator/conftest_evaluator.go:82-101 | the nested loops make one copy of a result for each unreported dependency |
| Trim.TrimResults | internal/evaluator/conftest_evaluator.go:60-128 | in place, every list of every outcome is trimmed by what was reported before trimming |
| Trim.TrimmedMultiplicity | internal/evaluator/conftest_evaluator.go:82-101 | every result survives as often as it has unreported dependencies, once if it has no list |
| Trim.ReportedIff | internal/evaluator/conftest_evaluator.go:60-74 | reported are exactly the codes of failures, warnings and skipped results |
| Trim.AllListsAreTrimmed | internal/evaluator/conftest_evaluator.go:60-128 | in failures, warnings, skipped and successes each result is there once for each dependency not reported; exceptions stay |
| Trim.SingleDependenciesAreFiltered | internal/evaluator/conftest_evaluator.go:82-101 | with at most one dependency each, trimming is the exact filter |
| Trim.SecondPassRemovesNothing | internal/evaluator/conftest_evaluator.go:60-128 | what survives once survives again |
| Trim.TrimmingIsIdempotent | internal/evaluator/conftest_evaluator.go:60-128 | with at most one dependency each, trimming twice is trimming once |
| Trim.SilencedIff | internal/evaluator/conftest_evaluator.go:60-128 | nothing coded is left iff every coded result has only reported dependencies |
| Trim.AcyclicNeverSilenced | internal/evaluator/conftest_evaluator.go:60-128 | if dependencies are non-empty and acyclic among reported codes, some coded result survives |
| Trim.CircularDependenciesAreSilenced | internal/evaluator/conftest_evaluator.go:60-128 | two failures that depend on each other silence each other |
| Evaluation.ComputeSuccesses | internal/evaluator/conftest_evaluator.go:745-832 | in any order, one success for each rule of the namespace without a reported code whose success is kept, and no other |
| Evaluation.EvaluateOutcome | internal/evaluator/conftest_evaluator.go:615-654 | one outcome: metadata, filter, categories, successes, and exactly the includes still missing |
| Evaluation.EvaluateResults | internal/evaluator/conftest_evaluator.go:603-664 | over all outcomes, a warning for each include, of whatever image, that no result or candidate success of any outcome accounts for, and for no other |
| Evaluation.Evaluate | internal/evaluator/conftest_evaluator.go:597-676 | the outcomes so evaluated are trimmed, or an error is reported iff no warning, failure or success is left to count |
| Evaluation.SuccessesAreTheirOwn | internal/evaluator/conftest_evaluator.go:745-832 | success codes are unique, of the namespace, and disjoint from all reported codes |
| Reports.SuccessFields | internal/evaluator/conftest_evaluator.go:745-832 | key by key what a success says |
| Reports.PassesIffNotMentioned | internal/evaluator/conftest_evaluator.go:745-832 | a rule passes iff it is of the namespace, scores more on the includes, and no failure, warning, skipped result or exception has its code |
| Reports.ReportedIff | internal/evaluator/conftest_evaluator.go:615-654 | exactly which results are in which list of a reported outcome |
| Reports.AllItemsIff | internal/evaluator/conftest_evaluator.go:599-611 | which includes may be unmatched: those for whatever image |
| Reports.AccountsIff | internal/evaluator/filters.go:1074-1111 | which results account for an include |
| Reports.ConsideredIff | internal/evaluator/conftest_evaluator.go:603-664 | which results and candidate successes are asked |
| Reports.UnmatchedFields | internal/evaluator/conftest_evaluator.go:656-664 | what the warning for an unmatched include says |
| Reports.NothingEvaluatedIff | internal/evaluator/conftest_evaluator.go:651-673 | nothing was evaluated iff no outcome has a warning, a failure or a success |
| Evaluation.ExcludedResultsDoNotPass | internal/evaluator/conftest_evaluator.go:745-832 | a filtered-out termless result with its rule's collections gets no success for its rule |
| ExcludedSuccesses.RulePassesIff | internal/evaluator/conftest_evaluator.go:745-832 | a rule has a success iff it is of the namespace, nothing reported has its code, and the success is not filtered out |
| ExcludedSuccesses.ExclusionReachesSuccessIff | internal/evaluator/filters.go:803-917 | whatever terms, and collections if the rule has none, a filtered-out result has its rule's success is filtered out, iff the success is so anyway or none of them is excluded more specifically than included |
| ExcludedSuccesses.ComesBackIff | internal/evaluator/conftest_evaluator.go:745-832 | some evaluated outcome has a success for a rule of which a result was filtered out, iff the success is kept and some term, or collection if the rule has none, is excluded more specifically |
| ExcludedSuccesses.AugmentedCanHave | internal/evaluator/conftest_evaluator.go:834-908 | a result with its rule's metadata has the rule's collections or, if that has none, its own |
| Evaluation.CollectionsComeFromRule | internal/evaluator/conftest_evaluator.go:842-908 | a rule in collections lends them to its results, whose terms stay |
| Evaluation.OutcomesConserveResults | internal/evaluator/filters.go:1116-1156 | as multisets, an outcome's results are the kept ones plus its own exceptions and skipped ones |
| Evaluation.SourceDecidesAlike | internal/evaluator/criteria.go:101-134 | in terms of a source's lists and volatile items: exactly when rule and result are decided alike |
| EvaluationExamples.ExcludingTermLetsRulePass | internal/evaluator/conftest_evaluator.go:745-832 | an evaluated outcome: its only failure excluded by its term, no failure and a success reported |
| EvaluationExamples.WarningHidesFailure | internal/evaluator/filters.go:1160-1218 | an effective failure that becomes a warning |
| EvaluationExamples.OtherImagesDropResults | internal/evaluator/criteria.go:101-134 | a source with an include for another image only: every rule is included for this one, every result of it dropped |
| EvaluationExamples.SharedCodeMakesOrderMatter | internal/evaluator/filters.go:535-559 | a package excluded in one order and included in the other |
| RekorFetch.GetWorkerCount | internal/validate/vsa/rekor_retriever.go:552-570 | the number given, at most 64, and 8 if there is none or it is not positive |
| RekorFetch.PlacesStep | internal/validate/vsa/rekor_retriever.go:431-511 | no step makes or loses a UUID, but for sending, which puts one in the queue |
| RekorFetch.NextInv | internal/validate/vsa/rekor_retriever.go:431-549 | every step keeps each UUID in exactly one place and sends nothing on a closed channel |
| RekorFetch.BehaviourInv | internal/validate/vsa/rekor_retriever.go:431-549 | so it is in every state of every run, with any number of workers |
| RekorFetch.RemainingDecreases | internal/validate/vsa/rekor_retriever.go:431-549 | every step leaves less to do |
| RekorFetch.SomeoneCanGoOn | internal/validate/vsa/rekor_retriever.go:431-549 | nothing blocks for good: until all have ended, some goroutine can go on |
| RekorFetch.BehavioursTerminate | internal/validate/vsa/rekor_retriever.go:431-549 | a run has at most 6n+w+4 steps, and where it stops all goroutines have ended and, unless it was cancelled, without an error |
| RekorFetch.CanSucceed | internal/validate/vsa/rekor_retriever.go:431-549 | every run that was not cancelled can be continued to one that ends without an error |
| RekorSelection.FindLatestEntryByIntegratedTime | internal/validate/vsa/rekor_retriever.go:83-101 | the first entry than which none is later, a time counting as later than none |
| RekorSelection.SelectEntry | internal/validate/vsa/rekor_retriever.go:274-291 | none iff no entry is of the right kind; else one of that kind, none of which is later, and earlier ones of that kind in front of it |
| RekorSelection.SelectionIgnoresOrder | internal/validate/vsa/rekor_retriever.go:274-291 | every permutation of the entries gives the same integrated time |
| RekorSelection.NilErrorAccountsForAll | internal/validate/vsa/rekor_retriever.go:478-511 | without an error every UUID was collected once, and entries and fetch errors add up to all of them |
| RekorSelection.FetchedTimeIsDetermined | internal/validate/vsa/rekor_retriever.go:274-511 | two fetches of the same responses, with any workers and interleavings, select entries of the same time |
| DownloadCache.System.NextInv | internal/policy/source/source.go:92-145 | every step keeps the cache, the files and the calls consistent |
| DownloadCache.System.SuccessfulCallsShareOneDownload | internal/policy/source/source.go:92-145 | in every run a URL is downloaded at most once, and a successful call returns its own destination, which leads through at most one link to that download |
| DownloadCache.System.DestinationsStay | internal/policy/source/source.go:92-145 | no later step changes what a returned destination leads to |
| DownloadCache.System.FailuresExplained | internal/policy/source/source.go:92-145 | a call fails only if the shared download failed, its directory cannot be made, or its destination is already there and right |
| DownloadCache.System.LosingTheRaceFails | internal/policy/source/source.go:121-133 | in any consistent state, of two calls about to link the same destination the second fails |
| DownloadCache.System.AlreadyThereIff | internal/policy/source/source.go:92-145 | some run makes a call fail because its destination is there already, iff there are another call for that destination and one for the same URL elsewhere |
| DownloadCache.System.MkdirFailedIff | internal/policy/source/source.go:115-126 | some run makes a call fail because its directory cannot be made, iff there is a call for the same URL elsewhere |
| DownloadCache.System.SomeoneCanGoOn | internal/policy/source/source.go:92-145 | until a call has finished, it or the one that downloads for it can go on |
| DownloadCache.System.BehavioursTerminate | internal/policy/source/source.go:92-145 | a run has at most six steps for each call, and where it stops all calls have finished |
| SnapshotMerge.Snapshot.Merge | internal/applicationsnapshot/input.go:60-91 | blanks are filled, components merged one by one, images stay distinct, and the index lookup never misses |
| SnapshotMerge.MergingInSteps | internal/applicationsnapshot/input.go:93-170 | merging one snapshot after another is merging the concatenation of their components |
| SnapshotMerge.MergedComponents | internal/applicationsnapshot/input.go:60-91 | each image once, in first-seen order, as its first component under the first real name or else the last placeholder |
| SnapshotMerge.MergedSnapshots | internal/applicationsnapshot/input.go:93-170 | the same after any number of snapshots |
| SnapshotMerge.BestComponent | internal/applicationsnapshot/input.go:60-91 | an image's component is its first one under the first name that is neither empty nor "Unnamed", else the last |
| SnapshotMerge.SeenInOrder | internal/applicationsnapshot/input.go:73-91 | images come in the order in which they were first seen |
| SnapshotMerge.TextsOfMerged | internal/applicationsnapshot/input.go:60-71 | application and display texts are the first that are not empty |
| IndexExpansion.System.NextInv | internal/applicationsnapshot/input.go:200-284 | every write keeps the maps in step with what the workers have written |
| IndexExpansion.System.ParentsHaveChildren | internal/applicationsnapshot/input.go:200-284 | in every state whatever has a parent is among that parent's children |
| IndexExpansion.System.ChildrenHaveParents | internal/applicationsnapshot/input.go:200-309 | when all workers have finished every child has a parent |
| IndexExpansion.System.ChildrenInOrder | internal/applicationsnapshot/input.go:200-284 | the children of an index with one component are its manifests, in order, under any interleaving |
| IndexExpansion.System.ExpandedComponents | internal/applicationsnapshot/input.go:200-309 | as a multiset, the components are each input and one for each of its manifests, however the workers finish |
| ImageReports.ComponentsIff | internal/applicationsnapshot/input.go:200-309 | a component is a given one, or `name-digest-arch` with image `repository@digest` of a manifest, and nothing else |
| ImageReports.ComponentsCounted | internal/applicationsnapshot/input.go:200-309 | each as often as it was given and as there are such manifests |
| ImageReports.LinksWritten | internal/applicationsnapshot/input.go:236-258 | at the end every manifest is below its index and has a parent that lists it, and the index's reference is an alias |
| IndexExpansion.FilterReportForTargetRef | internal/validate/vsa/vsa.go:91-127 | exactly the components under the pinned reference or its children, in order |
| ImageReports.PlainTarget | internal/validate/vsa/vsa.go:71-127 | for a target that is no index, exactly the components with that image, in order |
| ImageReports.PinnedTarget | internal/validate/vsa/vsa.go:71-127 | for a pinned index, exactly its own and its children's, in order |
| ImageReports.AliasTarget | internal/validate/vsa/vsa.go:71-127 | for an alias, what comes back for the pinned reference |
| IndexExpansion.AliasMeansIndexAndManifests | internal/validate/vsa/vsa.go:71-127 | after an expansion, the reference of an index means the index and its manifests and nothing else |
| IndexExpansion.FilteredByIndex | internal/validate/vsa/vsa.go:91-127 | of a report on the expanded components, filtered by an index, exactly those come back whose image is the index or one of its manifests |
| IndexExpansion.IndexInItsReport | internal/validate/vsa/vsa.go:91-127 | the components of its manifests come back; its own does iff its image is the pinned reference, unless it is one of the manifests |
| Retry.CalculateBackoff | internal/http/retry.go:159-191 | the base duration first, then the jittered exponential, never above the cap |
| Retry.RoundTrip | internal/http/retry.go:101-156 | at most MaxRetry+1 requests and Duration+MaxRetry*MaxWait of waiting; stops at the first response that is not to be retried and returns it unchanged; says exactly when a response and an error come together |
| Retry.ReplyAndErrorTogether | internal/http/retry.go:101-156 | a response and an error of a later attempt returned together |
| Retry.EndsIff | internal/http/retry.go:117-143 | a response is final unless its status is 429, 408 or 503 and the context lasts |
| Retry.ExponentialGrows | internal/http/retry.go:165-166 | each wait is the one before times the factor |
| Retry.BackoffIs | internal/http/retry.go:159-191 | the base duration first, then the exponential wait changed by the jitter, or the cap if that is less |
| Retry.WaitsAre | internal/http/retry.go:117-140 | after a response with one of these statuses the whole backoff is waited for, after a network error nothing |
| Retry.WholeBudget | internal/http/retry.go:101-191 | the bound on all waits together is Duration+MaxRetry*MaxWait |
| Retry.LastOfAttempts | internal/http/retry.go:152-155 | after the last attempt the last response there was is returned, with the error of the last attempt if it ended in one |

## Left out

- Registry, git, Kubernetes, Rekor and TUF clients, signatures and the execution of rules: what they return is an arbitrary input.
- Parsing of YAML, JSON, URLs, image references and dates: times are integers, targets are parsed, how a date is read and a value printed are parameters.
- Integer widths: integers are unbounded, so an overflow of the days in effect in nanoseconds is not modelled.
- Floating point: backoff uses real numbers; the random draw is an arbitrary number.
- Explanations, logging, tracing, command line, rendering and documentation.
- Hashing: the directory name of a URL is an arbitrary function, distinct on the URLs in use.
- File systems: only directories, links and their content; they can link, nothing is deleted, and making a directory may fail.
- Link chains: a destination is resolved through at most one link; no call makes a longer chain.
- Maps from strings to true are modelled as sets of their keys, and a set that is pruned in place is passed in and returned.
- Slices and aliasing: nil and empty slices are not distinguished; results that share one metadata map are modelled by adding the metadata to the outcome too.
- Trim.TrimResults: the rewriting of failure descriptions, which tells how to exclude the rule, is left out.
- PackageSelection.PackageLosesNothingIff: is about results with the code of a collected rule and collections they can have with its metadata; a result without a code is kept whatever its rule.
- ExcludedSuccesses.ComesBackIff: a result's code is a string; one given as a list gets no metadata and is not seen as reported.
- Evaluation.Evaluate: covers the resolver without pipeline intentions, which is the only one the evaluator creates.
- Evaluation.EvaluateOutcome: the rule metadata of results and the successes use the annotated rules; how they are gathered from the policy files is left out.
- SnapshotMerge.Snapshot.Merge: requires distinct images to start with, which holds of the empty snapshot that merging starts from and is kept.
- Bundles found while refreshing are additions like others.
- BundleTracker.Track: bundles come resolved, as a list of additions; a run that cannot read or resolve one writes nothing. What is written to the file and read back is the records themselves, without their formatting.
- Rewriting of a policy URL to its pinned form after a download.
- Concurrency (`RekorFetch`, `DownloadCache`, `IndexExpansion`) is modelled as steps on values, not on shared memory. The limit on concurrent workers of the index expansion is left out.
- IndexExpansion.System.NextInv: takes writes to the shared maps to be atomic, though the code does not lock them; what a data race may do is left out.
- IndexExpansion.AliasMeansIndexAndManifests: requires that one reference finds one index and one index has one list of manifests, as content addressing provides.
- The older filters of namespaces and include lists, and the loading of policies.
