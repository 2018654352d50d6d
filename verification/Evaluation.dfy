/** Evaluating a policy: from the outcomes of running its rules to the outcomes reported. */
module Evaluation {
  import opened Wrappers
  import opened Sequences
  import opened Strings
  import opened Results
  import opened Specificity
  import opened PolicyCriteria
  import opened PolicyResolution
  import opened PostEvaluation
  import opened Categorisation
  import opened Trim

  // ----- successes -----

  /** The codes of the results that have one as a string. */
  function SeenCodes(o: Outcome): set<string> {
    CodesOf(o.failures) + CodesOf(o.warnings) + CodesOf(o.skipped) + CodesOf(o.exceptions)
  }

  /** The success of a rule, as it is filtered. */
  function SuccessOf(code: string, info: RuleInfo): Result {
    var m1 := WithText(map[CODE := Text(code)], TITLE, info.title);
    var m2 := WithText(m1, DESCRIPTION, info.description);
    var m3 := WithTexts(m2, COLLECTIONS, info.collections);
    Result("Pass", WithTexts(m3, DEPENDS_ON, info.dependsOn))
  }

  function ReportedSuccess(code: string, info: RuleInfo): Result {
    var success := SuccessOf(code, info);
    success.(metadata := WithText(success.metadata, EFFECTIVE_ON, info.effectiveOn))
  }

  /** The rules of the outcome's namespace that nothing kept was reported for. */
  function CandidateCodes(o: Outcome, rules: PolicyRules): set<string> {
    set code | code in rules && code !in SeenCodes(o) && rules[code].package == o.namespace
  }

  function Candidates(o: Outcome, rules: PolicyRules): set<Result> {
    set code | code in CandidateCodes(o, rules) :: SuccessOf(code, rules[code])
  }

  function SuccessCodes(o: Outcome, rules: PolicyRules, p: Policy): set<string> {
    set code | code in CandidateCodes(o, rules) && Keep(SuccessOf(code, rules[code]), p)
  }

  /** The reported successes of the codes, one each, in any order. */
  ghost predicate OneSuccessEach(successes: seq<Result>, codes: set<string>, rules: PolicyRules) {
    && (forall s | s in successes ::
          exists code :: code in codes && code in rules && s == ReportedSuccess(code, rules[code]))
    && (forall code | code in codes ::
          code in rules && multiset(successes)[ReportedSuccess(code, rules[code])] == 1)
  }

  lemma SuccessOfCode(code: string, info: RuleInfo)
    ensures SuccessOf(code, info).Get(CODE) == Text(code) && ReportedSuccess(code, info).Get(CODE) == Text(code)
    ensures StringAt(SuccessOf(code, info), CODE) == code
    ensures StringsAt(SuccessOf(code, info), TERM) == []
    ensures CollectionNames(SuccessOf(code, info)) == Prefixed(info.collections)
  {
    assert Prefixed([]) == [];
  }

  lemma OneMoreSuccess(successes: seq<Result>, codes: set<string>, code: string, rules: PolicyRules)
    requires OneSuccessEach(successes, codes, rules)
    requires code !in codes && code in rules
    ensures OneSuccessEach(successes + [ReportedSuccess(code, rules[code])], codes + {code}, rules)
  {
    var s := ReportedSuccess(code, rules[code]);
    SuccessOfCode(code, rules[code]);
    forall other | other in codes ensures ReportedSuccess(other, rules[other]) != s {
      SuccessOfCode(other, rules[other]);
    }
    assert s !in successes;
    forall other | other in codes + {code}
      ensures multiset(successes + [s])[ReportedSuccess(other, rules[other])] == 1
    {
      ConcatMultiplicity(successes, [s], ReportedSuccess(other, rules[other]));
      assert s !in multiset(successes);
    }
  }

  method ComputeSuccesses(o: Outcome, rules: PolicyRules, p: Policy, missingIncludes: set<string>)
    returns (successes: seq<Result>, missing: set<string>)
    ensures OneSuccessEach(successes, SuccessCodes(o, rules, p), rules)
    ensures missing == set name | name in missingIncludes && !AccountsFor(Candidates(o, rules), p, name)
  {
    var seenRules := {};
    seenRules := CollectReported(o.failures, seenRules);
    seenRules := CollectReported(o.warnings, seenRules);
    seenRules := CollectReported(o.skipped, seenRules);
    seenRules := CollectReported(o.exceptions, seenRules);
    assert seenRules == SeenCodes(o);
    successes := [];
    missing := missingIncludes;
    var todo := rules.Keys;
    ghost var done := {};
    while todo != {}
      invariant todo !! done && todo + done == rules.Keys
      invariant OneSuccessEach(successes, SuccessCodes(o, rules, p) * done, rules)
      invariant missing == set name | name in missingIncludes && !AccountsFor(CandidatesIn(o, rules, done), p, name)
      decreases todo
    {
      var code :| code in todo;
      CandidatesOneMore(o, rules, done, code, p);
      SuccessCodesOneMore(o, rules, p, done, code);
      todo := todo - {code};
      ghost var before := done;
      done := done + {code};
      if code in seenRules || rules[code].package != o.namespace {
        continue;
      }
      var kept, success;
      kept, success, missing := TrySuccess(code, rules[code], p, missing);
      if !kept {
        continue;
      }
      OneMoreSuccess(successes, SuccessCodes(o, rules, p) * before, code, rules);
      successes := successes + [success];
    }
    assert CandidatesIn(o, rules, done) == Candidates(o, rules);
    assert SuccessCodes(o, rules, p) * done == SuccessCodes(o, rules, p);
  }

  lemma SuccessCodesOneMore(o: Outcome, rules: PolicyRules, p: Policy, done: set<string>, code: string)
    requires code in rules
    ensures SuccessCodes(o, rules, p) * (done + {code})
            == SuccessCodes(o, rules, p) * done
               + (if code in CandidateCodes(o, rules) && Keep(SuccessOf(code, rules[code]), p) then {code} else {})
  {
  }

  /** Filters the success of one rule like any other result. */
  method TrySuccess(code: string, info: RuleInfo, p: Policy, missingIncludes: set<string>)
    returns (kept: bool, success: Result, missing: set<string>)
    ensures kept == Keep(SuccessOf(code, info), p)
    ensures kept ==> success == ReportedSuccess(code, info)
    ensures missing == set name | name in missingIncludes && !AccountsFor({SuccessOf(code, info)}, p, name)
  {
    success := MakeSuccess(code, info);
    var filteredResults;
    filteredResults, missing := FilterResults([success], p, missingIncludes);
    assert ResultSet([success]) == {success};
    FilterElements([success], r => Keep(r, p));
    kept := |filteredResults| != 0;
    assert kept ==> filteredResults[0] in filteredResults;
    assert success in [success];
    if kept && info.effectiveOn != "" {
      success := success.(metadata := success.metadata[EFFECTIVE_ON := Text(info.effectiveOn)]);
    }
  }

  method MakeSuccess(code: string, info: RuleInfo) returns (success: Result)
    ensures success == SuccessOf(code, info)
  {
    var m: map<string, Value> := map[CODE := Text(code)];
    if info.title != "" { m := m[TITLE := Text(info.title)]; }
    if info.description != "" { m := m[DESCRIPTION := Text(info.description)]; }
    if |info.collections| > 0 { m := m[COLLECTIONS := Texts(info.collections)]; }
    if |info.dependsOn| > 0 { m := m[DEPENDS_ON := Texts(info.dependsOn)]; }
    success := Result("Pass", m);
  }

  function CandidatesIn(o: Outcome, rules: PolicyRules, done: set<string>): set<Result> {
    set code | code in CandidateCodes(o, rules) * done :: SuccessOf(code, rules[code])
  }

  lemma CandidatesOneMore(o: Outcome, rules: PolicyRules, done: set<string>, code: string, p: Policy)
    requires code in rules
    ensures forall name ::
              AccountsFor(CandidatesIn(o, rules, done + {code}), p, name)
              <==> AccountsFor(CandidatesIn(o, rules, done), p, name)
                   || (code in CandidateCodes(o, rules) && AccountsFor({SuccessOf(code, rules[code])}, p, name))
  {
    var codes := CandidateCodes(o, rules);
    var added := if code in codes then {SuccessOf(code, rules[code])} else {};
    assert codes * (done + {code}) == codes * done + (if code in codes then {code} else {});
    assert CandidatesIn(o, rules, done + {code}) == CandidatesIn(o, rules, done) + added;
    AccountsForUnion(CandidatesIn(o, rules, done), added, p);
  }

  lemma AccountsForUnion(a: set<Result>, b: set<Result>, p: Policy)
    ensures forall name :: AccountsFor(a + b, p, name) <==> AccountsFor(a, p, name) || AccountsFor(b, p, name)
  {
  }

  // ----- one outcome -----

  function WithMetadata(results: seq<Result>, rules: PolicyRules, ctx: Context): seq<Result> {
    seq(|results|, i requires 0 <= i < |results| => WithRuleMetadata(results[i], rules, ctx))
  }

  /** Results share their metadata with the outcome they came in, so that has it added too. */
  function AugmentedOutcome(o: Outcome, rules: PolicyRules, ctx: Context): Outcome {
    o.(warnings := WithMetadata(o.warnings, rules, ctx), failures := WithMetadata(o.failures, rules, ctx),
       exceptions := WithMetadata(o.exceptions, rules, ctx), skipped := WithMetadata(o.skipped, rules, ctx))
  }

  function AllResults(o: Outcome): seq<Result> {
    o.warnings + o.failures + o.exceptions + o.skipped
  }

  /** The outcome after filtering and categorising the results of `a`, which have their metadata. */
  function CategorisedOutcome(o: Outcome, a: Outcome, p: Policy, ctx: Context): Outcome {
    var kept := Kept(AllResults(a), p);
    o.(warnings := InCategory(kept, a, ctx, Warnings),
       failures := InCategory(kept, a, ctx, Failures),
       exceptions := InCategory(kept, a, ctx, ExceptionsToo) + a.exceptions,
       skipped := InCategory(kept, a, ctx, SkippedToo) + a.skipped)
  }

  /** The same for the rules' metadata, before its successes are known. */
  function FilteredOutcome(o: Outcome, rules: PolicyRules, p: Policy, ctx: Context): Outcome {
    CategorisedOutcome(o, AugmentedOutcome(o, rules, ctx), p, ctx)
  }

  /** Everything an outcome is filtered for: its results and the candidates for a success. */
  function Considered(o: Outcome, rules: PolicyRules, p: Policy, ctx: Context): set<Result> {
    ResultSet(AllResults(AugmentedOutcome(o, rules, ctx))) + Candidates(FilteredOutcome(o, rules, p, ctx), rules)
  }

  /** The reported outcome is the filtered one with one success for each code that has earned it. */
  ghost predicate Evaluated(o: Outcome, rules: PolicyRules, p: Policy, ctx: Context, after: Outcome) {
    && after.(successes := o.successes) == FilteredOutcome(o, rules, p, ctx)
    && OneSuccessEach(after.successes, SuccessCodes(FilteredOutcome(o, rules, p, ctx), rules, p), rules)
  }

  method AddRuleMetadata(results: seq<Result>, rules: PolicyRules, ctx: Context) returns (augmented: seq<Result>)
    ensures augmented == WithMetadata(results, rules, ctx)
  {
    augmented := [];
    for i := 0 to |results|
      invariant augmented == WithMetadata(results, rules, ctx)[..i]
    {
      var r := results[i];
      var code := r.Get(CODE);
      if code.Text? {
        r := AddMetadataToResults(r, if code.text in rules then rules[code.text] else NO_RULE, ctx);
      }
      augmented := augmented + [r];
    }
    assert WithMetadata(results, rules, ctx)[..|results|] == WithMetadata(results, rules, ctx);
  }

  method EvaluateOutcome(o: Outcome, rules: PolicyRules, p: Policy, missingIncludes: set<string>, ctx: Context)
    returns (after: Outcome, missing: set<string>)
    ensures Evaluated(o, rules, p, ctx, after)
    ensures missing == set name | name in missingIncludes && !AccountsFor(Considered(o, rules, p, ctx), p, name)
  {
    var warnings := AddRuleMetadata(o.warnings, rules, ctx);
    var failures := AddRuleMetadata(o.failures, rules, ctx);
    var exceptions := AddRuleMetadata(o.exceptions, rules, ctx);
    var skipped := AddRuleMetadata(o.skipped, rules, ctx);
    var a := o.(warnings := warnings, failures := failures, exceptions := exceptions, skipped := skipped);
    var allResults := a.warnings + a.failures + a.exceptions + a.skipped;
    var filteredResults;
    filteredResults, missing := FilterResults(allResults, p, missingIncludes);
    warnings, failures, exceptions, skipped := CategorizeResults(filteredResults, a, ctx);
    after := o.(warnings := warnings, failures := failures, exceptions := exceptions, skipped := skipped);
    assert after == FilteredOutcome(o, rules, p, ctx);
    var successes;
    successes, missing := ComputeSuccesses(after, rules, p, missing);
    after := after.(successes := successes);
    AccountsForUnion(ResultSet(allResults), Candidates(FilteredOutcome(o, rules, p, ctx), rules), p);
  }

  // ----- all outcomes -----

  function AllItems(items: Items): set<string> {
    (set name | name in items.defaultItems) + (set key, name | key in items.digestItems && name in items.digestItems[key] :: name)
  }

  function Unmatched(name: string): Outcome {
    Outcome("", [], [], [Result("Include criterion '" + name + "' doesn't match any policy rule", map[])], [], [])
  }

  function RulesIn(o: Outcome): nat {
    |o.warnings| + |o.failures| + |o.successes|
  }

  function TotalRules(os: seq<Outcome>): nat {
    if os == [] then 0 else TotalRules(os[..|os| - 1]) + RulesIn(os[|os| - 1])
  }

  /** The includes, for whatever image, that no result or candidate of any outcome accounts for. */
  function MissingIncludes(items: Items, os: seq<Outcome>, rules: PolicyRules, p: Policy, ctx: Context): set<string> {
    set name | name in AllItems(items) && forall o | o in os :: !AccountsFor(Considered(o, rules, p, ctx), p, name)
  }

  method AllItemsOf(items: Items) returns (all: set<string>)
    ensures all == AllItems(items)
  {
    all := {};
    for i := 0 to |items.defaultItems|
      invariant all == set name | name in items.defaultItems[..i]
    {
      all := all + {items.defaultItems[i]};
      assert items.defaultItems[..i + 1] == items.defaultItems[..i] + [items.defaultItems[i]];
    }
    assert items.defaultItems[..|items.defaultItems|] == items.defaultItems;
    ghost var defaults := all;
    var todo := items.digestItems.Keys;
    while todo != {}
      invariant todo <= items.digestItems.Keys
      invariant all == defaults + set key, name | key in items.digestItems.Keys - todo && name in items.digestItems[key] :: name
      decreases todo
    {
      var key :| key in todo;
      all := all + set name | name in items.digestItems[key];
      todo := todo - {key};
    }
  }

  ghost predicate AllEvaluated(os: seq<Outcome>, rules: PolicyRules, p: Policy, ctx: Context, after: seq<Outcome>) {
    |os| == |after| && forall i | 0 <= i < |os| :: Evaluated(os[i], rules, p, ctx, after[i])
  }

  lemma OneMoreEvaluated(os: seq<Outcome>, i: nat, rules: PolicyRules, p: Policy, ctx: Context,
                         after: seq<Outcome>, one: Outcome)
    requires i < |os| && AllEvaluated(os[..i], rules, p, ctx, after) && Evaluated(os[i], rules, p, ctx, one)
    ensures AllEvaluated(os[..i + 1], rules, p, ctx, after + [one])
  {
    forall j | 0 <= j < i + 1 ensures Evaluated(os[..i + 1][j], rules, p, ctx, (after + [one])[j]) {
      if j < i {
        assert os[..i + 1][j] == os[..i][j] && (after + [one])[j] == after[j];
      }
    }
  }

  lemma TotalRulesOfOneMore(after: seq<Outcome>, one: Outcome)
    ensures TotalRules(after + [one]) == TotalRules(after) + RulesIn(one)
  {
    assert (after + [one])[..|after|] == after;
  }

  method EvaluateEach(runResults: seq<Outcome>, rules: PolicyRules, items: Items, p: Policy, ctx: Context)
    returns (results: seq<Outcome>, missingIncludes: set<string>, totalRules: nat)
    ensures AllEvaluated(runResults, rules, p, ctx, results)
    ensures missingIncludes == MissingIncludes(items, runResults, rules, p, ctx)
    ensures totalRules == TotalRules(results)
  {
    totalRules := 0;
    missingIncludes := AllItemsOf(items);
    results := [];
    for i := 0 to |runResults|
      invariant AllEvaluated(runResults[..i], rules, p, ctx, results)
      invariant missingIncludes == MissingIncludes(items, runResults[..i], rules, p, ctx)
      invariant totalRules == TotalRules(results)
    {
      MissingOfOneMore(items, runResults, i, rules, p, ctx);
      var result;
      result, missingIncludes := EvaluateOutcome(runResults[i], rules, p, missingIncludes, ctx);
      totalRules := totalRules + |result.warnings| + |result.failures| + |result.successes|;
      OneMoreEvaluated(runResults, i, rules, p, ctx, results, result);
      TotalRulesOfOneMore(results, result);
      results := results + [result];
    }
    assert runResults[..|runResults|] == runResults;
  }

  /** The outcomes before trimming: those of the run, evaluated, and a warning for each include that
      nothing accounted for, in any order. */
  ghost predicate RunEvaluated(runResults: seq<Outcome>, rules: PolicyRules, items: Items, p: Policy, ctx: Context,
                               results: seq<Outcome>, unmatched: seq<string>) {
    && |results| == |runResults| + |unmatched|
    && AllEvaluated(runResults, rules, p, ctx, results[..|runResults|])
    && (forall i | 0 <= i < |unmatched| :: results[|runResults|..][i] == Unmatched(unmatched[i]))
    && multiset(unmatched) == multiset(MissingIncludes(items, runResults, rules, p, ctx))
  }

  method EvaluateResults(runResults: seq<Outcome>, rules: PolicyRules, items: Items, p: Policy, ctx: Context)
    returns (results: seq<Outcome>, unmatched: seq<string>, totalRules: nat)
    ensures RunEvaluated(runResults, rules, items, p, ctx, results, unmatched)
    ensures totalRules == TotalRules(results[..|runResults|])
  {
    var evaluated, missingIncludes, warnings;
    evaluated, missingIncludes, totalRules := EvaluateEach(runResults, rules, items, p, ctx);
    warnings, unmatched := ReportUnmatched(missingIncludes);
    results := evaluated + warnings;
    assert results[..|runResults|] == evaluated && results[|runResults|..] == warnings;
  }

  method ReportUnmatched(missingIncludes: set<string>) returns (outcomes: seq<Outcome>, unmatched: seq<string>)
    ensures |outcomes| == |unmatched| && forall i | 0 <= i < |unmatched| :: outcomes[i] == Unmatched(unmatched[i])
    ensures multiset(unmatched) == multiset(missingIncludes)
  {
    outcomes, unmatched := [], [];
    var todo := missingIncludes;
    while todo != {}
      invariant |outcomes| == |unmatched| && forall i | 0 <= i < |unmatched| :: outcomes[i] == Unmatched(unmatched[i])
      invariant multiset(unmatched) + multiset(todo) == multiset(missingIncludes)
      decreases todo
    {
      var missingInclude :| missingInclude in todo;
      outcomes := outcomes + [Unmatched(missingInclude)];
      unmatched := unmatched + [missingInclude];
      assert multiset(todo) == multiset(todo - {missingInclude}) + multiset{missingInclude};
      todo := todo - {missingInclude};
    }
  }

  lemma MissingOfOneMore(items: Items, os: seq<Outcome>, i: nat, rules: PolicyRules, p: Policy, ctx: Context)
    requires i < |os|
    ensures MissingIncludes(items, os[..i + 1], rules, p, ctx)
            == set name | name in MissingIncludes(items, os[..i], rules, p, ctx)
                          && !AccountsFor(Considered(os[i], rules, p, ctx), p, name)
  {
    assert os[..i + 1] == os[..i] + [os[i]];
    assert forall o :: o in os[..i + 1] <==> o in os[..i] || o == os[i];
  }

  /** Whether this may be reported: the trimmed outcomes of the run or, without any warning, failure
      or success before trimming, an error. */
  ghost predicate Reportable(runResults: seq<Outcome>, rules: PolicyRules, items: Items, p: Policy, ctx: Context,
                             report: Option<seq<Outcome>>) {
    exists results, unmatched ::
      && RunEvaluated(runResults, rules, items, p, ctx, results, unmatched)
      && report == if TotalRules(results[..|runResults|]) == 0 then None else Some(Trimmed(results))
  }

  method Evaluate(runResults: seq<Outcome>, rules: PolicyRules, items: Items, p: Policy, ctx: Context)
    returns (report: Option<seq<Outcome>>)
    ensures Reportable(runResults, rules, items, p, ctx, report)
  {
    var outcomes, unmatched, totalRules := EvaluateResults(runResults, rules, items, p, ctx);
    var results := new Outcome[|outcomes|](i requires 0 <= i < |outcomes| => outcomes[i]);
    assert results[..] == outcomes;
    TrimResults(results);
    if totalRules == 0 {
      return None;
    }
    return Some(results[..]);
  }

  // ----- what the reported outcome promises -----

  lemma SuccessInCodes(successes: seq<Result>, codes: set<string>, rules: PolicyRules, s: Result) returns (code: string)
    requires OneSuccessEach(successes, codes, rules) && s in successes
    ensures code in codes && code in rules && s == ReportedSuccess(code, rules[code]) && s.Get(CODE) == Text(code)
  {
    code :| code in codes && code in rules && s == ReportedSuccess(code, rules[code]);
    SuccessOfCode(code, rules[code]);
  }

  /** Every success is for a rule of the namespace that nothing reported shares its code with, and
      there is no other success for that rule. */
  lemma SuccessesAreTheirOwn(o: Outcome, rules: PolicyRules, p: Policy, ctx: Context, after: Outcome, s: Result)
    requires Evaluated(o, rules, p, ctx, after) && s in after.successes
    ensures s.Get(CODE).Text?
    ensures var code := s.Get(CODE).text;
            && code in rules && rules[code].package == after.namespace
            && code !in SeenCodes(after)
            && multiset(after.successes)[s] == 1
            && forall s' | s' in after.successes && s'.Get(CODE) == s.Get(CODE) :: s' == s
  {
    var codes := SuccessCodes(FilteredOutcome(o, rules, p, ctx), rules, p);
    var code := SuccessInCodes(after.successes, codes, rules, s);
    assert SeenCodes(after) == SeenCodes(FilteredOutcome(o, rules, p, ctx));
    forall s' | s' in after.successes && s'.Get(CODE) == s.Get(CODE) ensures s' == s {
      var code' := SuccessInCodes(after.successes, codes, rules, s');
    }
  }

  /** A result that was filtered out does not come back as a pass of its rule: not if it has no
      term and is in the collections of the rule. */
  lemma ExcludedResultsDoNotPass(o: Outcome, rules: PolicyRules, p: Policy, ctx: Context, after: Outcome, r: Result, code: string)
    requires Evaluated(o, rules, p, ctx, after)
    requires r in AllResults(AugmentedOutcome(o, rules, ctx)) && !Keep(r, p)
    requires r.Get(CODE) == Text(code) && code in rules
    requires StringsAt(r, TERM) == [] && CollectionNames(r) == Prefixed(rules[code].collections)
    ensures forall s | s in after.successes :: s.Get(CODE) != Text(code)
  {
    SuccessOfCode(code, rules[code]);
    assert Matchers(SuccessOf(code, rules[code])) == Matchers(r);
    var codes := SuccessCodes(FilteredOutcome(o, rules, p, ctx), rules, p);
    assert code !in codes;
    forall s | s in after.successes ensures s.Get(CODE) != Text(code) {
      var code' := SuccessInCodes(after.successes, codes, rules, s);
    }
  }

  /** A rule in collections lends them to its results, so the terms are all that matters. */
  lemma CollectionsComeFromRule(r: Result, rules: PolicyRules, ctx: Context, code: string)
    requires r.Get(CODE) == Text(code) && code in rules && rules[code].collections != []
    ensures CollectionNames(WithRuleMetadata(r, rules, ctx)) == Prefixed(rules[code].collections)
    ensures StringsAt(WithRuleMetadata(r, rules, ctx), TERM) == StringsAt(r, TERM)
  {
    AugmentedKeepsIdentity(r, rules[code], ctx);
  }

  /** The results of an outcome are the kept ones, its own exceptions and its own skipped ones. */
  lemma OutcomesConserveResults(o: Outcome, rules: PolicyRules, p: Policy, ctx: Context, after: Outcome)
    requires Evaluated(o, rules, p, ctx, after)
    ensures var a := AugmentedOutcome(o, rules, ctx);
            multiset(AllResults(after)) == multiset(Kept(AllResults(a), p)) + multiset(a.exceptions) + multiset(a.skipped)
  {
    var a := AugmentedOutcome(o, rules, ctx);
    CategoriesConserveResults(Kept(AllResults(a), p), a, ctx);
  }

  /** Before and after evaluation a rule and its termless results are decided alike, unless the
      source includes things for other images only and does not exclude the rule. */
  lemma SourceDecidesAlike(src: Source, at: int, target: Target, info: RuleInfo, r: Result)
    requires Parsed(target)
    requires StringAt(r, CODE) == info.code != ""
    requires StringsAt(r, TERM) == [] && CollectionNames(r) == Prefixed(info.collections)
    ensures var p := Policy(src.Includes(at).For(target), src.Excludes(at).For(target), None);
            (VerdictOf(info, p) == Included <==> Keep(r, p))
            <==> || src.lists.includes != []
                 || (forall c | c in src.volatileLists.includes :: !c.ActiveAt(at))
                 || (exists c :: c in src.volatileLists.includes && c.ActiveAt(at) && AppliesTo(c.Key(), target))
                 || Matched(Matchers(r), p.excludes) != {}
  {
    NothingIncludedFor(src, at, target);
    RuleAndResultAgree(info, r, Policy(src.Includes(at).For(target), src.Excludes(at).For(target), None));
  }
}
