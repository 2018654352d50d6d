/** Filtering and categorising the results of an evaluation. */
module PostEvaluation {
  import opened Wrappers
  import opened Sequences
  import opened Strings
  import opened Results
  import opened Specificity
  import opened PolicyCriteria
  import opened PolicyResolution

  // ----- filtering -----

  predicate Coded(r: Result) {
    StringAt(r, CODE) != ""
  }

  /** Results without a code are always kept. */
  predicate Keep(r: Result, p: Policy) {
    Coded(r) ==> Outscores(Matchers(r), p.includes, p.excludes)
  }

  function Kept(results: seq<Result>, p: Policy): seq<Result> {
    Filter(results, r => Keep(r, p))
  }

  /** The names the results account for: those on the target's list that match a coded result, and
      all matchers of the results that are kept. */
  predicate AccountsFor(results: set<Result>, p: Policy, name: string) {
    exists r :: r in results && name in Matchers(r) && ((Coded(r) && name in p.includes) || Keep(r, p))
  }

  function ResultSet(results: seq<Result>): set<Result> {
    set r | r in results
  }

  method LegacyIsResultIncluded(r: Result, p: Policy, missingIncludes: set<string>) returns (included: bool, missing: set<string>)
    ensures included == Outscores(Matchers(r), p.includes, p.excludes)
    ensures missing == missingIncludes - Matched(Matchers(r), p.includes)
  {
    var ruleMatchers := LegacyMakeMatchers(r);
    var includeScore, excludeScore, unused;
    includeScore, missing := LegacyScoreMatches(ruleMatchers, p.includes, missingIncludes);
    excludeScore, unused := LegacyScoreMatches(ruleMatchers, p.excludes, {});
    included := includeScore > excludeScore;
  }

  /** Filtering for a resolver without pipeline intentions. */
  method FilterResults(results: seq<Result>, p: Policy, missingIncludes: set<string>)
    returns (filteredResults: seq<Result>, missing: set<string>)
    ensures filteredResults == Kept(results, p)
    ensures missing == set name | name in missingIncludes && !AccountsFor(ResultSet(results), p, name)
  {
    filteredResults := [];
    missing := missingIncludes;
    for i := 0 to |results|
      invariant filteredResults == Kept(results[..i], p)
      invariant missing == set name | name in missingIncludes && !MatchedByCoded(results[..i], p, name)
    {
      var r := results[i];
      FilterOfOneMore(results, i, r => Keep(r, p));
      MatchedByOneMore(results, i, p);
      var codes := ExtractStringsFromMetadata(r, CODE);
      var code := if |codes| > 0 then codes[0] else "";
      if code == "" {
        filteredResults := filteredResults + [r];
        continue;
      }
      var included;
      included, missing := LegacyIsResultIncluded(r, p, missing);
      if included {
        filteredResults := filteredResults + [r];
      }
    }
    assert results[..|results|] == results;
    FilterElements(results, r => Keep(r, p));
    missing := DropMatched(filteredResults, missing);
  }

  ghost predicate MatchedByCoded(results: seq<Result>, p: Policy, name: string) {
    exists r :: r in results && Coded(r) && name in Matched(Matchers(r), p.includes)
  }

  ghost predicate MatchedByAny(results: seq<Result>, name: string) {
    exists r :: r in results && name in Matchers(r)
  }

  lemma MatchedByOneMore(results: seq<Result>, i: nat, p: Policy)
    requires i < |results|
    ensures forall name :: MatchedByCoded(results[..i + 1], p, name)
                           <==> MatchedByCoded(results[..i], p, name)
                                || (Coded(results[i]) && name in Matched(Matchers(results[i]), p.includes))
  {
    assert results[..i + 1] == results[..i] + [results[i]];
    assert forall r :: r in results[..i + 1] <==> r in results[..i] || r == results[i];
  }

  method IsMatcher(r: Result, name: string) returns (matched: bool)
    ensures matched == (name in Matchers(r))
  {
    var matchers := LegacyMakeMatchers(r);
    for j := 0 to |matchers|
      invariant name !in matchers[..j]
    {
      if matchers[j] == name {
        return true;
      }
    }
    assert matchers[..|matchers|] == matchers;
    return false;
  }

  method IsMatched(filteredResults: seq<Result>, name: string) returns (matched: bool)
    ensures matched == MatchedByAny(filteredResults, name)
  {
    matched := false;
    for i := 0 to |filteredResults|
      invariant !matched && forall j | 0 <= j < i :: name !in Matchers(filteredResults[j])
    {
      matched := IsMatcher(filteredResults[i], name);
      if matched {
        break;
      }
    }
  }

  method DropMatched(filteredResults: seq<Result>, missingIncludes: set<string>) returns (missing: set<string>)
    ensures missing == set name | name in missingIncludes && !MatchedByAny(filteredResults, name)
  {
    missing := missingIncludes;
    var todo := missingIncludes;
    while todo != {}
      invariant todo <= missing <= missingIncludes
      invariant forall name | name in missingIncludes && name !in todo :: name in missing <==> !MatchedByAny(filteredResults, name)
      decreases todo
    {
      var name :| name in todo;
      var matched := IsMatched(filteredResults, name);
      if matched {
        missing := missing - {name};
      }
      todo := todo - {name};
    }
  }

  /** Filtering for a resolver with pipeline intentions goes by the resolved rules. */
  predicate KeepByRules(r: Result, includedRules: set<string>) {
    !Coded(r) || StringAt(r, CODE) in includedRules
  }

  function KeptByRules(results: seq<Result>, includedRules: set<string>): seq<Result> {
    Filter(results, r => KeepByRules(r, includedRules))
  }

  method FilterResultsByRules(resolver: PolicyResolver, results: seq<Result>, rules: PolicyRules, target: Target,
                              missingIncludes: set<string>)
    returns (filteredResults: seq<Result>, missing: set<string>)
    requires resolver.pipelineIntentions.Some?
    ensures var r := Resolved(rules, resolver.PolicyFor(target));
            && filteredResults == KeptByRules(results, r.includedRules)
            && missing == missingIncludes * r.missingIncludes
  {
    var policyResolution := resolver.BaseResolvePolicy(rules, target);
    var includedRules := policyResolution.includedRules;
    var stillMissing := policyResolution.missingIncludes;
    filteredResults := [];
    for i := 0 to |results|
      invariant filteredResults == KeptByRules(results[..i], includedRules)
    {
      var r := results[i];
      FilterOfOneMore(results, i, r => KeepByRules(r, includedRules));
      var codes := ExtractStringsFromMetadata(r, CODE);
      var code := if |codes| > 0 then codes[0] else "";
      if code == "" {
        filteredResults := filteredResults + [r];
        continue;
      }
      if code in includedRules {
        filteredResults := filteredResults + [r];
      }
    }
    assert results[..|results|] == results;
    missing := missingIncludes;
    var todo := missingIncludes;
    while todo != {}
      invariant todo <= missing <= missingIncludes
      invariant forall name | name in missingIncludes && name !in todo ::
                  name in missing <==> name in stillMissing
      decreases todo
    {
      var name :| name in todo;
      if name !in stillMissing {
        missing := missing - {name};
      }
      todo := todo - {name};
    }
  }

  /** A rule and a termless result of it are decided alike, before and after evaluation, if and
      only if the target has an include list or the rule is on its exclude list. */
  lemma RuleAndResultAgree(info: RuleInfo, r: Result, p: Policy)
    requires StringAt(r, CODE) == info.code != ""
    requires StringsAt(r, TERM) == [] && CollectionNames(r) == Prefixed(info.collections)
    ensures (VerdictOf(info, p) == Included <==> Keep(r, p))
            <==> p.includes != [] || Matched(Matchers(r), p.excludes) != {}
  {
    assert Matchers(r) == RuleMatchers(info.code, info.collections);
    TotalScorePositiveIffMatched(Matchers(r), p.excludes);
    if p.includes == [] {
      NoScoreOnNothing(Matchers(r));
    }
  }

  lemma {:induction false} NoScoreOnNothing(needles: seq<string>)
    ensures TotalScore(needles, []) == 0
  {
    if needles != [] {
      NoScoreOnNothing(needles[1..]);
    }
  }
}
