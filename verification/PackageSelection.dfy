/** Which packages are evaluated at all: whether choosing them beforehand loses a result that
    would have been kept afterwards. */
module PackageSelection {
  import opened Wrappers
  import opened Sequences
  import opened Strings
  import opened Results
  import opened Specificity
  import opened SpecificityBounds
  import opened PolicyResolution
  import opened PostEvaluation

  // ----- one rule -----

  /** Whether some term, or if the rule has no collections one of those, is included more
      specifically than it is excluded. */
  ghost predicate Favours(info: RuleInfo, p: Policy) {
    info.code != "" && ResultsOutrank(info.code, info.collections, p.includes, p.excludes)
  }

  /** A result of the rule that is kept for its score. */
  ghost predicate KeptFor(info: RuleInfo, r: Result, p: Policy) {
    && Coded(r) && StringAt(r, CODE) == info.code && Keep(r, p)
    && exists own :: CanHave(info.collections, own) && CollectionNames(r) == Prefixed(own)
  }

  lemma KeptUnlessFavoured(info: RuleInfo, r: Result, p: Policy)
    requires KeptFor(info, r, p) && !Favours(info, p)
    ensures VerdictOf(info, p) == Included
  {
    var own :| CanHave(info.collections, own) && CollectionNames(r) == Prefixed(own);
    OtherResultsDoNotHelp(info.code, info.collections, StringsAt(r, TERM), own, p.includes, p.excludes);
  }

  lemma FavouredIsKept(info: RuleInfo, p: Policy) returns (r: Result)
    requires Favours(info, p)
    ensures KeptFor(info, r, p)
  {
    var terms, own := SomeResultHelps(info.code, info.collections, 1, p.includes, p.excludes);
    r := ResultWith(info.code, terms, own);
    ResultWithHas(info.code, terms, own);
    assert Matchers(r) == MatchersOf(info.code, terms, Prefixed(own));
  }

  /** Every result of a rule that is kept, whatever its terms and, if the rule has none, its
      collections, is a result of a rule that is included beforehand if and only if the rule is
      included or favours no term and no collection. */
  lemma SelectionLosesNothingIff(info: RuleInfo, p: Policy)
    ensures (forall r | KeptFor(info, r, p) :: VerdictOf(info, p) == Included)
            <==> VerdictOf(info, p) == Included || !Favours(info, p)
  {
    if Favours(info, p) {
      var r := FavouredIsKept(info, p);
    } else {
      forall r | KeptFor(info, r, p) ensures VerdictOf(info, p) == Included {
        KeptUnlessFavoured(info, r, p);
      }
    }
  }

  // ----- one package -----

  /** The included packages are evaluated or, if there are none, the configured ones or, if there
      are none of those either, all. */
  predicate IsEvaluated(pkg: string, resolution: Resolution, configured: seq<string>) {
    || pkg in resolution.includedPackages
    || (resolution.includedPackages == {} && (configured == [] || pkg in configured))
  }

  /** Whether the resolution is one that some order of the packages leads to, as to this package. */
  ghost predicate Resolves(rules: PolicyRules, p: Policy, pkg: string, resolution: Resolution) {
    SomeStatus(rules, p, pkg, StatusIn(resolution, pkg))
  }

  lemma IncludedRuleIncludesPackage(rules: PolicyRules, p: Policy, pkg: string, resolution: Resolution, info: RuleInfo)
    requires Resolves(rules, p, pkg, resolution)
    requires info in InfosIn(rules, {pkg}) && VerdictOf(info, p) == Included
    ensures pkg in resolution.includedPackages
  {
    var before :| before <= Passing(rules, p) - {pkg} && StatusIn(resolution, pkg) == StatusAfter(rules, p, pkg, before);
    VerdictsRaiseStatus(rules, p, pkg, before, info, info);
  }

  /** A package with a result that would be kept is among the included ones, in whatever order the
      packages are processed, unless the result's rule is not included and favours something. */
  lemma KeptResultsAreEvaluated(rules: PolicyRules, p: Policy, pkg: string, resolution: Resolution, info: RuleInfo, r: Result)
    requires Resolves(rules, p, pkg, resolution)
    requires info in InfosIn(rules, {pkg}) && KeptFor(info, r, p)
    requires VerdictOf(info, p) == Included || !Favours(info, p)
    ensures pkg in resolution.includedPackages
  {
    SelectionLosesNothingIff(info, p);
    IncludedRuleIncludesPackage(rules, p, pkg, resolution, info);
  }

  /** No result of the package's rules that would be kept is lost, in whatever order the packages
      are processed, if and only if the package is evaluated or none of its rules favours anything. */
  lemma PackageLosesNothingIff(rules: PolicyRules, p: Policy, pkg: string, resolution: Resolution, configured: seq<string>)
    requires Resolves(rules, p, pkg, resolution)
    ensures (forall info, r | info in InfosIn(rules, {pkg}) && KeptFor(info, r, p) :: IsEvaluated(pkg, resolution, configured))
            <==> IsEvaluated(pkg, resolution, configured) || forall info | info in InfosIn(rules, {pkg}) :: !Favours(info, p)
  {
    if info :| info in InfosIn(rules, {pkg}) && Favours(info, p) {
      var r := FavouredIsKept(info, p);
    } else {
      forall info, r | info in InfosIn(rules, {pkg}) && KeptFor(info, r, p) ensures IsEvaluated(pkg, resolution, configured) {
        KeptResultsAreEvaluated(rules, p, pkg, resolution, info, r);
      }
    }
  }

  // ----- including a term is not enough -----

  lemma NameDoesNotMatch(pkg: string, rule: string, terms: seq<string>, other: string)
    requires Plain(pkg) && Plain(rule) && Plain(other) && pkg != other
    ensures TotalScore(MatchersOf(Code(pkg, rule), terms, []), [other]) == 0
  {
    assert Prefixed([]) == [];
    ScoreByParts(pkg, rule, terms, [], [other]);
    assert '.' in pkg + ".*" && '.' in Code(pkg, rule);
    OnListOnce(pkg, [other]);
    OnListOnce(pkg + ".*", [other]);
    OnListOnce(Code(pkg, rule), [other]);
    OnListOnce("*", [other]);
    BaseIsTermless(pkg, rule);
    TermMatchersNameTerms(BaseMatchers(Code(pkg, rule)), terms);
    ScoreOfPackage(other);
    NoneOnList(TermMatchers(BaseMatchers(Code(pkg, rule)), terms), [other]);
  }

  /** Includes a term of a rule, and another package. */
  function TermAndPackage(pkg: string, rule: string, term: string, other: string): Policy {
    Policy([Code(pkg, rule) + ":" + term] + [other], [], None)
  }

  lemma VerdictOfTermsRule(pkg: string, rule: string, term: string, other: string)
    requires Plain(pkg) && Plain(rule) && Plain(other) && pkg != other && term != ""
    ensures VerdictOf(Rule(Code(pkg, rule), []), TermAndPackage(pkg, rule, term, other)) == Undecided
  {
    var matchers := RuleMatchers(Code(pkg, rule), []);
    assert Prefixed([]) == [];
    TotalScoreIsAdditive(matchers, [Code(pkg, rule) + ":" + term], [other]);
    RuleDoesNotScoreOnTerm(pkg, rule, term, []);
    NameDoesNotMatch(pkg, rule, [], other);
    NoScoreOnNothing(matchers);
  }

  lemma VerdictOfOther(pkg: string, rule: string, term: string, other: string, otherRule: string)
    requires Plain(other) && Plain(otherRule)
    ensures VerdictOf(Rule(Code(other, otherRule), []), TermAndPackage(pkg, rule, term, other)) == Included
  {
    var matchers := RuleMatchers(Code(other, otherRule), []);
    BaseMatchersOf(other, otherRule);
    assert matchers[0] == other;
    var names := TermAndPackage(pkg, rule, term, other).includes;
    assert names[1] == other;
    ScoresAtLeast(matchers, other, names);
    ScoreOfPackage(other);
    NoScoreOnNothing(matchers);
  }

  lemma ResultWithTermIsKept(pkg: string, rule: string, term: string, other: string)
    requires Plain(pkg) && Plain(rule) && Plain(other) && pkg != other && term != ""
    ensures Keep(Result("", map[CODE := Text(Code(pkg, rule)), TERM := Text(term)]), TermAndPackage(pkg, rule, term, other))
  {
    var r := Result("", map[CODE := Text(Code(pkg, rule)), TERM := Text(term)]);
    assert Prefixed([]) == [];
    assert Matchers(r) == ResultMatchers(pkg, rule, [term], []);
    TotalScoreIsAdditive(Matchers(r), [Code(pkg, rule) + ":" + term], [other]);
    OnlyTermScores(pkg, rule, [term], term, []);
    NoScoreOnNothing(Matchers(r));
  }

  lemma PackageOfCode(pkg: string, rule: string)
    requires Plain(pkg)
    ensures PackageOf(Code(pkg, rule)) == pkg
  {
    CutAt(pkg, rule, '.');
  }

  function TwoRules(first: RuleInfo, second: RuleInfo): PolicyRules {
    map[first.code := first, second.code := second]
  }

  lemma TwoPackages(first: RuleInfo, second: RuleInfo, p: Policy)
    requires PackageOf(first.code) != PackageOf(second.code) && p.intentions.None?
    ensures var a, b, rules := PackageOf(first.code), PackageOf(second.code), TwoRules(first, second);
            && Passing(rules, p) == {a, b}
            && InfosIn(rules, {} + {a}) == {first} == InfosIn(rules, {a})
            && InfosIn(rules, {} + {b}) == {second} == InfosIn(rules, {b})
  {
    var a, b, rules := PackageOf(first.code), PackageOf(second.code), TwoRules(first, second);
    assert first.code in rules && second.code in rules;
    assert {} + {a} == {a} && {} + {b} == {b};
    assert InfosIn(rules, {a}) == {first};
    assert InfosIn(rules, {b}) == {second};
  }

  lemma OnlySecondIncluded(first: RuleInfo, second: RuleInfo, p: Policy)
    requires PackageOf(first.code) != PackageOf(second.code) && p.intentions.None?
    requires VerdictOf(first, p) == Undecided && VerdictOf(second, p) == Included
    ensures Resolved(TwoRules(first, second), p).includedPackages == {PackageOf(second.code)}
  {
    var rules := TwoRules(first, second);
    TwoPackages(first, second, p);
    CodesOfOne(first, p);
    CodesOfOne(second, p);
    assert StatusAfter(rules, p, PackageOf(first.code), {}) == Undecided;
    assert StatusAfter(rules, p, PackageOf(second.code), {}) == Included;
  }

  /** A result whose very term is included would be kept, but its package is not included, so with
      any other package included it is not evaluated. */
  lemma IncludedTermIsNotEvaluated(pkg: string, rule: string, term: string, other: string, otherRule: string)
    requires Plain(pkg) && Plain(rule) && Plain(other) && Plain(otherRule) && pkg != other && term != ""
    ensures var p := TermAndPackage(pkg, rule, term, other);
            var rules := TwoRules(Rule(Code(pkg, rule), []), Rule(Code(other, otherRule), []));
            && Keep(Result("", map[CODE := Text(Code(pkg, rule)), TERM := Text(term)]), p)
            && OrderFree(rules, p)
            && Resolved(rules, p).includedPackages == {other}
            && forall configured :: !IsEvaluated(pkg, Resolved(rules, p), configured)
  {
    var p := TermAndPackage(pkg, rule, term, other);
    var first, second := Rule(Code(pkg, rule), []), Rule(Code(other, otherRule), []);
    ResultWithTermIsKept(pkg, rule, term, other);
    VerdictOfTermsRule(pkg, rule, term, other);
    VerdictOfOther(pkg, rule, term, other, otherRule);
    RulesKeyedByCodeAreOrderFree(TwoRules(first, second), p);
    PackageOfCode(pkg, rule);
    PackageOfCode(other, otherRule);
    OnlySecondIncluded(first, second, p);
  }
}
