/** What a policy comes to for rules, packages and results, in so many words. */
module ResolvedPolicy {
  import opened Wrappers
  import opened Sequences
  import opened Strings
  import opened Results
  import opened Specificity
  import opened PolicyResolution
  import opened PostEvaluation
  import opened PackageSelection

  // ----- rules -----

  ghost predicate OnList(info: RuleInfo, names: seq<string>) {
    exists name :: name in RuleMatchers(info.code, info.collections) && name in names
  }

  lemma OnListIff(info: RuleInfo, names: seq<string>)
    ensures OnList(info, names) <==> TotalScore(RuleMatchers(info.code, info.collections), names) > 0
  {
    var matchers := RuleMatchers(info.code, info.collections);
    TotalScorePositiveIffMatched(matchers, names);
    if name :| name in matchers && name in names {
      assert name in Matched(matchers, names);
    }
    if name :| name in Matched(matchers, names) {
      assert name in matchers && name in names;
    }
  }

  /** A rule is included if it scores more on the includes, or if there are none and it is on no list;
      it is excluded if it does not and is on the exclude list. */
  lemma VerdictIff(info: RuleInfo, p: Policy)
    ensures var matchers := RuleMatchers(info.code, info.collections);
            var more := TotalScore(matchers, p.includes) > TotalScore(matchers, p.excludes);
            && (VerdictOf(info, p) == Included <==> more || (p.includes == [] && !OnList(info, p.excludes)))
            && (VerdictOf(info, p) == Excluded <==> !more && OnList(info, p.excludes))
  {
    OnListIff(info, p.excludes);
  }

  /** Without pipeline intentions a package passes if none of its rules has any, with some if one of
      its rules has one of them; a resolver that does not heed them lets every package pass. */
  lemma PassesIff(infos: set<RuleInfo>, intentions: seq<string>)
    ensures Passes(infos, None)
    ensures Passes(infos, Some(intentions))
            <==> if intentions == [] then forall info | info in infos :: info.pipelineIntention == []
                 else exists info, i :: info in infos && i in info.pipelineIntention && i in intentions
  {
  }

  /** A package is the part of a name in front of the first dot, or the name if there is nothing there. */
  lemma PackageOfName(first: string, rest: string)
    requires '.' !in first && first != ""
    ensures PackageOf(first) == first && PackageOf(first + "." + rest) == first && PackageOf("." + rest) == "." + rest
  {
    SplitWhole(first, '.');
    CutAt(first, rest, '.');
    CutAt("", rest, '.');
    assert "" + "." + rest == "." + rest;
  }

  // ----- the resolution -----

  ghost predicate RulePasses(rules: PolicyRules, p: Policy, fqName: string) {
    fqName in rules && Passes(InfosIn(rules, {PackageOf(fqName)}), p.intentions)
  }

  lemma InPassing(rules: PolicyRules, p: Policy, info: RuleInfo)
    ensures info in InfosIn(rules, Passing(rules, p)) <==> exists fqName :: RulePasses(rules, p, fqName) && rules[fqName] == info
  {
    if fqName :| RulePasses(rules, p, fqName) && rules[fqName] == info {
      assert PackageOf(fqName) in Packages(rules);
    }
  }

  /** The included and excluded rules are those of passing packages with that verdict, and the includes
      that are missing are those that no rule of a passing package matches. */
  lemma ResolvedRulesIff(rules: PolicyRules, p: Policy, name: string)
    ensures name in Resolved(rules, p).includedRules
            <==> exists fqName :: RulePasses(rules, p, fqName) && rules[fqName].code == name && VerdictOf(rules[fqName], p) == Included
    ensures name in Resolved(rules, p).excludedRules
            <==> exists fqName :: RulePasses(rules, p, fqName) && rules[fqName].code == name && VerdictOf(rules[fqName], p) == Excluded
    ensures name in Resolved(rules, p).missingIncludes
            <==> name in p.includes
                 && forall fqName | RulePasses(rules, p, fqName) :: name !in RuleMatchers(rules[fqName].code, rules[fqName].collections)
  {
    forall info {
      InPassing(rules, p, info);
    }
    MissingIff(rules, p, name);
  }

  lemma MissingIff(rules: PolicyRules, p: Policy, name: string)
    ensures name in Resolved(rules, p).missingIncludes
            <==> name in p.includes
                 && forall fqName | RulePasses(rules, p, fqName) :: name !in RuleMatchers(rules[fqName].code, rules[fqName].collections)
  {
    forall info: RuleInfo ensures name in Matched(RuleMatchers(info.code, info.collections), p.includes)
                        <==> name in p.includes && name in RuleMatchers(info.code, info.collections)
    {
    }
    forall fqName | RulePasses(rules, p, fqName) ensures rules[fqName] in InfosIn(rules, Passing(rules, p)) {
      InPassing(rules, p, rules[fqName]);
    }
    forall info | info in InfosIn(rules, Passing(rules, p)) ensures exists fqName :: RulePasses(rules, p, fqName) && rules[fqName] == info {
      InPassing(rules, p, info);
    }
  }

  ghost predicate HasVerdict(rules: PolicyRules, p: Policy, pkg: string, v: Verdict) {
    exists fqName :: fqName in rules && PackageOf(fqName) == pkg && VerdictOf(rules[fqName], p) == v
  }

  lemma OwnCodes(rules: PolicyRules, p: Policy, pkg: string, v: Verdict)
    requires forall fqName | fqName in rules :: rules[fqName].code == fqName
    ensures (exists info :: info in InfosIn(rules, {pkg}) && info.code in Codes(InfosIn(rules, {pkg}), v, p))
            <==> HasVerdict(rules, p, pkg, v)
  {
    if fqName :| fqName in rules && PackageOf(fqName) == pkg && VerdictOf(rules[fqName], p) == v {
      assert rules[fqName] in InfosIn(rules, {pkg});
    }
    if info :| info in InfosIn(rules, {pkg}) && info.code in Codes(InfosIn(rules, {pkg}), v, p) {
      var other :| other in InfosIn(rules, {pkg}) && VerdictOf(other, p) == v && other.code == info.code;
      assert VerdictOf(rules[other.code], p) == v;
    }
  }

  /** Of rules collected by code a passing package is included if one of its rules is, and excluded if
      none of its rules is included but one excluded. */
  lemma ResolvedPackagesIff(rules: PolicyRules, p: Policy, pkg: string)
    requires forall fqName | fqName in rules :: rules[fqName].code == fqName
    ensures pkg in Resolved(rules, p).includedPackages
            <==> Passes(InfosIn(rules, {pkg}), p.intentions) && HasVerdict(rules, p, pkg, Included)
    ensures pkg in Resolved(rules, p).excludedPackages
            <==> Passes(InfosIn(rules, {pkg}), p.intentions) && HasVerdict(rules, p, pkg, Excluded)
                 && !HasVerdict(rules, p, pkg, Included)
  {
    assert {} + {pkg} == {pkg};
    OwnCodes(rules, p, pkg, Included);
    OwnCodes(rules, p, pkg, Excluded);
    assert forall v | HasVerdict(rules, p, pkg, v) :: pkg in Packages(rules);
  }

  // ----- results -----

  /** A result without a code is kept; any other is kept if it scores more on the includes. */
  lemma KeptIff(results: seq<Result>, p: Policy, r: Result)
    ensures r in Kept(results, p)
            <==> r in results && (StringAt(r, "code") == ""
                                  || TotalScore(Matchers(r), p.includes) > TotalScore(Matchers(r), p.excludes))
  {
    FilterElements(results, r => Keep(r, p));
  }

  /** Heeding intentions, a result without a code is kept; any other is kept if its rule is included. */
  lemma KeptByRulesIff(results: seq<Result>, includedRules: set<string>, r: Result)
    ensures r in KeptByRules(results, includedRules)
            <==> r in results && (StringAt(r, "code") == "" || StringAt(r, "code") in includedRules)
  {
    FilterElements(results, r => KeepByRules(r, includedRules));
  }

  /** Without any included package what is configured is evaluated, and without that everything. */
  lemma NothingIncluded(pkg: string, resolution: Resolution, configured: seq<string>)
    requires resolution.includedPackages == {}
    ensures IsEvaluated(pkg, resolution, configured) <==> configured == [] || pkg in configured
  {
  }
}
