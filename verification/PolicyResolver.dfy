/** Which rules and packages a policy includes or excludes, before anything is evaluated. */
module PolicyResolution {
  import opened Wrappers
  import opened Sequences
  import opened Strings
  import opened Results
  import opened Specificity
  import opened PolicyCriteria

  /** Everything the decisions depend on: the items for the target, and the pipeline intentions,
      which the plain resolver does not have. */
  datatype Policy = Policy(includes: seq<string>, excludes: seq<string>, intentions: Option<seq<string>>)

  // ----- one rule -----

  datatype Verdict = Included | Excluded | Undecided

  function VerdictOf(info: RuleInfo, p: Policy): Verdict {
    var matchers := RuleMatchers(info.code, info.collections);
    if Outscores(matchers, p.includes, p.excludes) then Included
    else if TotalScore(matchers, p.excludes) > 0 then Excluded
    else if p.includes == [] then Included
    else Undecided
  }

  function Codes(infos: set<RuleInfo>, v: Verdict, p: Policy): set<string> {
    set info | info in infos && VerdictOf(info, p) == v :: info.code
  }

  function MatchedBy(infos: set<RuleInfo>, p: Policy): set<string> {
    set info, name | info in infos && name in Matched(RuleMatchers(info.code, info.collections), p.includes) :: name
  }

  // ----- one package -----

  /** A package goes by the first dotted part of its rules' names. */
  function PackageOf(fqName: string): string {
    var first := Cut(fqName, '.').0;
    if first == "" then fqName else first
  }

  function ToSet(infos: seq<RuleInfo>): set<RuleInfo> {
    set info | info in infos
  }

  function InfosIn(rules: PolicyRules, pkgs: set<string>): set<RuleInfo> {
    set fqName | fqName in rules && PackageOf(fqName) in pkgs :: rules[fqName]
  }

  predicate Matches(info: RuleInfo, intentions: seq<string>) {
    exists intention :: intention in info.pipelineIntention && intention in intentions
  }

  /** Without intentions only packages free of them pass; with some, those sharing one. */
  predicate Passes(infos: set<RuleInfo>, intentions: Option<seq<string>>) {
    || intentions.None?
    || if intentions.value == [] then forall info | info in infos :: info.pipelineIntention == []
       else exists info | info in infos :: Matches(info, intentions.value)
  }

  /** Decided by the codes found included and excluded so far. */
  function Status(infos: set<RuleInfo>, included: set<string>, excluded: set<string>): Verdict {
    if exists info | info in infos :: info.code in included then Included
    else if exists info | info in infos :: info.code in excluded then Excluded
    else Undecided
  }

  // ----- the result, as it is filled -----

  datatype Resolution = Resolution(includedRules: set<string>, excludedRules: set<string>,
                                   includedPackages: set<string>, excludedPackages: set<string>,
                                   missingIncludes: set<string>) {
    function WithRules(infos: set<RuleInfo>, p: Policy): Resolution {
      this.(includedRules := includedRules + Codes(infos, Included, p),
            excludedRules := excludedRules + Codes(infos, Excluded, p),
            missingIncludes := missingIncludes - MatchedBy(infos, p))
    }

    function WithPackage(pkg: string, infos: set<RuleInfo>): Resolution {
      match Status(infos, includedRules, excludedRules)
      case Included => this.(includedPackages := includedPackages + {pkg})
      case Excluded => this.(excludedPackages := excludedPackages + {pkg})
      case Undecided => this
    }

    function Processed(pkg: string, infos: set<RuleInfo>, p: Policy): Resolution {
      if Passes(infos, p.intentions) then WithRules(infos, p).WithPackage(pkg, infos) else this
    }
  }

  class PolicyResolutionResult {
    var includedRules: set<string>
    var excludedRules: set<string>
    var includedPackages: set<string>
    var excludedPackages: set<string>
    var missingIncludes: set<string>

    function Value(): Resolution
      reads this
    {
      Resolution(includedRules, excludedRules, includedPackages, excludedPackages, missingIncludes)
    }

    constructor ()
      ensures Value() == Resolution({}, {}, {}, {}, {})
    {
      includedRules, excludedRules, includedPackages, excludedPackages, missingIncludes := {}, {}, {}, {}, {};
    }
  }

  class PolicyResolver {
    const includes: Criteria
    const excludes: Criteria
    /** Only the resolver that heeds pipeline intentions has any. */
    const pipelineIntentions: Option<seq<string>>

    constructor (includes: Criteria, excludes: Criteria, pipelineIntentions: Option<seq<string>>)
      ensures this.includes == includes && this.excludes == excludes && this.pipelineIntentions == pipelineIntentions
    {
      this.includes, this.excludes, this.pipelineIntentions := includes, excludes, pipelineIntentions;
    }

    function PolicyFor(target: Target): Policy
      reads includes, excludes
    {
      Policy(includes.Value().For(target), excludes.Value().For(target), pipelineIntentions)
    }

    method BaseEvaluateRuleInclusion(ruleInfo: RuleInfo, target: Target, result: PolicyResolutionResult)
      modifies result
      ensures result.Value() == old(result.Value()).WithRules({ruleInfo}, PolicyFor(target))
    {
      var ruleID := ruleInfo.code;
      ghost var p := PolicyFor(target);
      var matchers := CreateRuleMatchers(ruleID, ruleInfo);
      var includeItems := includes.Get(target);
      var excludeItems := excludes.Get(target);
      var includeScore, excludeScore;
      includeScore, result.missingIncludes := LegacyScoreMatches(matchers, includeItems, result.missingIncludes);
      var unused;
      excludeScore, unused := LegacyScoreMatches(matchers, excludeItems, {});
      if includeScore > excludeScore {
        result.includedRules := result.includedRules + {ruleID};
      } else if excludeScore > 0 {
        result.excludedRules := result.excludedRules + {ruleID};
      } else {
        if |includeItems| == 0 || (|includeItems| == 1 && includeItems[0] == "*") {
          result.includedRules := result.includedRules + {ruleID};
        }
      }
      StarLeavesNoDoubt(ruleInfo, p);
      WithOneRule(old(result.Value()), ruleInfo, p);
    }

    method BaseDeterminePackageInclusion(pkg: string, pkgRules: seq<RuleInfo>, result: PolicyResolutionResult)
      modifies result
      ensures result.Value() == old(result.Value()).WithPackage(pkg, ToSet(pkgRules))
    {
      var hasIncludedRules := false;
      var hasExcludedRules := false;
      for i := 0 to |pkgRules|
        invariant !hasIncludedRules && forall j | 0 <= j < i :: pkgRules[j].code !in result.includedRules
        invariant hasExcludedRules <==> exists j | 0 <= j < i :: pkgRules[j].code in result.excludedRules
      {
        var ruleID := pkgRules[i].code;
        if ruleID in result.includedRules {
          hasIncludedRules := true;
          break;
        }
        if ruleID in result.excludedRules {
          hasExcludedRules := true;
        }
      }
      if hasIncludedRules {
        result.includedPackages := result.includedPackages + {pkg};
      } else if hasExcludedRules {
        result.excludedPackages := result.excludedPackages + {pkg};
      }
    }

    method MatchesPipelineIntention(pkgRules: seq<RuleInfo>) returns (matches: bool)
      requires pipelineIntentions.Some?
      ensures matches == Passes(ToSet(pkgRules), pipelineIntentions)
    {
      var intentions := pipelineIntentions.value;
      if |intentions| == 0 {
        for i := 0 to |pkgRules|
          invariant forall j | 0 <= j < i :: pkgRules[j].pipelineIntention == []
        {
          if |pkgRules[i].pipelineIntention| > 0 {
            return false;
          }
        }
        return true;
      }
      for i := 0 to |pkgRules|
        invariant forall j | 0 <= j < i :: !Matches(pkgRules[j], intentions)
      {
        var own := pkgRules[i].pipelineIntention;
        for k := 0 to |own|
          invariant forall n | 0 <= n < k :: own[n] !in intentions
        {
          for t := 0 to |intentions|
            invariant forall n | 0 <= n < t :: own[k] != intentions[n]
          {
            if own[k] == intentions[t] {
              assert own[k] in pkgRules[i].pipelineIntention && intentions[t] in intentions;
              assert Matches(pkgRules[i], intentions);
              return true;
            }
          }
        }
      }
      return false;
    }

    method ProcessPackage(pkg: string, pkgRules: seq<RuleInfo>, target: Target, result: PolicyResolutionResult)
      modifies result
      ensures result.Value() == old(result.Value()).Processed(pkg, ToSet(pkgRules), PolicyFor(target))
    {
      if pipelineIntentions.Some? {
        var matches := MatchesPipelineIntention(pkgRules);
        if !matches {
          return;
        }
      }
      ghost var p := PolicyFor(target);
      for i := 0 to |pkgRules|
        invariant result.Value() == old(result.Value()).WithRules(ToSet(pkgRules[..i]), p)
      {
        BaseEvaluateRuleInclusion(pkgRules[i], target, result);
        WithOneMoreRule(old(result.Value()), pkgRules, i, p);
      }
      assert pkgRules[..|pkgRules|] == pkgRules;
      BaseDeterminePackageInclusion(pkg, pkgRules, result);
    }

    /** The packages are processed in whatever order the map yields them. What the rules and the
        missing includes come to does not depend on it; a package's status is the one it has after
        some of the other packages. */
    method BaseResolvePolicy(rules: PolicyRules, target: Target) returns (result: PolicyResolutionResult)
      ensures fresh(result)
      ensures var p := PolicyFor(target);
              && result.includedRules == Resolved(rules, p).includedRules
              && result.excludedRules == Resolved(rules, p).excludedRules
              && result.missingIncludes == Resolved(rules, p).missingIncludes
              && result.includedPackages !! result.excludedPackages
              && result.includedPackages + result.excludedPackages <= Passing(rules, p)
              && (forall pkg | pkg in Passing(rules, p) :: SomeStatus(rules, p, pkg, StatusIn(result.Value(), pkg)))
      ensures OrderFree(rules, PolicyFor(target)) ==> result.Value() == Resolved(rules, PolicyFor(target))
    {
      ghost var p := PolicyFor(target);
      result := new PolicyResolutionResult();
      var includeItems := includes.Get(target);
      result.missingIncludes := ToNameSet(includeItems);
      var grouped := GroupByPackage(rules);
      var todo := grouped.Keys;
      ghost var done := {};
      while todo != {}
        invariant done !! todo && done + todo == grouped.Keys
        invariant Progress(rules, p, done, result.Value())
        decreases todo
      {
        var pkg :| pkg in todo;
        ghost var before := result.Value();
        ProcessPackage(pkg, grouped[pkg], target, result);
        ProgressOfOneMore(rules, p, done, pkg, before);
        todo := todo - {pkg};
        done := done + {pkg};
      }
      assert done == Packages(rules);
      assert done * Passing(rules, p) == Passing(rules, p);
      if OrderFree(rules, p) {
        OrderFreeDecides(rules, p, result.Value());
      }
    }
  }

  method ToNameSet(names: seq<string>) returns (all: set<string>)
    ensures all == set name | name in names
  {
    all := {};
    for i := 0 to |names|
      invariant all == set name | name in names[..i]
    {
      all := all + {names[i]};
      assert names[..i + 1] == names[..i] + [names[i]];
    }
    assert names[..|names|] == names;
  }

  method GroupByPackage(rules: PolicyRules) returns (grouped: map<string, seq<RuleInfo>>)
    ensures grouped.Keys == Packages(rules)
    ensures forall pkg | pkg in grouped :: ToSet(grouped[pkg]) == InfosIn(rules, {pkg})
  {
    grouped := map[];
    var todo := rules.Keys;
    while todo != {}
      invariant todo <= rules.Keys
      invariant forall pkg :: pkg in grouped <==> exists fqName :: fqName in rules && fqName !in todo && PackageOf(fqName) == pkg
      invariant forall pkg | pkg in grouped :: ToSet(grouped[pkg]) == NamedInfos(rules, rules.Keys - todo, pkg)
      decreases todo
    {
      var fqName :| fqName in todo;
      var pkg := Cut(fqName, '.').0;
      if pkg == "" {
        pkg := fqName;
      }
      ghost var before := grouped;
      var infos := if pkg in grouped then grouped[pkg] else [];
      grouped := grouped[pkg := infos + [rules[fqName]]];
      NamedOneMore(rules, todo, fqName);
      assert ToSet(infos + [rules[fqName]]) == ToSet(infos) + {rules[fqName]};
      assert ToSet(infos) == NamedInfos(rules, rules.Keys - todo, pkg);
      todo := todo - {fqName};
    }
    assert forall pkg :: NamedInfos(rules, rules.Keys - {}, pkg) == InfosIn(rules, {pkg});
  }

  function NamedInfos(rules: PolicyRules, names: set<string>, pkg: string): set<RuleInfo> {
    set fqName | fqName in names && fqName in rules && PackageOf(fqName) == pkg :: rules[fqName]
  }

  lemma NamedOneMore(rules: PolicyRules, todo: set<string>, fqName: string)
    requires fqName in todo && fqName in rules
    ensures forall pkg :: NamedInfos(rules, rules.Keys - (todo - {fqName}), pkg)
                          == NamedInfos(rules, rules.Keys - todo, pkg)
                             + (if pkg == PackageOf(fqName) then {rules[fqName]} else {})
  {
  }

  // ----- the result in closed form -----

  function Packages(rules: PolicyRules): set<string> {
    set fqName | fqName in rules :: PackageOf(fqName)
  }

  function Passing(rules: PolicyRules, p: Policy): set<string> {
    set pkg | pkg in Packages(rules) && Passes(InfosIn(rules, {pkg}), p.intentions)
  }

  /** The status of a package that is processed after the given ones. */
  function StatusAfter(rules: PolicyRules, p: Policy, pkg: string, before: set<string>): Verdict {
    var seen := InfosIn(rules, before + {pkg});
    Status(InfosIn(rules, {pkg}), Codes(seen, Included, p), Codes(seen, Excluded, p))
  }

  function StatusIn(r: Resolution, pkg: string): Verdict {
    if pkg in r.includedPackages then Included else if pkg in r.excludedPackages then Excluded else Undecided
  }

  ghost predicate SomeStatus(rules: PolicyRules, p: Policy, pkg: string, v: Verdict) {
    exists before :: before <= Passing(rules, p) - {pkg} && v == StatusAfter(rules, p, pkg, before)
  }

  function Resolved(rules: PolicyRules, p: Policy): Resolution {
    var infos := InfosIn(rules, Passing(rules, p));
    Resolution(Codes(infos, Included, p), Codes(infos, Excluded, p),
               set pkg | pkg in Passing(rules, p) && StatusAfter(rules, p, pkg, {}) == Included,
               set pkg | pkg in Passing(rules, p) && StatusAfter(rules, p, pkg, {}) == Excluded,
               (set name | name in p.includes) - MatchedBy(infos, p))
  }

  ghost predicate Progress(rules: PolicyRules, p: Policy, done: set<string>, r: Resolution) {
    var seen := done * Passing(rules, p);
    && r.includedRules == Codes(InfosIn(rules, seen), Included, p)
    && r.excludedRules == Codes(InfosIn(rules, seen), Excluded, p)
    && r.missingIncludes == (set name | name in p.includes) - MatchedBy(InfosIn(rules, seen), p)
    && r.includedPackages !! r.excludedPackages
    && r.includedPackages + r.excludedPackages <= seen
    && forall pkg | pkg in seen :: SomeStatus(rules, p, pkg, StatusIn(r, pkg))
  }

  lemma ProgressOfOneMore(rules: PolicyRules, p: Policy, done: set<string>, pkg: string, r: Resolution)
    requires Progress(rules, p, done, r)
    requires pkg in Packages(rules) && pkg !in done
    ensures Progress(rules, p, done + {pkg}, r.Processed(pkg, InfosIn(rules, {pkg}), p))
  {
    var infos := InfosIn(rules, {pkg});
    var seen := done * Passing(rules, p);
    if Passes(infos, p.intentions) {
      assert (done + {pkg}) * Passing(rules, p) == seen + {pkg};
      RulesOfOneMore(rules, p, seen, pkg, r);
      PackageOfOneMore(rules, p, seen, pkg, r);
    } else {
      assert (done + {pkg}) * Passing(rules, p) == seen;
    }
  }

  lemma RulesOfOneMore(rules: PolicyRules, p: Policy, seen: set<string>, pkg: string, r: Resolution)
    requires r.includedRules == Codes(InfosIn(rules, seen), Included, p)
    requires r.excludedRules == Codes(InfosIn(rules, seen), Excluded, p)
    requires r.missingIncludes == (set name | name in p.includes) - MatchedBy(InfosIn(rules, seen), p)
    ensures var after := r.WithRules(InfosIn(rules, {pkg}), p);
            && after.includedRules == Codes(InfosIn(rules, seen + {pkg}), Included, p)
            && after.excludedRules == Codes(InfosIn(rules, seen + {pkg}), Excluded, p)
            && after.missingIncludes == (set name | name in p.includes) - MatchedBy(InfosIn(rules, seen + {pkg}), p)
  {
    assert InfosIn(rules, seen + {pkg}) == InfosIn(rules, seen) + InfosIn(rules, {pkg});
    WithRulesTwice(Resolution({}, {}, {}, {}, set name | name in p.includes), InfosIn(rules, seen), InfosIn(rules, {pkg}), p);
  }

  lemma PackageOfOneMore(rules: PolicyRules, p: Policy, seen: set<string>, pkg: string, r: Resolution)
    requires seen <= Passing(rules, p) && pkg !in seen
    requires r.includedRules == Codes(InfosIn(rules, seen), Included, p)
    requires r.excludedRules == Codes(InfosIn(rules, seen), Excluded, p)
    requires r.missingIncludes == (set name | name in p.includes) - MatchedBy(InfosIn(rules, seen), p)
    requires r.includedPackages !! r.excludedPackages && r.includedPackages + r.excludedPackages <= seen
    requires forall other | other in seen :: SomeStatus(rules, p, other, StatusIn(r, other))
    ensures var after := r.WithRules(InfosIn(rules, {pkg}), p).WithPackage(pkg, InfosIn(rules, {pkg}));
            && after.includedPackages !! after.excludedPackages
            && after.includedPackages + after.excludedPackages <= seen + {pkg}
            && forall other | other in seen + {pkg} :: SomeStatus(rules, p, other, StatusIn(after, other))
  {
    RulesOfOneMore(rules, p, seen, pkg, r);
    var middle := r.WithRules(InfosIn(rules, {pkg}), p);
    var after := middle.WithPackage(pkg, InfosIn(rules, {pkg}));
    assert StatusIn(after, pkg) == StatusAfter(rules, p, pkg, seen);
    assert seen <= Passing(rules, p) - {pkg};
    assert SomeStatus(rules, p, pkg, StatusIn(after, pkg));
    forall other | other in seen ensures SomeStatus(rules, p, other, StatusIn(after, other)) {
      assert StatusIn(after, other) == StatusIn(r, other);
    }
  }

  // ----- when the order of the packages does not matter -----

  function Rank(v: Verdict): nat {
    match v case Undecided => 0 case Excluded => 1 case Included => 2
  }

  /** Whether the rule is of another package, but has the code of one of this package's rules. */
  ghost predicate Borrows(rules: PolicyRules, p: Policy, pkg: string, other: RuleInfo) {
    && other in InfosIn(rules, Passing(rules, p) - {pkg})
    && exists info :: info in InfosIn(rules, {pkg}) && info.code == other.code
  }

  /** No rule that shares its code with a rule of another package has a verdict that ranks above the
      status which that package has by its own rules. */
  ghost predicate OrderFree(rules: PolicyRules, p: Policy) {
    forall pkg, other | pkg in Passing(rules, p) && Borrows(rules, p, pkg, other) ::
      Rank(VerdictOf(other, p)) <= Rank(StatusAfter(rules, p, pkg, {}))
  }

  /** Rules of other packages can only raise a package's status. */
  lemma StatusOnlyRises(rules: PolicyRules, p: Policy, pkg: string, less: set<string>, more: set<string>)
    requires less <= more
    ensures Rank(StatusAfter(rules, p, pkg, less)) <= Rank(StatusAfter(rules, p, pkg, more))
  {
    var few, many := InfosIn(rules, less + {pkg}), InfosIn(rules, more + {pkg});
    assert few <= many;
    assert Codes(few, Included, p) <= Codes(many, Included, p);
    assert Codes(few, Excluded, p) <= Codes(many, Excluded, p);
  }

  /** A package's status ranks at least as high as every verdict on its codes so far. */
  lemma VerdictsRaiseStatus(rules: PolicyRules, p: Policy, pkg: string, before: set<string>, info: RuleInfo, other: RuleInfo)
    requires info in InfosIn(rules, {pkg}) && other in InfosIn(rules, before + {pkg}) && info.code == other.code
    ensures Rank(VerdictOf(other, p)) <= Rank(StatusAfter(rules, p, pkg, before))
  {
    var seen := InfosIn(rules, before + {pkg});
    assert info.code in Codes(seen, VerdictOf(other, p), p);
  }

  /** And it is one of those verdicts, unless nothing is decided. */
  lemma StatusIsVerdict(rules: PolicyRules, p: Policy, pkg: string, before: set<string>) returns (info: RuleInfo, other: RuleInfo)
    requires StatusAfter(rules, p, pkg, before) != Undecided
    ensures info in InfosIn(rules, {pkg}) && other in InfosIn(rules, before + {pkg}) && info.code == other.code
    ensures VerdictOf(other, p) == StatusAfter(rules, p, pkg, before)
  {
    var own, seen, v := InfosIn(rules, {pkg}), InfosIn(rules, before + {pkg}), StatusAfter(rules, p, pkg, before);
    info :| info in own && info.code in Codes(seen, v, p);
    other :| other in seen && VerdictOf(other, p) == v && other.code == info.code;
  }

  lemma OrderFreeStatus(rules: PolicyRules, p: Policy, pkg: string, before: set<string>)
    requires OrderFree(rules, p) && pkg in Passing(rules, p) && before <= Passing(rules, p) - {pkg}
    ensures StatusAfter(rules, p, pkg, before) == StatusAfter(rules, p, pkg, {})
  {
    StatusOnlyRises(rules, p, pkg, {}, before);
    if StatusAfter(rules, p, pkg, before) != Undecided {
      var info, other := StatusIsVerdict(rules, p, pkg, before);
      if other in InfosIn(rules, {pkg}) {
        assert {} + {pkg} == {pkg};
        VerdictsRaiseStatus(rules, p, pkg, {}, other, other);
      } else {
        assert Borrows(rules, p, pkg, other);
      }
    }
  }

  /** The packages' statuses are the same in every order if and only if no package borrows a code
      with a verdict that ranks above its own status. */
  lemma OrderFreeIff(rules: PolicyRules, p: Policy)
    ensures OrderFree(rules, p)
            <==> forall pkg, before | pkg in Passing(rules, p) && before <= Passing(rules, p) - {pkg} ::
                   StatusAfter(rules, p, pkg, before) == StatusAfter(rules, p, pkg, {})
  {
    if OrderFree(rules, p) {
      forall pkg, before | pkg in Passing(rules, p) && before <= Passing(rules, p) - {pkg}
        ensures StatusAfter(rules, p, pkg, before) == StatusAfter(rules, p, pkg, {})
      {
        OrderFreeStatus(rules, p, pkg, before);
      }
    } else {
      var pkg, other :| pkg in Passing(rules, p) && Borrows(rules, p, pkg, other)
                        && Rank(VerdictOf(other, p)) > Rank(StatusAfter(rules, p, pkg, {}));
      var info :| info in InfosIn(rules, {pkg}) && info.code == other.code;
      var before := Passing(rules, p) - {pkg};
      VerdictsRaiseStatus(rules, p, pkg, before, info, other);
      assert StatusAfter(rules, p, pkg, before) != StatusAfter(rules, p, pkg, {});
    }
  }

  lemma OrderFreeDecides(rules: PolicyRules, p: Policy, r: Resolution)
    requires OrderFree(rules, p)
    requires r.includedPackages !! r.excludedPackages
    requires r.includedPackages + r.excludedPackages <= Passing(rules, p)
    requires forall pkg | pkg in Passing(rules, p) :: SomeStatus(rules, p, pkg, StatusIn(r, pkg))
    ensures r.includedPackages == Resolved(rules, p).includedPackages
    ensures r.excludedPackages == Resolved(rules, p).excludedPackages
  {
    OrderFreeIff(rules, p);
    forall pkg | pkg in Passing(rules, p) ensures StatusIn(r, pkg) == StatusAfter(rules, p, pkg, {}) {
      assert SomeStatus(rules, p, pkg, StatusIn(r, pkg));
    }
  }

  /** Rules are collected under their codes, so no code belongs to two packages. */
  lemma RulesKeyedByCodeAreOrderFree(rules: PolicyRules, p: Policy)
    requires forall fqName | fqName in rules :: rules[fqName].code == fqName
    ensures OrderFree(rules, p)
  {
    assert forall pkg, other | pkg in Passing(rules, p) :: !Borrows(rules, p, pkg, other);
  }

  /** Heeding pipeline intentions is resolving only the packages that pass. */
  lemma IntentionsOnlyRestrict(rules: PolicyRules, p: Policy)
    ensures var restricted := map fqName | fqName in rules && PackageOf(fqName) in Passing(rules, p) :: rules[fqName];
            Resolved(rules, p) == Resolved(restricted, p.(intentions := None))
  {
    var restricted: PolicyRules := map fqName | fqName in rules && PackageOf(fqName) in Passing(rules, p) :: rules[fqName];
    var plain := p.(intentions := None);
    var passing := Passing(rules, p);
    assert Packages(restricted) == passing by {
      forall pkg | pkg in passing ensures pkg in Packages(restricted) {
        var fqName :| fqName in rules && PackageOf(fqName) == pkg;
        assert fqName in restricted;
      }
    }
    assert Passing(restricted, plain) == passing;
    forall pkgs | pkgs <= passing ensures InfosIn(restricted, pkgs) == InfosIn(rules, pkgs) {
      forall fqName | fqName in rules && PackageOf(fqName) in pkgs ensures rules[fqName] in InfosIn(restricted, pkgs) {
        assert fqName in restricted && restricted[fqName] == rules[fqName];
      }
    }
    assert forall info :: VerdictOf(info, p) == VerdictOf(info, plain);
    forall infos, v ensures Codes(infos, v, p) == Codes(infos, v, plain) && MatchedBy(infos, p) == MatchedBy(infos, plain) {
    }
    forall pkg | pkg in passing ensures StatusAfter(rules, p, pkg, {}) == StatusAfter(restricted, plain, pkg, {}) {
      assert {} + {pkg} <= passing;
    }
  }

  lemma StarAlwaysMatches(info: RuleInfo, names: seq<string>)
    requires "*" in names
    ensures TotalScore(RuleMatchers(info.code, info.collections), names) > 0
  {
    var matchers := RuleMatchers(info.code, info.collections);
    assert matchers[|BaseMatchers(info.code)|] == "*";
    assert "*" in Matched(matchers, names);
    TotalScorePositiveIffMatched(matchers, names);
  }

  /** With just the wildcard on the include list a rule has a score, so it is decided by that. */
  lemma StarLeavesNoDoubt(info: RuleInfo, p: Policy)
    ensures p.includes == ["*"] ==> TotalScore(RuleMatchers(info.code, info.collections), p.includes) > 0
  {
    if p.includes == ["*"] {
      StarAlwaysMatches(info, p.includes);
    }
  }

  lemma CodesOfOne(info: RuleInfo, p: Policy)
    ensures forall v :: Codes({info}, v, p) == if VerdictOf(info, p) == v then {info.code} else {}
    ensures MatchedBy({info}, p) == Matched(RuleMatchers(info.code, info.collections), p.includes)
  {
  }

  lemma WithOneRule(r: Resolution, info: RuleInfo, p: Policy)
    ensures r.WithRules({info}, p)
            == r.(includedRules := r.includedRules + (if VerdictOf(info, p) == Included then {info.code} else {}),
                  excludedRules := r.excludedRules + (if VerdictOf(info, p) == Excluded then {info.code} else {}),
                  missingIncludes := r.missingIncludes - Matched(RuleMatchers(info.code, info.collections), p.includes))
  {
    CodesOfOne(info, p);
  }

  lemma WithOneMoreRule(r: Resolution, infos: seq<RuleInfo>, i: nat, p: Policy)
    requires i < |infos|
    ensures r.WithRules(ToSet(infos[..i]), p).WithRules({infos[i]}, p) == r.WithRules(ToSet(infos[..i + 1]), p)
  {
    assert ToSet(infos[..i + 1]) == ToSet(infos[..i]) + {infos[i]};
    WithRulesTwice(r, ToSet(infos[..i]), {infos[i]}, p);
  }

  lemma WithRulesTwice(r: Resolution, a: set<RuleInfo>, b: set<RuleInfo>, p: Policy)
    ensures r.WithRules(a, p).WithRules(b, p) == r.WithRules(a + b, p)
  {
    assert forall v :: Codes(a, v, p) + Codes(b, v, p) == Codes(a + b, v, p);
    assert MatchedBy(a, p) + MatchedBy(b, p) == MatchedBy(a + b, p);
  }
}
