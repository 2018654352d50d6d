/** When a result that was filtered out comes back as a success of its rule. */
module ExcludedSuccesses {
  import opened Wrappers
  import opened Sequences
  import opened Strings
  import opened Results
  import opened Specificity
  import opened SpecificityBounds
  import opened PolicyResolution
  import opened PostEvaluation
  import opened Categorisation
  import opened Trim
  import opened Evaluation

  // ----- the decisions -----

  /** Whether a result with these terms, in these collections, is filtered out. */
  predicate FilteredOut(code: string, terms: seq<string>, collections: seq<string>, p: Policy) {
    code != "" && !Outscores(MatchersOf(code, terms, Prefixed(collections)), p.includes, p.excludes)
  }

  /** Whether some term, or if the rule has no collections one of those, is excluded more
      specifically than it is included. */
  ghost predicate Disfavours(code: string, info: RuleInfo, p: Policy) {
    code != "" && ResultsOutrank(code, info.collections, p.excludes, p.includes)
  }

  lemma SuccessIsTermless(code: string, info: RuleInfo, p: Policy)
    ensures Keep(SuccessOf(code, info), p) <==> !FilteredOut(code, [], info.collections, p)
    ensures MatchersOf(code, [], Prefixed(info.collections)) == RuleMatchers(code, info.collections)
  {
    SuccessOfCode(code, info);
  }

  /** If there are none, a result is kept with the success of its rule. */
  lemma KeptWithSuccess(code: string, info: RuleInfo, terms: seq<string>, own: seq<string>, p: Policy)
    requires CanHave(info.collections, own) && !Disfavours(code, info, p) && Keep(SuccessOf(code, info), p)
    ensures !FilteredOut(code, terms, own, p)
  {
    SuccessIsTermless(code, info, p);
    if code != "" {
      OtherResultsDoNotHelp(code, info.collections, terms, own, p.excludes, p.includes);
    }
  }

  /** Every result of a rule that is filtered out, whatever its terms and, if the rule has none, its
      collections, has a success that is filtered out too if and only if that success is filtered
      out anyway or the rule disfavours no term and no collection. */
  lemma ExclusionReachesSuccessIff(code: string, info: RuleInfo, p: Policy)
    ensures (forall terms, own | CanHave(info.collections, own) && FilteredOut(code, terms, own, p) ::
               !Keep(SuccessOf(code, info), p))
            <==> !Keep(SuccessOf(code, info), p) || !Disfavours(code, info, p)
  {
    if Disfavours(code, info, p) {
      var terms, own := SomeResultHelps(code, info.collections, 0, p.excludes, p.includes);
      assert FilteredOut(code, terms, own, p);
    } else if Keep(SuccessOf(code, info), p) {
      forall terms, own | CanHave(info.collections, own) ensures !FilteredOut(code, terms, own, p) {
        KeptWithSuccess(code, info, terms, own, p);
      }
    }
  }

  // ----- the outcomes -----

  ghost predicate RulePasses(after: Outcome, code: string) {
    exists s :: s in after.successes && s.Get(CODE) == Text(code)
  }

  /** A rule passes if and only if it belongs to the namespace, nothing was reported for it, and its
      success is not filtered out. */
  lemma RulePassesIff(o: Outcome, rules: PolicyRules, p: Policy, ctx: Context, after: Outcome, code: string)
    requires Evaluated(o, rules, p, ctx, after) && code in rules
    ensures RulePasses(after, code)
            <==> && rules[code].package == o.namespace
                 && code !in SeenCodes(after)
                 && Keep(SuccessOf(code, rules[code]), p)
  {
    var codes := SuccessCodes(FilteredOutcome(o, rules, p, ctx), rules, p);
    assert SeenCodes(after) == SeenCodes(FilteredOutcome(o, rules, p, ctx));
    if RulePasses(after, code) {
      var s :| s in after.successes && s.Get(CODE) == Text(code);
      var code' := SuccessInCodes(after.successes, codes, rules, s);
    }
    if code in codes {
      var s := ReportedSuccess(code, rules[code]);
      assert s in multiset(after.successes);
      SuccessOfCode(code, rules[code]);
    }
  }

  /** A result of the rule is filtered out although the rule passes. */
  ghost predicate ComesBack(o: Outcome, rules: PolicyRules, p: Policy, ctx: Context, after: Outcome, r: Result, code: string)
    requires code in rules
  {
    && Evaluated(o, rules, p, ctx, after)
    && r in AllResults(AugmentedOutcome(o, rules, ctx)) && !Keep(r, p) && r.Get(CODE) == Text(code)
    && RulePasses(after, code)
  }

  function OwnCollections(r: Result): seq<string> {
    match r.Get(COLLECTIONS)
    case Texts(texts) => texts
    case _ => []
  }

  /** A result with its rule's metadata has the rule's collections or, if that has none, its own. */
  lemma AugmentedCanHave(r: Result, rules: PolicyRules, ctx: Context, code: string)
    requires code in rules && WithRuleMetadata(r, rules, ctx).Get(CODE) == Text(code)
    ensures var r' := WithRuleMetadata(r, rules, ctx);
            CanHave(rules[code].collections, OwnCollections(r')) && CollectionNames(r') == Prefixed(OwnCollections(r'))
  {
    assert Prefixed([]) == [];
    if r.Get(CODE).Text? {
      var info := InfoFor(rules, r.Get(CODE).text);
      AugmentedKeepsIdentity(r, info, ctx);
      WithRuleKeepsIdentity(r, info, ctx);
      DroppingOldDate(r.(metadata := WithRule(r.metadata, info, ctx)), ctx);
    }
  }

  lemma {:induction false} SuccessesExist(codes: set<string>, rules: PolicyRules) returns (successes: seq<Result>)
    requires codes <= rules.Keys
    ensures OneSuccessEach(successes, codes, rules)
  {
    if codes == {} {
      successes := [];
    } else {
      var code :| code in codes;
      var others := SuccessesExist(codes - {code}, rules);
      OneMoreSuccess(others, codes - {code}, code, rules);
      assert codes - {code} + {code} == codes;
      successes := others + [ReportedSuccess(code, rules[code])];
    }
  }

  /** With its rule's metadata it has the same code and terms, and collections it can have. */
  lemma ResultAugmented(code: string, terms: seq<string>, own: seq<string>, info: RuleInfo, ctx: Context)
    requires CanHave(info.collections, own) && forall i | 0 <= i < |terms| :: terms[i] != ""
    ensures var r := Augmented(ResultWith(code, terms, own), info, ctx);
            r.Get(CODE) == Text(code) && StringsAt(r, TERM) == terms && CollectionNames(r) == Prefixed(own)
  {
    var r := ResultWith(code, terms, own);
    ResultWithHas(code, terms, own);
    AugmentedKeepsIdentity(r, info, ctx);
    if info.collections == [] {
      OwnCollectionsStay(r, info, ctx);
    }
  }

  lemma OwnCollectionsStay(r: Result, info: RuleInfo, ctx: Context)
    requires r.Get(COLLECTIONS).Texts? && info.collections == []
    ensures CollectionNames(Augmented(r, info, ctx)) == CollectionNames(r)
  {
    assert Normalised(r.metadata, ctx) == r.metadata;
    WithRuleTextsKeeps(r.metadata, info, COLLECTIONS);
    assert COLLECTIONS != DEPENDS_ON && COLLECTIONS != EFFECTIVE_ON;
    DroppingOldDate(r.(metadata := WithRule(r.metadata, info, ctx)), ctx);
  }

  function OneFailure(namespace: string, failure: Result): Outcome {
    Outcome(namespace, [], [], [], [failure], [])
  }

  /** If its only result is filtered out, nothing is reported in an outcome. */
  lemma NothingLeft(namespace: string, failure: Result, rules: PolicyRules, p: Policy, ctx: Context)
    requires !Keep(WithRuleMetadata(failure, rules, ctx), p)
    ensures AllResults(AugmentedOutcome(OneFailure(namespace, failure), rules, ctx)) == [WithRuleMetadata(failure, rules, ctx)]
    ensures FilteredOutcome(OneFailure(namespace, failure), rules, p, ctx) == Outcome(namespace, [], [], [], [], [])
  {
    var o, r := OneFailure(namespace, failure), WithRuleMetadata(failure, rules, ctx);
    var a := AugmentedOutcome(o, rules, ctx);
    assert a == Outcome(namespace, [], [], [], [r], []);
    assert AllResults(a) == [r];
    FilterOfOneMore([r], 0, x => Keep(x, p));
    assert [r][..1] == [r] && [r][..0] == [];
    assert Kept(AllResults(a), p) == [];
  }

  lemma LetsRulePass(rules: PolicyRules, p: Policy, ctx: Context, code: string, failure: Result)
    requires code in rules && Keep(SuccessOf(code, rules[code]), p)
    requires !Keep(WithRuleMetadata(failure, rules, ctx), p)
    ensures exists after :: Evaluated(OneFailure(rules[code].package, failure), rules, p, ctx, after) && RulePasses(after, code)
  {
    var o := OneFailure(rules[code].package, failure);
    NothingLeft(o.namespace, failure, rules, p, ctx);
    var filtered := FilteredOutcome(o, rules, p, ctx);
    var successes := SuccessesExist(SuccessCodes(filtered, rules, p), rules);
    var after := filtered.(successes := successes);
    assert Evaluated(o, rules, p, ctx, after);
    RulePassesIff(o, rules, p, ctx, after, code);
  }

  lemma ResultOfOutcome(o: Outcome, rules: PolicyRules, ctx: Context, r: Result) returns (r0: Result)
    requires r in AllResults(AugmentedOutcome(o, rules, ctx))
    ensures r == WithRuleMetadata(r0, rules, ctx)
  {
    var all := AllResults(o);
    assert AllResults(AugmentedOutcome(o, rules, ctx)) == WithMetadata(all, rules, ctx);
    var i :| 0 <= i < |all| && r == WithRuleMetadata(all[i], rules, ctx);
    r0 := all[i];
  }

  lemma OnlyIfDisfavoured(o: Outcome, rules: PolicyRules, p: Policy, ctx: Context, after: Outcome, r: Result, code: string)
    requires code in rules && ComesBack(o, rules, p, ctx, after, r, code)
    ensures Keep(SuccessOf(code, rules[code]), p) && Disfavours(code, rules[code], p)
  {
    RulePassesIff(o, rules, p, ctx, after, code);
    var r0 := ResultOfOutcome(o, rules, ctx, r);
    AugmentedCanHave(r0, rules, ctx, code);
    assert FilteredOut(code, StringsAt(r, TERM), OwnCollections(r), p);
    if !Disfavours(code, rules[code], p) {
      KeptWithSuccess(code, rules[code], StringsAt(r, TERM), OwnCollections(r), p);
    }
  }

  lemma DisfavouredComesBack(rules: PolicyRules, p: Policy, ctx: Context, code: string)
    requires code in rules && Keep(SuccessOf(code, rules[code]), p) && Disfavours(code, rules[code], p)
    ensures exists o, after, r :: ComesBack(o, rules, p, ctx, after, r, code)
  {
    var info := rules[code];
    var terms, own := SomeResultHelps(code, info.collections, 0, p.excludes, p.includes);
    var failure := ResultWith(code, terms, own);
    ResultWithHas(code, terms, own);
    ResultAugmented(code, terms, own, info, ctx);
    var r := Augmented(failure, info, ctx);
    assert WithRuleMetadata(failure, rules, ctx) == r;
    assert !Keep(r, p) by {
      assert Matchers(r) == MatchersOf(code, terms, Prefixed(own));
    }
    LetsRulePass(rules, p, ctx, code, failure);
    var after :| Evaluated(OneFailure(info.package, failure), rules, p, ctx, after) && RulePasses(after, code);
    NothingLeft(info.package, failure, rules, p, ctx);
    assert ComesBack(OneFailure(info.package, failure), rules, p, ctx, after, r, code);
  }

  /** Some result of the rule can be filtered out although the rule passes if and only if the rule's
      success is not filtered out, and the rule disfavours some term or, having none, collection. */
  lemma ComesBackIff(rules: PolicyRules, p: Policy, ctx: Context, code: string)
    requires code in rules
    ensures (exists o, after, r :: ComesBack(o, rules, p, ctx, after, r, code))
            <==> Keep(SuccessOf(code, rules[code]), p) && Disfavours(code, rules[code], p)
  {
    if o, after, r :| ComesBack(o, rules, p, ctx, after, r, code) {
      OnlyIfDisfavoured(o, rules, p, ctx, after, r, code);
    }
    if Keep(SuccessOf(code, rules[code]), p) && Disfavours(code, rules[code], p) {
      DisfavouredComesBack(rules, p, ctx, code);
    }
  }
}
