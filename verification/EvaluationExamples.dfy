/** Inputs on which the evaluation does not do what one might expect. */
module EvaluationExamples {
  import opened Wrappers
  import opened Sequences
  import opened Strings
  import opened Results
  import opened Specificity
  import opened SpecificityBounds
  import opened PolicyCriteria
  import opened PolicyResolution
  import opened PostEvaluation
  import opened Categorisation
  import opened Evaluation
  import opened ExcludedSuccesses

  lemma TermExclusionDecides(pkg: string, rule: string, term: string)
    requires Plain(pkg) && Plain(rule) && term != ""
    ensures var p := Policy(["*"], [Code(pkg, rule) + ":" + term], None);
            var failure := Result("", map[CODE := Text(Code(pkg, rule)), TERM := Text(term)]);
            !Keep(failure, p) && Keep(SuccessOf(Code(pkg, rule), Rule(Code(pkg, rule), [])), p)
  {
    var code := Code(pkg, rule);
    var failure := Result("", map[CODE := Text(code), TERM := Text(term)]);
    var success := SuccessOf(code, Rule(code, []));
    assert Prefixed([]) == [];
    SuccessOfCode(code, Rule(code, []));
    assert Matchers(failure) == ResultMatchers(pkg, rule, [term], []);
    assert Matchers(success) == MatchersOf(code, [], []);
    StarScores(pkg, rule, [term]);
    StarScores(pkg, rule, []);
    OnlyTermScores(pkg, rule, [term], term, []);
    RuleDoesNotScoreOnTerm(pkg, rule, term, []);
  }

  /** A rule's only failure has a term and is filtered out by an exclude for that term: the outcome
      reported contains no failure, but a success of the rule. */
  lemma ExcludingTermLetsRulePass(pkg: string, rule: string, term: string, ctx: Context)
    requires Plain(pkg) && Plain(rule) && term != ""
    ensures var code := Code(pkg, rule);
            var p := Policy(["*"], [code + ":" + term], None);
            var failure := Result("", map[CODE := Text(code), TERM := Text(term)]);
            var success := Result("Pass", map[CODE := Text(code)]);
            Evaluated(Outcome("", [], [], [], [failure], []), map[code := Rule(code, [])], p, ctx,
                      Outcome("", [success], [], [], [], []))
  {
    var code := Code(pkg, rule);
    var p := Policy(["*"], [code + ":" + term], None);
    var failure := Result("", map[CODE := Text(code), TERM := Text(term)]);
    TermExclusionDecides(pkg, rule, term);
    BareRuleAddsNothing(code, term, ctx);
    NothingLeft("", failure, map[code := Rule(code, [])], p, ctx);
    OnlySuccess(code, p);
  }

  lemma BareRuleAddsNothing(code: string, term: string, ctx: Context)
    ensures var failure := Result("", map[CODE := Text(code), TERM := Text(term)]);
            WithRuleMetadata(failure, map[code := Rule(code, [])], ctx) == failure
  {
    var failure := Result("", map[CODE := Text(code), TERM := Text(term)]);
    assert CODE in failure.metadata && COLLECTIONS !in failure.metadata && EFFECTIVE_ON !in failure.metadata;
  }

  lemma OnlySuccess(code: string, p: Policy)
    requires Keep(SuccessOf(code, Rule(code, [])), p)
    ensures OneSuccessEach([Result("Pass", map[CODE := Text(code)])],
                           SuccessCodes(Outcome("", [], [], [], [], []), map[code := Rule(code, [])], p),
                           map[code := Rule(code, [])])
  {
    var rules: PolicyRules := map[code := Rule(code, [])];
    assert code in rules && rules[code] == Rule(code, []);
    assert SuccessCodes(Outcome("", [], [], [], [], []), rules, p) == {code};
    OneMoreSuccess([], {}, code, rules);
    assert [] + [ReportedSuccess(code, rules[code])] == [Result("Pass", map[CODE := Text(code)])];
    assert {} + {code} == {code};
  }

  /** A failure that shares its code with a warning is reported as a warning, though it is in
      effect and nothing demotes it. */
  lemma WarningHidesFailure(code: string, ctx: Context)
    requires code != ""
    ensures var failure := Result("failed", map[CODE := Text(code)]);
            var warning := Result("warned", map[CODE := Text(code)]);
            var o := Outcome("", [], [], [warning], [failure], []);
            IsResultEffective(failure, ctx) && SeverityOf(failure) == NoSeverity && CategoryOf(failure, o, ctx) == Warnings
  {
    var failure := Result("failed", map[CODE := Text(code)]);
    var warning := Result("warned", map[CODE := Text(code)]);
    var o := Outcome("", [], [], [warning], [failure], []);
    assert failure in o.failures && warning in o.warnings;
    assert HasCode(o.warnings, code);
    FailureStaysFailure(failure, o, ctx);
  }

  /** A source whose only item includes everything, for another image. */
  function ForOtherImage(other: string): Source {
    Source(Lists([], []), VolatileLists([VolatileCriterion("*", None, None, "", other, "")], []), None)
  }

  lemma NothingForThisImage(image: string, other: string, at: int)
    requires image != "" && other != "" && image != other
    ensures ForOtherImage(other).Includes(at).For(Image(image, None)) == []
    ensures ForOtherImage(other).Excludes(at).For(Image(image, None)) == []
  {
    var src, target := ForOtherImage(other), Image(image, None);
    var c := src.volatileLists.includes[0];
    assert c in src.volatileLists.includes && c.ActiveAt(at) && c.Key() == other;
    NothingIncludedFor(src, at, target);
    assert src.Excludes(at) == NO_ITEMS.With("", []);
  }

  /** With such a source every rule is included for an image, and every result of it dropped. */
  lemma OtherImagesDropResults(image: string, other: string, at: int, code: string)
    requires image != "" && other != "" && image != other && code != ""
    ensures var src, target := ForOtherImage(other), Image(image, None);
            var p := Policy(src.Includes(at).For(target), src.Excludes(at).For(target), None);
            VerdictOf(Rule(code, []), p) == Included && !Keep(Result("", map[CODE := Text(code)]), p)
  {
    NothingForThisImage(image, other, at);
    NoScoreOnNothing(RuleMatchers(code, []));
    NoScoreOnNothing(Matchers(Result("", map[CODE := Text(code)])));
  }

  /** Two rules of different packages with the same code: the first is excluded, the second
      included through a collection. */
  function SharedCode(): PolicyRules {
    map["a.r" := Rule("c.r", []), "b.r" := Rule("c.r", ["k"])]
  }

  const SHARED_POLICY := Policy(["@k"], ["*"], None)

  lemma FirstVerdict()
    ensures VerdictOf(Rule("c.r", []), SHARED_POLICY) == Excluded
  {
    var pkg, rule := "c", "r";
    assert Code(pkg, rule) == "c.r" && Prefixed([]) == [];
    StarScores(pkg, rule, []);
    BaseMatchersOf(pkg, rule);
    var matchers := RuleMatchers("c.r", []);
    assert matchers == [pkg, pkg + ".*", "c.r", "*"];
    assert forall m | m in matchers :: m[0] != '@';
    NoneOnList(matchers, ["@k"]);
  }

  lemma SecondExcludeScore()
    ensures TotalScore(RuleMatchers("c.r", ["k"]), ["*"]) == 1
  {
    var pkg, rule := "c", "r";
    assert Code(pkg, rule) == "c.r" && "@" + "k" == "@k" && Prefixed([]) == [] && Prefixed(["k"]) == ["@k"];
    assert RuleMatchers("c.r", ["k"]) == RuleMatchers("c.r", []) + ["@k"];
    TotalScoreOfConcat(RuleMatchers("c.r", []), ["@k"], ["*"]);
    StarScores(pkg, rule, []);
    NoneOnList(["@k"], ["*"]);
  }

  lemma SecondVerdict()
    ensures VerdictOf(Rule("c.r", ["k"]), SHARED_POLICY) == Included
  {
    SecondExcludeScore();
    assert "@" + "k" == "@k" && Prefixed(["k"]) == ["@k"];
    var matchers := RuleMatchers("c.r", ["k"]);
    assert matchers[|matchers| - 1] == "@k";
    ScoresAtLeast(matchers, "@k", ["@k"]);
    ScoreOfCollection("k");
    assert Score("@k") == 10;
  }

  lemma SharedCodeVerdicts()
    ensures VerdictOf(Rule("c.r", []), SHARED_POLICY) == Excluded
    ensures VerdictOf(Rule("c.r", ["k"]), SHARED_POLICY) == Included
  {
    FirstVerdict();
    SecondVerdict();
  }

  lemma SharedCodePackages()
    ensures PackageOf("a.r") == "a" && PackageOf("b.r") == "b"
  {
    CutAt("a", "r", '.');
    CutAt("b", "r", '.');
    assert "a" + "." + "r" == "a.r" && "b" + "." + "r" == "b.r";
  }

  lemma SharedCodeInfos(pkgs: set<string>)
    ensures InfosIn(SharedCode(), pkgs)
            == (if "a" in pkgs then {Rule("c.r", [])} else {}) + (if "b" in pkgs then {Rule("c.r", ["k"])} else {})
  {
    SharedCodePackages();
    var rules := SharedCode();
    assert "a.r" in rules && "b.r" in rules && rules["a.r"] == Rule("c.r", []) && rules["b.r"] == Rule("c.r", ["k"]);
  }

  lemma SharedCodePassing()
    ensures Passing(SharedCode(), SHARED_POLICY) == {"a", "b"}
  {
    SharedCodePackages();
    var rules := SharedCode();
    assert "a.r" in rules && "b.r" in rules;
  }

  lemma StatusOfFirst(first: RuleInfo, second: RuleInfo, infos: set<RuleInfo>, p: Policy)
    requires VerdictOf(first, p) == Excluded && VerdictOf(second, p) == Included && first.code == second.code
    requires first in infos && infos <= {first, second}
    ensures Status({first}, Codes(infos, Included, p), Codes(infos, Excluded, p))
            == if second in infos then Included else Excluded
  {
    assert first.code in Codes(infos, Excluded, p);
    if second in infos {
      assert second.code in Codes(infos, Included, p);
    }
  }

  lemma StatusBefore()
    ensures StatusAfter(SharedCode(), SHARED_POLICY, "a", {}) == Excluded
  {
    var first, second := Rule("c.r", []), Rule("c.r", ["k"]);
    assert InfosIn(SharedCode(), {"a"}) == {first} by {
      SharedCodeInfos({"a"});
    }
    assert {} + {"a"} == {"a"};
    SharedCodeVerdicts();
    StatusOfFirst(first, second, {first}, SHARED_POLICY);
  }

  lemma StatusBehind()
    ensures StatusAfter(SharedCode(), SHARED_POLICY, "a", {"b"}) == Included
  {
    var first, second := Rule("c.r", []), Rule("c.r", ["k"]);
    assert InfosIn(SharedCode(), {"a"}) == {first} by {
      SharedCodeInfos({"a"});
    }
    assert InfosIn(SharedCode(), {"b"} + {"a"}) == {first} + {second} by {
      SharedCodeInfos({"b"} + {"a"});
    }
    SharedCodeVerdicts();
    StatusOfFirst(first, second, {first} + {second}, SHARED_POLICY);
  }

  /** The package of the first rule is excluded if it is processed first, and included if the
      other one comes before it. */
  lemma SharedCodeMakesOrderMatter()
    ensures !OrderFree(SharedCode(), SHARED_POLICY)
    ensures StatusAfter(SharedCode(), SHARED_POLICY, "a", {}) == Excluded
    ensures StatusAfter(SharedCode(), SHARED_POLICY, "a", {"b"}) == Included
  {
    StatusBefore();
    StatusBehind();
    SharedCodePassing();
    OrderFreeIff(SharedCode(), SHARED_POLICY);
    assert {"b"} <= {"a", "b"} - {"a"};
  }
}
