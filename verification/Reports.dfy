/** What an evaluation reports, in so many words. */
module Reports {
  import opened Wrappers
  import opened Sequences
  import opened Strings
  import opened Results
  import opened Specificity
  import opened PolicyCriteria
  import opened PolicyResolution
  import opened PostEvaluation
  import opened Categorisation
  import opened RuleMetadata
  import opened Trim
  import opened Evaluation
  import opened ExcludedSuccesses

  // ----- successes -----

  /** The texts and lists a success has, under their keys. */
  function SuccessValue(code: string, info: RuleInfo, effectiveOn: string, key: string): Option<Value> {
    if key == "code" then Some(Text(code))
    else if key == "title" && info.title != "" then Some(Text(info.title))
    else if key == "description" && info.description != "" then Some(Text(info.description))
    else if key == "collections" && info.collections != [] then Some(Texts(info.collections))
    else if key == "depends_on" && info.dependsOn != [] then Some(Texts(info.dependsOn))
    else if key == "effective_on" && effectiveOn != "" then Some(Text(effectiveOn))
    else None
  }

  lemma WithTextsLookup(m: map<string, Value>, at: string, texts: seq<string>, key: string)
    ensures Lookup(WithTexts(m, at, texts), key) == if key == at && texts != [] then Some(Texts(texts)) else Lookup(m, key)
  {
  }

  /** A success passes, and has what its rule says; its date is added after it has been filtered. */
  lemma SuccessFields(code: string, info: RuleInfo, key: string)
    ensures SuccessOf(code, info).message == ReportedSuccess(code, info).message == "Pass"
    ensures Lookup(SuccessOf(code, info).metadata, key) == SuccessValue(code, info, "", key)
    ensures Lookup(ReportedSuccess(code, info).metadata, key) == SuccessValue(code, info, info.effectiveOn, key)
  {
    var m0: map<string, Value> := map["code" := Text(code)];
    var m1 := WithText(m0, "title", info.title);
    var m2 := WithText(m1, "description", info.description);
    var m3 := WithTexts(m2, "collections", info.collections);
    var m4 := WithTexts(m3, "depends_on", info.dependsOn);
    WithTextLookup(m0, "title", info.title, key);
    WithTextLookup(m1, "description", info.description, key);
    WithTextsLookup(m2, "collections", info.collections, key);
    WithTextsLookup(m3, "depends_on", info.dependsOn, key);
    WithTextLookup(m4, "effective_on", info.effectiveOn, key);
    assert SuccessOf(code, info).metadata == m4;
  }

  /** Whether a failure, warning, skipped result or exception has the code. */
  ghost predicate Mentions(o: Outcome, code: string) {
    exists r :: (r in o.failures || r in o.warnings || r in o.skipped || r in o.exceptions) && r.Get("code") == Text(code)
  }

  lemma SeenIff(o: Outcome, code: string)
    ensures code in SeenCodes(o) <==> Mentions(o, code)
  {
  }

  /** A rule passes if and only if it belongs to the namespace, no failure, warning, skipped result or
      exception mentions it, and its success is not filtered out. */
  lemma PassesIffNotMentioned(o: Outcome, rules: PolicyRules, p: Policy, ctx: Context, after: Outcome, code: string)
    requires Evaluated(o, rules, p, ctx, after) && code in rules
    ensures RulePasses(after, code)
            <==> && rules[code].package == o.namespace && !Mentions(after, code)
                 && (code == "" || Outscores(RuleMatchers(code, rules[code].collections), p.includes, p.excludes))
  {
    RulePassesIff(o, rules, p, ctx, after, code);
    SeenIff(after, code);
    SuccessIsTermless(code, rules[code], p);
  }

  // ----- results -----

  lemma InAllResults(o: Outcome, r: Result)
    ensures r in AllResults(o) <==> r in o.warnings || r in o.failures || r in o.exceptions || r in o.skipped
  {
  }

  lemma InCategoryIff(o: Outcome, p: Policy, ctx: Context, c: Category, r: Result)
    ensures r in InCategory(Kept(AllResults(o), p), o, ctx, c)
            <==> (r in o.warnings || r in o.failures || r in o.exceptions || r in o.skipped) && Keep(r, p) && CategoryOf(r, o, ctx) == c
  {
    InAllResults(o, r);
    FilterElements(AllResults(o), r => Keep(r, p));
    FilterElements(Kept(AllResults(o), p), r => CategoryOf(r, o, ctx) == c);
  }

  /** Of an evaluated outcome each list has the kept results of that category; exceptions and skipped
      results come back kept or not. */
  lemma ReportedIff(o: Outcome, rules: PolicyRules, p: Policy, ctx: Context, after: Outcome, r: Result)
    requires Evaluated(o, rules, p, ctx, after)
    ensures var a := AugmentedOutcome(o, rules, ctx);
            var kept := (r in a.warnings || r in a.failures || r in a.exceptions || r in a.skipped) && Keep(r, p);
            && (r in after.failures <==> kept && CategoryOf(r, a, ctx) == Failures)
            && (r in after.warnings <==> kept && CategoryOf(r, a, ctx) == Warnings)
            && (r in after.exceptions <==> r in a.exceptions || (kept && CategoryOf(r, a, ctx) == ExceptionsToo))
            && (r in after.skipped <==> r in a.skipped || (kept && CategoryOf(r, a, ctx) == SkippedToo))
            && after.namespace == o.namespace
  {
    var a := AugmentedOutcome(o, rules, ctx);
    InCategoryIff(a, p, ctx, Failures, r);
    InCategoryIff(a, p, ctx, Warnings, r);
    InCategoryIff(a, p, ctx, ExceptionsToo, r);
    InCategoryIff(a, p, ctx, SkippedToo, r);
  }

  // ----- unmatched includes -----

  /** The includes of a source, for whatever image. */
  lemma AllItemsIff(items: Items, name: string)
    ensures name in AllItems(items)
            <==> name in items.defaultItems || exists key :: key in items.digestItems && name in items.digestItems[key]
  {
  }

  /** A result with a code accounts for the names on the target's list that match it, and a result that
      is kept, for all names that match it, be they for this image or not. */
  lemma AccountsIff(results: set<Result>, p: Policy, name: string)
    ensures AccountsFor(results, p, name)
            <==> exists r :: r in results && name in Matchers(r)
                             && if name in p.includes then StringAt(r, "code") != "" || Keep(r, p) else Keep(r, p)
  {
  }

  /** The results and the candidates: the successes of the namespace's rules that nothing left of the
      outcome mentions. */
  lemma ConsideredIff(o: Outcome, rules: PolicyRules, p: Policy, ctx: Context, after: Outcome, r: Result)
    requires Evaluated(o, rules, p, ctx, after)
    ensures var a := AugmentedOutcome(o, rules, ctx);
            r in Considered(o, rules, p, ctx)
            <==> || r in a.warnings || r in a.failures || r in a.exceptions || r in a.skipped
                 || exists code :: code in rules && rules[code].package == o.namespace && !Mentions(after, code)
                                   && r == SuccessOf(code, rules[code])
  {
    InAllResults(AugmentedOutcome(o, rules, ctx), r);
    assert SeenCodes(after) == SeenCodes(FilteredOutcome(o, rules, p, ctx));
    forall code {
      SeenIff(after, code);
    }
  }

  /** An include is reported as unmatched by a warning of its own. */
  lemma UnmatchedFields(name: string)
    ensures var o := Unmatched(name);
            && o.warnings == [Result("Include criterion '" + name + "' doesn't match any policy rule", map[])]
            && o.failures == o.successes == o.skipped == o.exceptions == [] && o.namespace == ""
  {
  }

  /** Nothing was evaluated if and only if no outcome has a warning, a failure or a success. */
  lemma {:induction false} NothingEvaluatedIff(os: seq<Outcome>)
    ensures TotalRules(os) == 0 <==> forall o | o in os :: o.warnings == [] && o.failures == [] && o.successes == []
  {
    if os != [] {
      NothingEvaluatedIff(os[..|os| - 1]);
      assert forall o :: o in os <==> o in os[..|os| - 1] || o == os[|os| - 1];
    }
  }
}
