/** Dropping the effective dates of rules that have been in effect for long changes no evaluation. */
module OldDates {
  import opened Wrappers
  import opened Sequences
  import opened Strings
  import opened Results
  import opened Specificity
  import opened PolicyResolution
  import opened PostEvaluation
  import opened Categorisation
  import opened Evaluation

  /** A result with everything its rule says. */
  function WithDate(r: Result, rules: PolicyRules, ctx: Context): Result {
    match r.Get(CODE)
    case Text(code) => r.(metadata := WithRule(r.metadata, InfoFor(rules, code), ctx))
    case _ => r
  }

  function DropDate(r: Result, ctx: Context): Result {
    if r.Get(CODE).Text? then r.(metadata := WithoutOldDate(r.metadata, ctx)) else r
  }

  function WithDates(results: seq<Result>, rules: PolicyRules, ctx: Context): seq<Result> {
    Map(results, r => WithDate(r, rules, ctx))
  }

  function DropDates(results: seq<Result>, ctx: Context): seq<Result> {
    Map(results, r => DropDate(r, ctx))
  }

  function DatedOutcome(o: Outcome, rules: PolicyRules, ctx: Context): Outcome {
    o.(warnings := WithDates(o.warnings, rules, ctx), failures := WithDates(o.failures, rules, ctx),
       exceptions := WithDates(o.exceptions, rules, ctx), skipped := WithDates(o.skipped, rules, ctx))
  }

  function WithoutDates(o: Outcome, ctx: Context): Outcome {
    o.(warnings := DropDates(o.warnings, ctx), failures := DropDates(o.failures, ctx),
       exceptions := DropDates(o.exceptions, ctx), skipped := DropDates(o.skipped, ctx))
  }

  lemma MetadataInTwoSteps(results: seq<Result>, rules: PolicyRules, ctx: Context)
    ensures WithMetadata(results, rules, ctx) == DropDates(WithDates(results, rules, ctx), ctx)
  {
    forall i | 0 <= i < |results|
      ensures WithRuleMetadata(results[i], rules, ctx) == DropDate(WithDate(results[i], rules, ctx), ctx)
    {
      if r :| r == results[i] && r.Get(CODE).Text? {
        WithRuleKeepsIdentity(r, InfoFor(rules, r.Get(CODE).text), ctx);
      }
    }
  }

  /** Without its old date a result has the same message, code, terms, collections and severity, and
      is in effect just as before. */
  lemma DropDateKeeps(r: Result, ctx: Context)
    ensures var r' := DropDate(r, ctx);
            && r'.message == r.message && Matchers(r') == Matchers(r)
            && StringAt(r', CODE) == StringAt(r, CODE)
            && SeverityOf(r') == SeverityOf(r) && IsResultEffective(r', ctx) == IsResultEffective(r, ctx)
  {
    DroppingOldDate(r, ctx);
    assert CODE != EFFECTIVE_ON && TERM != EFFECTIVE_ON && COLLECTIONS != EFFECTIVE_ON && SEVERITY != EFFECTIVE_ON;
  }

  lemma SameCodes(results: seq<Result>, ctx: Context)
    ensures forall code :: HasCode(DropDates(results, ctx), code) <==> HasCode(results, code)
    ensures forall message :: HasMessage(DropDates(results, ctx), message) <==> HasMessage(results, message)
  {
    forall i | 0 <= i < |results|
      ensures var r, r' := results[i], DropDates(results, ctx)[i];
              r in results && r' in DropDates(results, ctx) && r'.message == r.message && StringAt(r', CODE) == StringAt(r, CODE)
    {
      DropDateKeeps(results[i], ctx);
    }
  }

  lemma SameTypes(d: Outcome, ctx: Context)
    ensures forall code :: TypeByCode(code, WithoutDates(d, ctx)) == TypeByCode(code, d)
    ensures forall message :: TypeByMessage(message, WithoutDates(d, ctx)) == TypeByMessage(message, d)
  {
    SameCodes(d.warnings, ctx);
    SameCodes(d.failures, ctx);
    SameCodes(d.exceptions, ctx);
    SameCodes(d.skipped, ctx);
  }

  lemma SameCategory(d: Outcome, r: Result, ctx: Context)
    requires r in AllResults(d)
    ensures CategoryOf(DropDate(r, ctx), WithoutDates(d, ctx), ctx) == CategoryOf(r, d, ctx)
  {
    SameType(d, r, ctx);
    DropDateKeeps(r, ctx);
  }

  /** A result of an outcome is found there, at least by its message. */
  lemma TypeIsKnown(d: Outcome, r: Result)
    requires r in AllResults(d)
    ensures TypeByMessage(r.message, d) != Unknown
  {
  }

  lemma SameType(d: Outcome, r: Result, ctx: Context)
    requires r in AllResults(d)
    ensures TypeOf(DropDate(r, ctx), WithoutDates(d, ctx)) == TypeOf(r, d)
  {
    DropDateKeeps(r, ctx);
    SameTypes(d, ctx);
    TypeIsKnown(d, r);
  }

  lemma DropDatesOfConcat(a: seq<Result>, b: seq<Result>, ctx: Context)
    ensures DropDates(a + b, ctx) == DropDates(a, ctx) + DropDates(b, ctx)
  {
  }

  lemma SameResults(d: Outcome, ctx: Context)
    ensures AllResults(WithoutDates(d, ctx)) == DropDates(AllResults(d), ctx)
  {
    DropDatesOfConcat(d.warnings, d.failures, ctx);
    DropDatesOfConcat(d.warnings + d.failures, d.exceptions, ctx);
    DropDatesOfConcat(d.warnings + d.failures + d.exceptions, d.skipped, ctx);
  }

  lemma KeptWithoutDates(results: seq<Result>, p: Policy, ctx: Context)
    ensures Kept(DropDates(results, ctx), p) == DropDates(Kept(results, p), ctx)
  {
    forall r | r in results ensures Keep(DropDate(r, ctx), p) == Keep(r, p) {
      DropDateKeeps(r, ctx);
    }
    FilterOfMap(results, r => DropDate(r, ctx), r => Keep(r, p), r => Keep(r, p));
  }

  lemma SameInCategory(d: Outcome, results: seq<Result>, ctx: Context, c: Category)
    requires forall r | r in results :: r in AllResults(d)
    ensures InCategory(DropDates(results, ctx), WithoutDates(d, ctx), ctx, c) == DropDates(InCategory(results, d, ctx, c), ctx)
  {
    forall r | r in results ensures CategoryOf(DropDate(r, ctx), WithoutDates(d, ctx), ctx) == CategoryOf(r, d, ctx) {
      SameCategory(d, r, ctx);
    }
    FilterOfMap(results, r => DropDate(r, ctx), r => CategoryOf(r, WithoutDates(d, ctx), ctx) == c, r => CategoryOf(r, d, ctx) == c);
  }

  lemma KeptInCategory(d: Outcome, p: Policy, ctx: Context, c: Category)
    ensures InCategory(Kept(AllResults(WithoutDates(d, ctx)), p), WithoutDates(d, ctx), ctx, c)
            == DropDates(InCategory(Kept(AllResults(d), p), d, ctx, c), ctx)
  {
    SameResults(d, ctx);
    KeptWithoutDates(AllResults(d), p, ctx);
    FilterElements(AllResults(d), r => Keep(r, p));
    SameInCategory(d, Kept(AllResults(d), p), ctx, c);
  }

  lemma CategorisedWithoutDates(o: Outcome, d: Outcome, p: Policy, ctx: Context)
    ensures CategorisedOutcome(o, WithoutDates(d, ctx), p, ctx) == WithoutDates(CategorisedOutcome(o, d, p, ctx), ctx)
  {
    KeptInCategory(d, p, ctx, Warnings);
    KeptInCategory(d, p, ctx, Failures);
    KeptInCategory(d, p, ctx, ExceptionsToo);
    KeptInCategory(d, p, ctx, SkippedToo);
    var kept := Kept(AllResults(d), p);
    DropDatesOfConcat(InCategory(kept, d, ctx, ExceptionsToo), d.exceptions, ctx);
    DropDatesOfConcat(InCategory(kept, d, ctx, SkippedToo), d.skipped, ctx);
  }

  /** The outcome that is reported is the one there would be if no date was dropped, without the
      dates: the same results are kept, in the same categories and order. */
  lemma OldDatesChangeNothing(o: Outcome, rules: PolicyRules, p: Policy, ctx: Context)
    ensures FilteredOutcome(o, rules, p, ctx)
            == WithoutDates(CategorisedOutcome(o, DatedOutcome(o, rules, ctx), p, ctx), ctx)
  {
    MetadataInTwoSteps(o.warnings, rules, ctx);
    MetadataInTwoSteps(o.failures, rules, ctx);
    MetadataInTwoSteps(o.exceptions, rules, ctx);
    MetadataInTwoSteps(o.skipped, rules, ctx);
    assert AugmentedOutcome(o, rules, ctx) == WithoutDates(DatedOutcome(o, rules, ctx), ctx);
    CategorisedWithoutDates(o, DatedOutcome(o, rules, ctx), p, ctx);
  }
}
