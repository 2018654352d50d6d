/** Sorting kept results into warnings, failures, exceptions and skipped ones, by where they came
    from, their severity, and whether they are in effect yet. */
module Categorisation {
  import opened Wrappers
  import opened Sequences
  import opened Strings
  import opened Results
  import opened PostEvaluation

  /** The effective time, how a date is read, and how a value that is no string is printed. */
  datatype Context = Context(now: int, parseTime: string -> Option<int>, sprint: Value -> string)

  const DAY := 86_400_000_000_000
  /** Effective dates are kept for ninety days. */
  const EFFECTIVE_ON_TIMEOUT := -90 * DAY

  datatype Category = Warnings | Failures | ExceptionsToo | SkippedToo
  datatype OriginalType = Warning | Failure | Exception | Skipped | Unknown
  datatype Severity = FailureSeverity | WarningSeverity | NoSeverity

  function SeverityOf(r: Result): Severity {
    match r.Get(SEVERITY)
    case Text(text) =>
      if text == "failure" then FailureSeverity else if text == "warning" then WarningSeverity else NoSeverity
    case _ => NoSeverity
  }

  /** A result without a readable effective date is in effect. */
  predicate IsResultEffective(r: Result, ctx: Context) {
    match r.Get(EFFECTIVE_ON)
    case Text(text) => ctx.parseTime(text).Some? ==> ctx.parseTime(text).value < ctx.now
    case _ => true
  }

  predicate HasCode(results: seq<Result>, code: string) {
    exists r :: r in results && StringAt(r, CODE) == code
  }

  predicate HasMessage(results: seq<Result>, message: string) {
    exists r :: r in results && r.message == message
  }

  function TypeByCode(code: string, o: Outcome): OriginalType {
    if code == "" then Unknown
    else if HasCode(o.warnings, code) then Warning
    else if HasCode(o.failures, code) then Failure
    else if HasCode(o.exceptions, code) then Exception
    else if HasCode(o.skipped, code) then Skipped
    else Unknown
  }

  function TypeByMessage(message: string, o: Outcome): OriginalType {
    if HasMessage(o.warnings, message) then Warning
    else if HasMessage(o.failures, message) then Failure
    else if HasMessage(o.exceptions, message) then Exception
    else if HasMessage(o.skipped, message) then Skipped
    else Unknown
  }

  function TypeOf(r: Result, o: Outcome): OriginalType {
    var byCode := TypeByCode(StringAt(r, CODE), o);
    var byMessage := TypeByMessage(r.message, o);
    if byCode != Unknown then byCode
    else if byMessage != Unknown then byMessage
    else if EFFECTIVE_ON in r.metadata then Failure
    else Unknown
  }

  function CategoryOf(r: Result, o: Outcome, ctx: Context): Category {
    match TypeOf(r, o)
    case Warning => if SeverityOf(r) == FailureSeverity then Failures else Warnings
    case Failure => if SeverityOf(r) == WarningSeverity || !IsResultEffective(r, ctx) then Warnings else Failures
    case Exception => ExceptionsToo
    case Skipped => SkippedToo
    case Unknown => Warnings
  }

  function InCategory(results: seq<Result>, o: Outcome, ctx: Context, c: Category): seq<Result> {
    Filter(results, r => CategoryOf(r, o, ctx) == c)
  }

  method FindCode(results: seq<Result>, code: string) returns (found: bool)
    ensures found == HasCode(results, code)
  {
    for i := 0 to |results|
      invariant forall j | 0 <= j < i :: StringAt(results[j], CODE) != code
    {
      var codes := ExtractStringsFromMetadata(results[i], CODE);
      if (if |codes| > 0 then codes[0] else "") == code {
        assert results[i] in results;
        return true;
      }
    }
    return false;
  }

  method FindMessage(results: seq<Result>, message: string) returns (found: bool)
    ensures found == HasMessage(results, message)
  {
    for i := 0 to |results|
      invariant forall j | 0 <= j < i :: results[j].message != message
    {
      if results[i].message == message {
        return true;
      }
    }
    return false;
  }

  method DetermineOriginalType(r: Result, o: Outcome) returns (t: OriginalType)
    ensures t == TypeOf(r, o)
  {
    var codes := ExtractStringsFromMetadata(r, CODE);
    var filteredCode := if |codes| > 0 then codes[0] else "";
    var found;
    if filteredCode != "" {
      found := FindCode(o.warnings, filteredCode);
      if found { return Warning; }
      found := FindCode(o.failures, filteredCode);
      if found { return Failure; }
      found := FindCode(o.exceptions, filteredCode);
      if found { return Exception; }
      found := FindCode(o.skipped, filteredCode);
      if found { return Skipped; }
    }
    found := FindMessage(o.warnings, r.message);
    if found { return Warning; }
    found := FindMessage(o.failures, r.message);
    if found { return Failure; }
    found := FindMessage(o.exceptions, r.message);
    if found { return Exception; }
    found := FindMessage(o.skipped, r.message);
    if found { return Skipped; }
    if EFFECTIVE_ON in r.metadata {
      return Failure;
    }
    return Unknown;
  }

  /** Every category is the kept results that belong to it, in order; the original exceptions and
      skipped results come on top, kept or not. */
  method CategorizeResults(filteredResults: seq<Result>, o: Outcome, ctx: Context)
    returns (warnings: seq<Result>, failures: seq<Result>, exceptions: seq<Result>, skipped: seq<Result>)
    ensures warnings == InCategory(filteredResults, o, ctx, Warnings)
    ensures failures == InCategory(filteredResults, o, ctx, Failures)
    ensures exceptions == InCategory(filteredResults, o, ctx, ExceptionsToo) + o.exceptions
    ensures skipped == InCategory(filteredResults, o, ctx, SkippedToo) + o.skipped
  {
    warnings, failures, exceptions, skipped := [], [], [], [];
    for i := 0 to |filteredResults|
      invariant warnings == InCategory(filteredResults[..i], o, ctx, Warnings)
      invariant failures == InCategory(filteredResults[..i], o, ctx, Failures)
      invariant exceptions == InCategory(filteredResults[..i], o, ctx, ExceptionsToo)
      invariant skipped == InCategory(filteredResults[..i], o, ctx, SkippedToo)
    {
      var r := filteredResults[i];
      InCategoryOfOneMore(filteredResults, i, o, ctx);
      var originalType := DetermineOriginalType(r, o);
      match originalType {
        case Warning =>
          if SeverityOf(r) == FailureSeverity {
            failures := failures + [r];
          } else {
            warnings := warnings + [r];
          }
        case Failure =>
          if SeverityOf(r) == WarningSeverity || !IsResultEffective(r, ctx) {
            warnings := warnings + [r];
          } else {
            failures := failures + [r];
          }
        case Exception =>
          exceptions := exceptions + [r];
        case Skipped =>
          skipped := skipped + [r];
        case Unknown =>
          warnings := warnings + [r];
      }
    }
    assert filteredResults[..|filteredResults|] == filteredResults;
    exceptions := exceptions + o.exceptions;
    skipped := skipped + o.skipped;
  }

  lemma InCategoryOfOneMore(results: seq<Result>, i: nat, o: Outcome, ctx: Context)
    requires i < |results|
    ensures forall c :: InCategory(results[..i + 1], o, ctx, c)
                        == InCategory(results[..i], o, ctx, c) + (if CategoryOf(results[i], o, ctx) == c then [results[i]] else [])
  {
    forall c {
      FilterOfOneMore(results, i, r => CategoryOf(r, o, ctx) == c);
    }
  }

  /** Nothing is lost or made up: each kept result is in exactly one category, as often as it was kept. */
  lemma CategoriesConserveResults(results: seq<Result>, o: Outcome, ctx: Context)
    ensures multiset(InCategory(results, o, ctx, Warnings)) + multiset(InCategory(results, o, ctx, Failures))
            + multiset(InCategory(results, o, ctx, ExceptionsToo)) + multiset(InCategory(results, o, ctx, SkippedToo))
            == multiset(results)
  {
    forall r: Result, c
      ensures multiset(InCategory(results, o, ctx, c))[r] == if CategoryOf(r, o, ctx) == c then multiset(results)[r] else 0
    {
      FilterMultiplicity(results, x => CategoryOf(x, o, ctx) == c, r);
    }
  }

  /** Whether a warning hides where a failure came from: it has the failure's code or, if the
      failure has none, its message. */
  predicate TakenForWarning(r: Result, o: Outcome) {
    if Coded(r) then HasCode(o.warnings, StringAt(r, CODE)) else HasMessage(o.warnings, r.message)
  }

  /** A failure stays one if and only if it is in effect and not demoted by its severity; but one
      that is taken for a warning stays one only if its severity says so. */
  lemma FailureStaysFailure(r: Result, o: Outcome, ctx: Context)
    requires r in o.failures
    ensures CategoryOf(r, o, ctx) == Failures
            <==> if TakenForWarning(r, o) then SeverityOf(r) == FailureSeverity
                 else IsResultEffective(r, ctx) && SeverityOf(r) != WarningSeverity
    ensures CategoryOf(r, o, ctx) in {Failures, Warnings}
  {
    assert HasMessage(o.failures, r.message);
    if Coded(r) {
      assert HasCode(o.failures, StringAt(r, CODE));
    }
  }

  /** A warning becomes a failure exactly if its severity says so. */
  lemma WarningStaysWarning(r: Result, o: Outcome, ctx: Context)
    requires r in o.warnings
    ensures CategoryOf(r, o, ctx) == if SeverityOf(r) == FailureSeverity then Failures else Warnings
  {
    assert HasMessage(o.warnings, r.message);
    if Coded(r) {
      assert HasCode(o.warnings, StringAt(r, CODE));
    }
  }

  // ----- in terms of the metadata -----

  /** The effective date can be read, and has not passed. */
  ghost predicate NotYetInEffect(r: Result, ctx: Context) {
    exists text, t :: r.Get("effective_on") == Text(text) && ctx.parseTime(text) == Some(t) && ctx.now <= t
  }

  lemma InEffectUnlessNotYet(r: Result, ctx: Context)
    ensures IsResultEffective(r, ctx) <==> !NotYetInEffect(r, ctx)
  {
    if r.Get("effective_on").Text? && ctx.parseTime(r.Get("effective_on").text).Some? {
      var text := r.Get("effective_on").text;
      assert ctx.parseTime(text) == Some(ctx.parseTime(text).value);
    }
  }

  /** A failure that no warning hides is a failure if and only if it is in effect and its severity
      is not "warning"; one that a warning hides, if and only if its severity is "failure". */
  lemma FailureBySeverity(r: Result, o: Outcome, ctx: Context)
    requires r in o.failures
    ensures CategoryOf(r, o, ctx) == Failures
            <==> if TakenForWarning(r, o) then r.Get("severity") == Text("failure")
                 else !NotYetInEffect(r, ctx) && r.Get("severity") != Text("warning")
  {
    FailureStaysFailure(r, o, ctx);
    InEffectUnlessNotYet(r, ctx);
  }

  /** A warning is a failure if and only if its severity is "failure". */
  lemma WarningBySeverity(r: Result, o: Outcome, ctx: Context)
    requires r in o.warnings
    ensures CategoryOf(r, o, ctx) == Failures <==> r.Get("severity") == Text("failure")
    ensures CategoryOf(r, o, ctx) == Warnings <==> r.Get("severity") != Text("failure")
  {
    WarningStaysWarning(r, o, ctx);
  }

  /** Whether the result has a code, and one of these results the same. */
  predicate SharesCode(r: Result, results: seq<Result>) {
    Coded(r) && exists other :: other in results && StringAt(other, CODE) == StringAt(r, CODE)
  }

  predicate SharesMessage(r: Result, results: seq<Result>) {
    exists other :: other in results && other.message == r.message
  }

  predicate SharesAnyCode(r: Result, o: Outcome) {
    SharesCode(r, o.warnings) || SharesCode(r, o.failures) || SharesCode(r, o.exceptions) || SharesCode(r, o.skipped)
  }

  /** A result is an exception if and only if it shares its code with an exception and with no warning
      or failure or, sharing its code with nothing, the same holds of its message. */
  lemma ExceptionIff(r: Result, o: Outcome, ctx: Context)
    ensures CategoryOf(r, o, ctx) == ExceptionsToo
            <==> if SharesAnyCode(r, o)
                 then SharesCode(r, o.exceptions) && !SharesCode(r, o.warnings) && !SharesCode(r, o.failures)
                 else SharesMessage(r, o.exceptions) && !SharesMessage(r, o.warnings) && !SharesMessage(r, o.failures)
  {
  }

  /** It is skipped if and only if it shares its code or else its message with skipped results only. */
  lemma SkippedIff(r: Result, o: Outcome, ctx: Context)
    ensures CategoryOf(r, o, ctx) == SkippedToo
            <==> if SharesAnyCode(r, o)
                 then SharesCode(r, o.skipped) && !SharesCode(r, o.warnings) && !SharesCode(r, o.failures) && !SharesCode(r, o.exceptions)
                 else SharesMessage(r, o.skipped) && !SharesMessage(r, o.warnings) && !SharesMessage(r, o.failures)
                      && !SharesMessage(r, o.exceptions)
  {
  }

  /** A result that shares neither with any is treated like a failure if it has an effective date;
      otherwise it is a warning. */
  lemma UnknownOrigin(r: Result, o: Outcome, ctx: Context)
    requires !SharesAnyCode(r, o)
    requires !SharesMessage(r, o.warnings) && !SharesMessage(r, o.failures)
    requires !SharesMessage(r, o.exceptions) && !SharesMessage(r, o.skipped)
    ensures CategoryOf(r, o, ctx)
            == if "effective_on" in r.metadata && !NotYetInEffect(r, ctx) && r.Get("severity") != Text("warning")
               then Failures else Warnings
  {
    InEffectUnlessNotYet(r, ctx);
    assert TypeByCode(StringAt(r, CODE), o) == Unknown && TypeByMessage(r.message, o) == Unknown;
    assert TypeOf(r, o) == if "effective_on" in r.metadata then Failure else Unknown;
  }

  // ----- adding the rule's metadata -----

  function WithText(m: map<string, Value>, key: string, text: string): map<string, Value> {
    if text == "" then m else m[key := Text(text)]
  }

  function WithTexts(m: map<string, Value>, key: string, texts: seq<string>): map<string, Value> {
    if texts == [] then m else m[key := Texts(texts)]
  }

  function Printed(values: seq<Value>, ctx: Context): seq<string> {
    seq(|values|, i requires 0 <= i < |values| => if values[i].Text? then values[i].text else ctx.sprint(values[i]))
  }

  function Normalised(m: map<string, Value>, ctx: Context): map<string, Value> {
    if COLLECTIONS !in m then m
    else match m[COLLECTIONS]
      case List(values) => m[COLLECTIONS := Texts(Printed(values, ctx))]
      case Texts(_) => m
      case _ => m - {COLLECTIONS}
  }

  function WithRuleTexts(m: map<string, Value>, info: RuleInfo): map<string, Value> {
    var m1 := WithText(m, TITLE, info.title);
    var m2 := WithText(m1, EFFECTIVE_ON, info.effectiveOn);
    var m3 := WithText(m2, SEVERITY, info.severity);
    var m4 := WithText(m3, DESCRIPTION, info.description);
    WithText(m4, SOLUTION, info.solution)
  }

  /** The metadata with everything the rule says, collections as a list of strings. */
  function WithRule(m: map<string, Value>, info: RuleInfo, ctx: Context): map<string, Value> {
    var texts := WithRuleTexts(Normalised(m, ctx), info);
    WithTexts(WithTexts(texts, COLLECTIONS, info.collections), DEPENDS_ON, info.dependsOn)
  }

  predicate LongInEffect(m: map<string, Value>, ctx: Context) {
    && EFFECTIVE_ON in m && m[EFFECTIVE_ON].Text?
    && var t := ctx.parseTime(m[EFFECTIVE_ON].text);
       t.Some? && t.value < ctx.now + EFFECTIVE_ON_TIMEOUT
  }

  function WithoutOldDate(m: map<string, Value>, ctx: Context): map<string, Value> {
    if LongInEffect(m, ctx) then m - {EFFECTIVE_ON} else m
  }

  function Augmented(r: Result, info: RuleInfo, ctx: Context): Result {
    r.(metadata := WithoutOldDate(WithRule(r.metadata, info, ctx), ctx))
  }

  const NO_RULE := RuleInfo("", [], [], "", "", "", "", [], "", "")

  function InfoFor(rules: PolicyRules, code: string): RuleInfo {
    if code in rules then rules[code] else NO_RULE
  }

  function WithRuleMetadata(r: Result, rules: PolicyRules, ctx: Context): Result {
    match r.Get(CODE)
    case Text(code) => Augmented(r, InfoFor(rules, code), ctx)
    case _ => r
  }

  method AddMetadataToResults(r: Result, rule: RuleInfo, ctx: Context) returns (r': Result)
    ensures r' == Augmented(r, rule, ctx)
  {
    var m := NormaliseCollections(r.metadata, ctx);
    m := SetTexts(m, rule);
    if |rule.collections| > 0 { m := m[COLLECTIONS := Texts(rule.collections)]; }
    if |rule.dependsOn| > 0 { m := m[DEPENDS_ON := Texts(rule.dependsOn)]; }
    assert m == WithRule(r.metadata, rule, ctx);
    if EFFECTIVE_ON in m && m[EFFECTIVE_ON].Text? {
      var effectiveOnTime := ctx.parseTime(m[EFFECTIVE_ON].text);
      if effectiveOnTime.Some? && effectiveOnTime.value < ctx.now + EFFECTIVE_ON_TIMEOUT {
        m := m - {EFFECTIVE_ON};
      }
    }
    r' := r.(metadata := m);
  }

  method NormaliseCollections(metadata: map<string, Value>, ctx: Context) returns (m: map<string, Value>)
    ensures m == Normalised(metadata, ctx)
  {
    m := metadata;
    if COLLECTIONS in m {
      match m[COLLECTIONS] {
        case List(vals) =>
          var col := [];
          for i := 0 to |vals|
            invariant col == Printed(vals, ctx)[..i]
          {
            col := col + [if vals[i].Text? then vals[i].text else ctx.sprint(vals[i])];
          }
          assert Printed(vals, ctx)[..|vals|] == Printed(vals, ctx);
          m := m[COLLECTIONS := Texts(col)];
        case Texts(_) =>
        case _ => m := m - {COLLECTIONS};
      }
    }
  }

  method SetTexts(metadata: map<string, Value>, rule: RuleInfo) returns (m: map<string, Value>)
    ensures m == WithRuleTexts(metadata, rule)
  {
    m := metadata;
    if rule.title != "" { m := m[TITLE := Text(rule.title)]; }
    if rule.effectiveOn != "" { m := m[EFFECTIVE_ON := Text(rule.effectiveOn)]; }
    if rule.severity != "" { m := m[SEVERITY := Text(rule.severity)]; }
    if rule.description != "" { m := m[DESCRIPTION := Text(rule.description)]; }
    if rule.solution != "" { m := m[SOLUTION := Text(rule.solution)]; }
  }

  /** Texts of the rule leave every other key alone. */
  lemma WithRuleTextsKeeps(m: map<string, Value>, info: RuleInfo, key: string)
    requires key !in {TITLE, EFFECTIVE_ON, SEVERITY, DESCRIPTION, SOLUTION}
    ensures var m' := WithRuleTexts(m, info); (key in m' <==> key in m) && (key in m ==> m'[key] == m[key])
  {
  }

  lemma WithRuleKeepsIdentity(r: Result, info: RuleInfo, ctx: Context)
    ensures var r' := r.(metadata := WithRule(r.metadata, info, ctx));
            && r'.Get(CODE) == r.Get(CODE) && r'.Get(TERM) == r.Get(TERM)
            && (info.collections != [] ==> r'.Get(COLLECTIONS) == Texts(info.collections))
  {
    WithRuleTextsKeeps(Normalised(r.metadata, ctx), info, CODE);
    WithRuleTextsKeeps(Normalised(r.metadata, ctx), info, TERM);
    assert CODE != COLLECTIONS && CODE != DEPENDS_ON && TERM != COLLECTIONS && TERM != DEPENDS_ON;
  }

  lemma DroppingOldDate(r: Result, ctx: Context)
    ensures var r' := r.(metadata := WithoutOldDate(r.metadata, ctx));
            && (forall key | key != EFFECTIVE_ON :: r'.Get(key) == r.Get(key))
            && IsResultEffective(r', ctx) == IsResultEffective(r, ctx)
  {
  }

  /** Metadata only adds to what identifies a result: its message, codes and terms stay, and its
      collections are the rule's if the rule has any. */
  lemma AugmentedKeepsIdentity(r: Result, info: RuleInfo, ctx: Context)
    ensures var r' := Augmented(r, info, ctx);
            && r'.message == r.message && r'.Get(CODE) == r.Get(CODE) && r'.Get(TERM) == r.Get(TERM)
            && (info.collections != [] ==> CollectionNames(r') == Prefixed(info.collections))
  {
    WithRuleKeepsIdentity(r, info, ctx);
    DroppingOldDate(r.(metadata := WithRule(r.metadata, info, ctx)), ctx);
  }
}
