/** What the metadata of a result is once its rule's has been added, key by key. */
module RuleMetadata {
  import opened Wrappers
  import opened Sequences
  import opened Strings
  import opened Results
  import opened Categorisation

  /** The keys a rule has a text for. */
  function RuleText(info: RuleInfo, key: string): string {
    if key == "title" then info.title
    else if key == "severity" then info.severity
    else if key == "description" then info.description
    else if key == "solution" then info.solution
    else if key == "effective_on" then info.effectiveOn
    else ""
  }

  function Lookup(m: map<string, Value>, key: string): Option<Value> {
    if key in m then Some(m[key]) else None
  }

  lemma WithTextLookup(m: map<string, Value>, at: string, text: string, key: string)
    ensures Lookup(WithText(m, at, text), key) == if key == at && text != "" then Some(Text(text)) else Lookup(m, key)
  {
  }

  lemma TextsLookup(m: map<string, Value>, info: RuleInfo, key: string)
    ensures Lookup(WithRuleTexts(m, info), key)
            == if RuleText(info, key) != "" then Some(Text(RuleText(info, key))) else Lookup(m, key)
  {
    var m1 := WithText(m, TITLE, info.title);
    var m2 := WithText(m1, EFFECTIVE_ON, info.effectiveOn);
    var m3 := WithText(m2, SEVERITY, info.severity);
    var m4 := WithText(m3, DESCRIPTION, info.description);
    WithTextLookup(m, TITLE, info.title, key);
    WithTextLookup(m1, EFFECTIVE_ON, info.effectiveOn, key);
    WithTextLookup(m2, SEVERITY, info.severity, key);
    WithTextLookup(m3, DESCRIPTION, info.description, key);
    WithTextLookup(m4, SOLUTION, info.solution, key);
  }

  lemma NormalisedLookup(m: map<string, Value>, ctx: Context, key: string)
    requires key != "collections"
    ensures Lookup(Normalised(m, ctx), key) == Lookup(m, key)
  {
  }

  lemma WithRuleLookup(m: map<string, Value>, info: RuleInfo, ctx: Context, key: string)
    requires key != "collections" && key != "depends_on"
    ensures Lookup(WithRule(m, info, ctx), key)
            == if RuleText(info, key) != "" then Some(Text(RuleText(info, key))) else Lookup(m, key)
  {
    TextsLookup(Normalised(m, ctx), info, key);
    NormalisedLookup(m, ctx, key);
  }

  lemma NotTheDate(m: map<string, Value>, ctx: Context, key: string)
    requires key != "effective_on"
    ensures Lookup(WithoutOldDate(m, ctx), key) == Lookup(m, key)
  {
  }

  /** A text of the rule replaces the result's, and everything else but the lists and the date stays. */
  lemma TextsComeFromRule(r: Result, info: RuleInfo, ctx: Context, key: string)
    requires key !in {"collections", "depends_on", "effective_on"}
    ensures Lookup(Augmented(r, info, ctx).metadata, key)
            == if RuleText(info, key) != "" then Some(Text(RuleText(info, key))) else Lookup(r.metadata, key)
  {
    WithRuleLookup(r.metadata, info, ctx, key);
    NotTheDate(WithRule(r.metadata, info, ctx), ctx, key);
  }

  /** A date more than ninety days of 86400 seconds before the effective time. */
  ghost predicate LongAgo(v: Value, ctx: Context) {
    exists text, t :: v == Text(text) && ctx.parseTime(text) == Some(t) && t < ctx.now - 7_776_000_000_000_000
  }

  /** The rule's date or else the result's stays, unless it is long ago. */
  lemma DateComesFromRule(r: Result, info: RuleInfo, ctx: Context)
    ensures var date := if info.effectiveOn != "" then Some(Text(info.effectiveOn)) else Lookup(r.metadata, "effective_on");
            Lookup(Augmented(r, info, ctx).metadata, "effective_on")
            == if date.Some? && LongAgo(date.value, ctx) then None else date
  {
    WithRuleLookup(r.metadata, info, ctx, "effective_on");
    OldDateLookup(WithRule(r.metadata, info, ctx), ctx);
  }

  lemma OldDateLookup(m: map<string, Value>, ctx: Context)
    ensures var date := Lookup(m, "effective_on");
            Lookup(WithoutOldDate(m, ctx), "effective_on") == if date.Some? && LongAgo(date.value, ctx) then None else date
  {
    if LongInEffect(m, ctx) {
      var text := m["effective_on"].text;
      assert ctx.parseTime(text) == Some(ctx.parseTime(text).value);
    }
  }

  lemma ListsAreNoTexts(info: RuleInfo)
    ensures RuleText(info, "collections") == "" && RuleText(info, "depends_on") == ""
  {
    assert "collections" != "title" && "collections" != "severity" && "collections" != "description"
           && "collections" != "solution" && "collections" != "effective_on";
  }

  /** What the rule depends on replaces what the result says. */
  lemma DependenciesComeFromRule(r: Result, info: RuleInfo, ctx: Context)
    ensures Lookup(Augmented(r, info, ctx).metadata, "depends_on")
            == if info.dependsOn != [] then Some(Texts(info.dependsOn)) else Lookup(r.metadata, "depends_on")
  {
    ListsAreNoTexts(info);
    TextsLookup(Normalised(r.metadata, ctx), info, "depends_on");
    NormalisedLookup(r.metadata, ctx, "depends_on");
    NotTheDate(WithRule(r.metadata, info, ctx), ctx, "depends_on");
    assert "depends_on" != "collections";
  }

  /** The rule's collections replace the result's; otherwise an untyped list becomes a list of
      strings, strings as they are and others printed, and what is no list is dropped. */
  lemma CollectionsComeFromRuleOrResult(r: Result, info: RuleInfo, ctx: Context)
    ensures var v, v' := Lookup(r.metadata, "collections"), Lookup(Augmented(r, info, ctx).metadata, "collections");
            if info.collections != [] then v' == Some(Texts(info.collections))
            else if v.Some? && v.value.Texts? then v' == v
            else if v.Some? && v.value.List? then
              && v'.Some? && v'.value.Texts? && |v'.value.texts| == |v.value.values|
              && forall i | 0 <= i < |v.value.values| ::
                   v'.value.texts[i] == match v.value.values[i] case Text(text) => text case other => ctx.sprint(other)
            else v' == None
  {
    ListsAreNoTexts(info);
    TextsLookup(Normalised(r.metadata, ctx), info, "collections");
    NotTheDate(WithRule(r.metadata, info, ctx), ctx, "collections");
    assert "depends_on" != "collections";
  }

  /** Only results whose code is a string get metadata, and the empty rule's if their rule is unknown. */
  lemma MetadataByCode(r: Result, rules: PolicyRules, ctx: Context)
    ensures !r.Get("code").Text? ==> WithRuleMetadata(r, rules, ctx) == r
    ensures forall code | r.Get("code") == Text(code) ::
              WithRuleMetadata(r, rules, ctx)
              == Augmented(r, if code in rules then rules[code] else RuleInfo("", [], [], "", "", "", "", [], "", ""), ctx)
  {
  }
}
