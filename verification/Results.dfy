/** Rules, evaluation results with their metadata, and the names that match them. */
module Results {
  import opened Wrappers
  import opened Sequences
  import opened Strings

  /** A metadata value: a string, a typed list of strings, an untyped list, or anything else. */
  datatype Value = Text(text: string) | Texts(texts: seq<string>) | List(values: seq<Value>) | Other

  datatype Result = Result(message: string, metadata: map<string, Value>) {
    function Get(key: string): Value {
      if key in metadata then metadata[key] else Other
    }
  }

  datatype Outcome = Outcome(namespace: string, successes: seq<Result>, skipped: seq<Result>,
                             warnings: seq<Result>, failures: seq<Result>, exceptions: seq<Result>)

  datatype RuleInfo = RuleInfo(code: string, collections: seq<string>, dependsOn: seq<string>, description: string,
                               severity: string, effectiveOn: string, package: string,
                               pipelineIntention: seq<string>, solution: string, title: string)

  type PolicyRules = map<string, RuleInfo>

  /** A rule of which nothing but its code and its collections is known. */
  function Rule(code: string, collections: seq<string>): RuleInfo {
    RuleInfo(code, collections, [], "", "", "", "", [], "", "")
  }

  const CODE := "code"
  const COLLECTIONS := "collections"
  const DEPENDS_ON := "depends_on"
  const DESCRIPTION := "description"
  const SEVERITY := "severity"
  const EFFECTIVE_ON := "effective_on"
  const SOLUTION := "solution"
  const TERM := "term"
  const TITLE := "title"

  // ----- reading metadata -----

  function NonEmptyTexts(values: seq<Value>): seq<string> {
    if values == [] then []
    else (if values[0].Text? && values[0].text != "" then [values[0].text] else []) + NonEmptyTexts(values[1..])
  }

  /** The non-empty strings at the key, be it one string or an untyped list. */
  function StringsAt(r: Result, key: string): seq<string> {
    match r.Get(key)
    case Text(text) => if text != "" then [text] else []
    case List(values) => NonEmptyTexts(values)
    case _ => []
  }

  function StringAt(r: Result, key: string): string {
    var values := StringsAt(r, key);
    if values == [] then "" else values[0]
  }

  function CollectionNames(r: Result): seq<string> {
    match r.Get(COLLECTIONS)
    case Texts(texts) => Prefixed(texts)
    case _ => []
  }

  method ExtractStringsFromMetadata(r: Result, key: string) returns (values: seq<string>)
    ensures values == StringsAt(r, key)
  {
    var value := r.Get(key);
    if value.Text? && |value.text| > 0 {
      return [value.text];
    }
    values := [];
    if value.List? {
      values := ExtractStrings(value.values);
    }
  }

  method ExtractStrings(list: seq<Value>) returns (values: seq<string>)
    ensures values == NonEmptyTexts(list)
  {
    values := [];
    for i := 0 to |list|
      invariant values + NonEmptyTexts(list[i..]) == NonEmptyTexts(list)
    {
      assert list[i..][1..] == list[i + 1..];
      if list[i].Text? && |list[i].text| > 0 {
        Assoc(values, [list[i].text], NonEmptyTexts(list[i + 1..]));
        values := values + [list[i].text];
      } else {
        Empty(NonEmptyTexts(list[i + 1..]));
      }
    }
    Empty(values);
  }

  method ExtractCollections(r: Result) returns (collections: seq<string>)
    ensures collections == CollectionNames(r)
  {
    collections := [];
    var value := r.Get(COLLECTIONS);
    if value.Texts? {
      for i := 0 to |value.texts|
        invariant collections == Prefixed(value.texts[..i])
      {
        collections := collections + ["@" + value.texts[i]];
      }
      assert value.texts[..|value.texts|] == value.texts;
    }
  }

  // ----- matchers -----

  /** The names of the package, of all its rules, and of the rule; none if the code has no package. */
  function BaseMatchers(code: string): seq<string> {
    var parts := Split(code, '.');
    var pkg := if |parts| >= 2 then parts[|parts| - 2] else "";
    if pkg == "" then [] else [pkg, pkg + ".*", pkg + "." + parts[|parts| - 1]]
  }

  function WithTerm(base: seq<string>, term: string): seq<string> {
    seq(|base|, i requires 0 <= i < |base| => base[i] + ":" + term)
  }

  function TermMatchers(base: seq<string>, terms: seq<string>): seq<string> {
    if terms == [] then []
    else (if terms[0] == "" then [] else WithTerm(base, terms[0])) + TermMatchers(base, terms[1..])
  }

  function MatchersOf(code: string, terms: seq<string>, collections: seq<string>): seq<string> {
    BaseMatchers(code) + TermMatchers(BaseMatchers(code), terms) + ["*"] + collections
  }

  function Matchers(r: Result): seq<string> {
    MatchersOf(StringAt(r, CODE), StringsAt(r, TERM), CollectionNames(r))
  }

  function RuleMatchers(code: string, collections: seq<string>): seq<string> {
    MatchersOf(code, [], Prefixed(collections))
  }

  // ----- results of a rule -----

  /** The collections a result of the rule can have: the rule's or, if the rule has none, any. */
  predicate CanHave(collections: seq<string>, own: seq<string>) {
    collections == [] || own == collections
  }

  function AsList(texts: seq<string>): seq<Value> {
    seq(|texts|, i requires 0 <= i < |texts| => Text(texts[i]))
  }

  lemma {:induction false} NonEmptyTextsOfList(texts: seq<string>)
    requires forall i | 0 <= i < |texts| :: texts[i] != ""
    ensures NonEmptyTexts(AsList(texts)) == texts
  {
    if texts != [] {
      assert forall i | 0 <= i < |texts[1..]| :: texts[1..][i] == texts[i + 1];
      NonEmptyTextsOfList(texts[1..]);
      assert AsList(texts)[1..] == AsList(texts[1..]);
    }
  }

  function ResultWith(code: string, terms: seq<string>, collections: seq<string>): Result {
    Result("", map[CODE := Text(code), TERM := List(AsList(terms)), COLLECTIONS := Texts(collections)])
  }

  lemma ResultWithHas(code: string, terms: seq<string>, collections: seq<string>)
    requires forall i | 0 <= i < |terms| :: terms[i] != ""
    ensures var r := ResultWith(code, terms, collections);
            r.Get(CODE) == Text(code) && StringsAt(r, TERM) == terms && CollectionNames(r) == Prefixed(collections)
  {
    NonEmptyTextsOfList(terms);
    assert TERM != CODE && TERM != COLLECTIONS && CODE != COLLECTIONS;
  }

  lemma {:induction false} TermMatchersOfOneMore(base: seq<string>, terms: seq<string>, i: nat)
    requires i < |terms|
    ensures TermMatchers(base, terms[..i + 1])
            == TermMatchers(base, terms[..i]) + (if terms[i] == "" then [] else WithTerm(base, terms[i]))
  {
    var added := if terms[i] == "" then [] else WithTerm(base, terms[i]);
    if i == 0 {
      assert terms[..1][1..] == [];
      Empty(added);
    } else {
      TermMatchersOfOneMore(base, terms[1..], i - 1);
      assert terms[..i + 1][1..] == terms[1..][..i] && terms[..i][1..] == terms[1..][..i - 1];
      Assoc(if terms[0] == "" then [] else WithTerm(base, terms[0]), TermMatchers(base, terms[..i][1..]), added);
    }
  }

  method MakeTermMatchers(matchers: seq<string>, terms: seq<string>) returns (termMatchers: seq<string>)
    ensures termMatchers == TermMatchers(matchers, terms)
  {
    termMatchers := [];
    for i := 0 to |terms|
      invariant termMatchers == TermMatchers(matchers, terms[..i])
    {
      var term := terms[i];
      TermMatchersOfOneMore(matchers, terms, i);
      if |term| == 0 {
        continue;
      }
      ghost var before := termMatchers;
      for j := 0 to |matchers|
        invariant |termMatchers| == |before| + j && before <= termMatchers
        invariant forall k | 0 <= k < j :: termMatchers[|before| + k] == matchers[k] + ":" + term
      {
        termMatchers := termMatchers + [matchers[j] + ":" + term];
      }
      assert termMatchers == before + WithTerm(matchers, term);
    }
    assert terms[..|terms|] == terms;
  }

  method LegacyMakeMatchers(r: Result) returns (matchers: seq<string>)
    ensures matchers == Matchers(r)
  {
    var codes := ExtractStringsFromMetadata(r, CODE);
    var code := if |codes| > 0 then codes[0] else "";
    var terms := ExtractStringsFromMetadata(r, TERM);
    var parts := Split(code, '.');
    var pkg := "";
    if |parts| >= 2 {
      pkg := parts[|parts| - 2];
    }
    var rule := parts[|parts| - 1];
    matchers := [];
    if pkg != "" {
      matchers := matchers + [pkg, pkg + ".*", pkg + "." + rule];
    }
    assert matchers == BaseMatchers(code);
    var termMatchers := MakeTermMatchers(matchers, terms);
    matchers := matchers + termMatchers;
    matchers := matchers + ["*"];
    var collections := ExtractCollections(r);
    matchers := matchers + collections;
  }

  method CreateRuleMatchers(ruleID: string, ruleInfo: RuleInfo) returns (matchers: seq<string>)
    ensures matchers == RuleMatchers(ruleID, ruleInfo.collections)
  {
    var parts := Split(ruleID, '.');
    var pkg := "";
    if |parts| >= 2 {
      pkg := parts[|parts| - 2];
    }
    var rule := parts[|parts| - 1];
    matchers := [];
    if pkg != "" {
      matchers := matchers + [pkg, pkg + ".*", pkg + "." + rule];
    }
    matchers := matchers + ["*"];
    var collections := ruleInfo.collections;
    ghost var before := matchers;
    for i := 0 to |collections|
      invariant matchers == before + Prefixed(collections)[..i]
    {
      matchers := matchers + ["@" + collections[i]];
    }
    assert Prefixed(collections)[..|collections|] == Prefixed(collections);
  }
}
