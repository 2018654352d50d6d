/** How far a specific exclude reaches: what it takes to include a rule or result in spite of an
    exclude that names its rule, or its rule and term. */
module SpecificityBounds {
  import opened Sequences
  import opened Strings
  import opened Results
  import opened Specificity

  /** A package or rule name without any of the characters that have a meaning. */
  predicate Plain(s: string) {
    s != "" && s != "*" && !IsCollection(s) && '.' !in s && ':' !in s
  }

  function Code(pkg: string, rule: string): string {
    pkg + "." + rule
  }

  // ----- scores of the matchers of a two-part code -----

  lemma BaseMatchersOf(pkg: string, rule: string)
    requires Plain(pkg) && Plain(rule)
    ensures BaseMatchers(Code(pkg, rule)) == [pkg, pkg + ".*", Code(pkg, rule)]
  {
    SplitAt(pkg, rule, '.');
    SplitWhole(pkg, '.');
    SplitWhole(rule, '.');
  }

  lemma TermlessParts(name: string)
    requires ':' !in name
    ensures ShortName(name) == name && Term(name) == ""
  {
    SplitWhole(name, ':');
  }

  lemma ScoreOfPackage(pkg: string)
    requires Plain(pkg)
    ensures Score(pkg) == 10 && !NamesRule(pkg) && !NamesTerm(pkg)
    ensures Score(pkg + ".*") == 10 && !NamesRule(pkg + ".*") && !NamesTerm(pkg + ".*")
  {
    TermlessParts(pkg);
    SplitWhole(pkg, '.');
    TermlessParts(pkg + ".*");
    SplitAt(pkg, "*", '.');
    SplitWhole("*", '.');
    assert pkg + ".*" == pkg + "." + "*";
  }

  lemma ScoreOfRule(pkg: string, rule: string)
    requires Plain(pkg) && Plain(rule)
    ensures Score(Code(pkg, rule)) == 110 && NamesRule(Code(pkg, rule)) && !NamesTerm(Code(pkg, rule))
  {
    TermlessParts(Code(pkg, rule));
    SplitAt(pkg, rule, '.');
    SplitWhole(pkg, '.');
    SplitWhole(rule, '.');
  }

  lemma ScoreOfStar()
    ensures Score("*") == 1 && !NamesRule("*") && !NamesTerm("*")
  {
    TermlessParts("*");
    SplitWhole("*", '.');
  }

  /** Adding a term to a name without one adds 100. */
  lemma ScoreWithTerm(name: string, term: string)
    requires ':' !in name && !IsCollection(name) && name != "" && term != ""
    ensures Score(name + ":" + term) == Score(name) + 100 && NamesTerm(name + ":" + term)
    ensures NamesRule(name + ":" + term) == NamesRule(name)
  {
    TermlessParts(name);
    CutAt(name, term, ':');
  }

  lemma ScoreOfCollection(c: string)
    ensures Score("@" + c) == 10 && IsCollection("@" + c)
    ensures !NamesRule("@" + c) && !NamesTerm("@" + c)
  {
  }

  // ----- what a list without duplicates can score -----

  lemma {:induction false} OnListOnce(name: string, names: seq<string>)
    requires Distinct(names)
    ensures ScoreOn(name, names) == if name in names then Score(name) else 0
  {
    if names != [] {
      OnListOnce(name, names[1..]);
      assert names == [names[0]] + names[1..];
    }
  }

  lemma {:induction false} CollectionsScore(collections: seq<string>, names: seq<string>)
    requires Distinct(names)
    ensures TotalScore(Prefixed(collections), names) <= 10 * |collections|
    ensures (forall c | c in collections :: "@" + c in names) ==>
              TotalScore(Prefixed(collections), names) == 10 * |collections|
  {
    if collections != [] {
      CollectionsScore(collections[1..], names);
      assert Prefixed(collections)[1..] == Prefixed(collections[1..]);
      ScoreOfCollection(collections[0]);
      OnListOnce("@" + collections[0], names);
    }
  }

  lemma {:induction false} NoneOnList(needles: seq<string>, names: seq<string>)
    requires forall n | n in needles :: n !in names
    ensures TotalScore(needles, names) == 0
  {
    if needles != [] {
      assert needles[0] in needles;
      NoneOnList(needles[1..], names);
      ScoreOnIsCount(needles[0], names);
    }
  }

  lemma {:induction false} TermMatchersNameTerms(base: seq<string>, terms: seq<string>)
    requires forall b | b in base :: ':' !in b && !IsCollection(b) && b != ""
    ensures forall m | m in TermMatchers(base, terms) :: NamesTerm(m)
  {
    if terms != [] {
      TermMatchersNameTerms(base, terms[1..]);
      if terms[0] != "" {
        forall m | m in WithTerm(base, terms[0]) ensures NamesTerm(m) {
          var i :| 0 <= i < |base| && m == base[i] + ":" + terms[0];
          assert base[i] in base;
          ScoreWithTerm(base[i], terms[0]);
        }
      }
    }
  }

  lemma BaseIsTermless(pkg: string, rule: string)
    requires Plain(pkg) && Plain(rule)
    ensures forall b | b in BaseMatchers(Code(pkg, rule)) :: ':' !in b && !IsCollection(b) && b != ""
  {
    BaseMatchersOf(pkg, rule);
  }

  /** The score of a result on any list, part by part. */
  lemma ScoreByParts(pkg: string, rule: string, terms: seq<string>, collections: seq<string>, names: seq<string>)
    requires Plain(pkg) && Plain(rule)
    ensures TotalScore(MatchersOf(Code(pkg, rule), terms, Prefixed(collections)), names)
            == ScoreOn(pkg, names) + ScoreOn(pkg + ".*", names) + ScoreOn(Code(pkg, rule), names)
               + TotalScore(TermMatchers(BaseMatchers(Code(pkg, rule)), terms), names)
               + ScoreOn("*", names) + TotalScore(Prefixed(collections), names)
  {
    BaseMatchersOf(pkg, rule);
    var base := BaseMatchers(Code(pkg, rule));
    var withTerms := TermMatchers(base, terms);
    TotalScoreOfConcat(base + withTerms + ["*"], Prefixed(collections), names);
    TotalScoreOfConcat(base + withTerms, ["*"], names);
    TotalScoreOfConcat(base, withTerms, names);
    assert base[1..] == [pkg + ".*", Code(pkg, rule)] && base[1..][1..] == [Code(pkg, rule)];
    assert TotalScore(["*"], names) == ScoreOn("*", names);
    assert TotalScore([Code(pkg, rule)], names) == ScoreOn(Code(pkg, rule), names);
  }

  ghost predicate Termless(names: seq<string>) {
    forall n | n in names :: !NamesTerm(n)
  }

  ghost predicate Ruleless(names: seq<string>) {
    forall n | n in names :: !NamesRule(n)
  }

  /** Without duplicates and terms, a list gives a result at most 131 and 10 for each collection,
      110 less if it does not name rules either. */
  lemma TermlessScore(pkg: string, rule: string, terms: seq<string>, collections: seq<string>, names: seq<string>)
    requires Plain(pkg) && Plain(rule) && Distinct(names) && Termless(names)
    ensures var score := TotalScore(MatchersOf(Code(pkg, rule), terms, Prefixed(collections)), names);
            && score <= 131 + 10 * |collections|
            && (Ruleless(names) ==> score <= 21 + 10 * |collections|)
  {
    ScoreByParts(pkg, rule, terms, collections, names);
    ScoreOfPackage(pkg);
    ScoreOfRule(pkg, rule);
    ScoreOfStar();
    OnListOnce(pkg, names);
    OnListOnce(pkg + ".*", names);
    OnListOnce(Code(pkg, rule), names);
    OnListOnce("*", names);
    CollectionsScore(collections, names);
    BaseIsTermless(pkg, rule);
    TermMatchersNameTerms(BaseMatchers(Code(pkg, rule)), terms);
    NoneOnList(TermMatchers(BaseMatchers(Code(pkg, rule)), terms), names);
  }

  lemma {:induction false} ScoresAtLeast(needles: seq<string>, n: string, names: seq<string>)
    requires n in needles && n in names
    ensures TotalScore(needles, names) >= Score(n)
  {
    if needles[0] == n {
      ScoreOnIsCount(n, names);
      TimesIsMonotone(1, multiset(names)[n], Score(n));
    } else {
      ScoresAtLeast(needles[1..], n, names);
    }
  }

  lemma {:induction false} TermMatcherIsThere(base: seq<string>, terms: seq<string>, b: string, term: string)
    requires b in base && term in terms && term != ""
    ensures b + ":" + term in TermMatchers(base, terms)
  {
    if terms[0] == term {
      var i :| 0 <= i < |base| && base[i] == b;
      assert WithTerm(base, term)[i] == b + ":" + term;
    } else {
      TermMatcherIsThere(base, terms[1..], b, term);
    }
  }

  function ResultMatchers(pkg: string, rule: string, terms: seq<string>, collections: seq<string>): seq<string> {
    MatchersOf(Code(pkg, rule), terms, Prefixed(collections))
  }

  /** Excluding the rule beats every include list without rules and terms if there are no more than
      eight collections. */
  lemma ExcludedRuleStaysOut(pkg: string, rule: string, terms: seq<string>, collections: seq<string>,
                             includes: seq<string>, excludes: seq<string>)
    requires Plain(pkg) && Plain(rule) && |collections| <= 8
    requires Distinct(includes) && Termless(includes) && Ruleless(includes)
    requires Code(pkg, rule) in excludes
    ensures !Outscores(ResultMatchers(pkg, rule, terms, collections), includes, excludes)
  {
    TermlessScore(pkg, rule, terms, collections, includes);
    BaseMatchersOf(pkg, rule);
    ScoreOfRule(pkg, rule);
    assert BaseMatchers(Code(pkg, rule))[2] == Code(pkg, rule);
    ScoresAtLeast(ResultMatchers(pkg, rule, terms, collections), Code(pkg, rule), excludes);
  }

  /** Excluding one of the result's terms beats every include list without terms if there are no
      more than seven collections. */
  lemma ExcludedTermStaysOut(pkg: string, rule: string, terms: seq<string>, collections: seq<string>,
                             term: string, includes: seq<string>, excludes: seq<string>)
    requires Plain(pkg) && Plain(rule) && |collections| <= 7
    requires term in terms && term != ""
    requires Distinct(includes) && Termless(includes)
    requires Code(pkg, rule) + ":" + term in excludes
    ensures !Outscores(ResultMatchers(pkg, rule, terms, collections), includes, excludes)
  {
    TermlessScore(pkg, rule, terms, collections, includes);
    BaseMatchersOf(pkg, rule);
    ScoreOfRule(pkg, rule);
    assert BaseMatchers(Code(pkg, rule))[2] == Code(pkg, rule);
    ScoreWithTerm(Code(pkg, rule), term);
    TermMatcherIsThere(BaseMatchers(Code(pkg, rule)), terms, Code(pkg, rule), term);
    ScoresAtLeast(ResultMatchers(pkg, rule, terms, collections), Code(pkg, rule) + ":" + term, excludes);
  }

  // ----- what terms add -----

  /** What one term adds to the score of a result. */
  function TermScore(code: string, term: string, names: seq<string>): nat {
    TotalScore(WithTerm(BaseMatchers(code), term), names)
  }

  function TermScores(code: string, terms: seq<string>, names: seq<string>): nat {
    if terms == [] then 0
    else (if terms[0] == "" then 0 else TermScore(code, terms[0], names)) + TermScores(code, terms[1..], names)
  }

  lemma {:induction false} TermMatchersAddUp(code: string, terms: seq<string>, names: seq<string>)
    ensures TotalScore(TermMatchers(BaseMatchers(code), terms), names) == TermScores(code, terms, names)
  {
    if terms != [] {
      TermMatchersAddUp(code, terms[1..], names);
      TotalScoreOfConcat(if terms[0] == "" then [] else WithTerm(BaseMatchers(code), terms[0]),
                         TermMatchers(BaseMatchers(code), terms[1..]), names);
    }
  }

  /** A result scores what its rule scores, and what its terms add. */
  lemma ScoreOfResult(code: string, terms: seq<string>, collections: seq<string>, names: seq<string>)
    ensures TotalScore(MatchersOf(code, terms, Prefixed(collections)), names)
            == TotalScore(RuleMatchers(code, collections), names) + TermScores(code, terms, names)
  {
    var base, withTerms, rest := BaseMatchers(code), TermMatchers(BaseMatchers(code), terms), ["*"] + Prefixed(collections);
    assert MatchersOf(code, terms, Prefixed(collections)) == base + (withTerms + rest);
    assert RuleMatchers(code, collections) == base + rest;
    TotalScoreOfConcat(base, withTerms + rest, names);
    TotalScoreOfConcat(withTerms, rest, names);
    TotalScoreOfConcat(base, rest, names);
    TermMatchersAddUp(code, terms, names);
  }

  /** Whether the term scores more on the one list than on the other. */
  predicate TermOutranks(code: string, term: string, names: seq<string>, others: seq<string>) {
    term != "" && TermScore(code, term, names) > TermScore(code, term, others)
  }

  lemma {:induction false} OtherTermsDoNotHelp(code: string, terms: seq<string>, names: seq<string>, others: seq<string>)
    requires forall term :: !TermOutranks(code, term, names, others)
    ensures TermScores(code, terms, names) <= TermScores(code, terms, others)
  {
    if terms != [] {
      OtherTermsDoNotHelp(code, terms[1..], names, others);
      assert !TermOutranks(code, terms[0], names, others);
    }
  }

  lemma {:induction false} OutrankingTermHelps(code: string, term: string, n: nat, names: seq<string>, others: seq<string>)
    requires TermOutranks(code, term, names, others)
    ensures TermScores(code, seq(n, _ => term), names) >= TermScores(code, seq(n, _ => term), others) + n
  {
    if n > 0 {
      OutrankingTermHelps(code, term, n - 1, names, others);
      assert seq(n, _ => term)[1..] == seq(n - 1, _ => term);
    }
  }

  // ----- what a result's own collections add -----

  predicate CollectionOutranks(c: string, names: seq<string>, others: seq<string>) {
    ScoreOn("@" + c, names) > ScoreOn("@" + c, others)
  }

  lemma ScoreOfCollections(c: string, collections: seq<string>, names: seq<string>)
    ensures TotalScore(Prefixed([c] + collections), names) == ScoreOn("@" + c, names) + TotalScore(Prefixed(collections), names)
  {
    assert Prefixed([c] + collections) == ["@" + c] + Prefixed(collections);
  }

  lemma {:induction false} OtherCollectionsDoNotHelp(collections: seq<string>, names: seq<string>, others: seq<string>)
    requires forall c :: !CollectionOutranks(c, names, others)
    ensures TotalScore(Prefixed(collections), names) <= TotalScore(Prefixed(collections), others)
  {
    if collections != [] {
      OtherCollectionsDoNotHelp(collections[1..], names, others);
      assert collections == [collections[0]] + collections[1..];
      ScoreOfCollections(collections[0], collections[1..], names);
      ScoreOfCollections(collections[0], collections[1..], others);
      assert !CollectionOutranks(collections[0], names, others);
    }
  }

  lemma {:induction false} OutrankingCollectionHelps(c: string, n: nat, names: seq<string>, others: seq<string>)
    requires CollectionOutranks(c, names, others)
    ensures TotalScore(Prefixed(seq(n, _ => c)), names) >= TotalScore(Prefixed(seq(n, _ => c)), others) + n
  {
    if n > 0 {
      OutrankingCollectionHelps(c, n - 1, names, others);
      assert seq(n, _ => c) == [c] + seq(n - 1, _ => c);
      ScoreOfCollections(c, seq(n - 1, _ => c), names);
      ScoreOfCollections(c, seq(n - 1, _ => c), others);
    }
  }

  lemma RuleMatchersParts(code: string, collections: seq<string>)
    ensures RuleMatchers(code, collections) == BaseMatchers(code) + ["*"] + Prefixed(collections)
  {
    assert TermMatchers(BaseMatchers(code), []) == [];
    Empty(BaseMatchers(code));
  }

  lemma ScoreOfRuleMatchers(code: string, collections: seq<string>, names: seq<string>)
    ensures TotalScore(RuleMatchers(code, collections), names)
            == TotalScore(RuleMatchers(code, []), names) + TotalScore(Prefixed(collections), names)
  {
    RuleMatchersParts(code, collections);
    RuleMatchersParts(code, []);
    var base := BaseMatchers(code) + ["*"];
    assert Prefixed([]) == [];
    Empty(base);
    TotalScoreOfConcat(base, Prefixed(collections), names);
  }

  // ----- what the results of a rule can score -----

  /** Whether a term, or if the rule has no collections one of those, scores more on the one list
      than on the other. */
  ghost predicate ResultsOutrank(code: string, collections: seq<string>, names: seq<string>, others: seq<string>) {
    || (exists term :: TermOutranks(code, term, names, others))
    || (collections == [] && exists c :: CollectionOutranks(c, names, others))
  }

  /** If neither does, no result of the rule scores better on the one list than the rule does,
      compared with the other. */
  lemma OtherResultsDoNotHelp(code: string, collections: seq<string>, terms: seq<string>, own: seq<string>,
                              names: seq<string>, others: seq<string>)
    requires CanHave(collections, own) && !ResultsOutrank(code, collections, names, others)
    ensures TotalScore(MatchersOf(code, terms, Prefixed(own)), names) + TotalScore(RuleMatchers(code, collections), others)
            <= TotalScore(MatchersOf(code, terms, Prefixed(own)), others) + TotalScore(RuleMatchers(code, collections), names)
  {
    OtherTermsDoNotHelp(code, terms, names, others);
    ScoreOfResult(code, terms, own, names);
    ScoreOfResult(code, terms, own, others);
    if collections == [] {
      OtherCollectionsDoNotHelp(own, names, others);
      ScoreOfRuleMatchers(code, own, names);
      ScoreOfRuleMatchers(code, own, others);
      assert RuleMatchers(code, collections) == RuleMatchers(code, []);
    }
  }

  lemma RepeatedTerm(code: string, collections: seq<string>, term: string, n: nat, names: seq<string>, others: seq<string>)
    requires TermOutranks(code, term, names, others)
    ensures var m := MatchersOf(code, seq(n + TotalScore(RuleMatchers(code, collections), others), _ => term), Prefixed(collections));
            TotalScore(m, names) >= TotalScore(m, others) + n
  {
    var k := n + TotalScore(RuleMatchers(code, collections), others);
    OutrankingTermHelps(code, term, k, names, others);
    ScoreOfResult(code, seq(k, _ => term), collections, names);
    ScoreOfResult(code, seq(k, _ => term), collections, others);
  }

  lemma RepeatedCollection(code: string, c: string, n: nat, names: seq<string>, others: seq<string>)
    requires CollectionOutranks(c, names, others)
    ensures var m := RuleMatchers(code, seq(n + TotalScore(RuleMatchers(code, []), others), _ => c));
            TotalScore(m, names) >= TotalScore(m, others) + n
  {
    var k := n + TotalScore(RuleMatchers(code, []), others);
    OutrankingCollectionHelps(c, k, names, others);
    ScoreOfRuleMatchers(code, seq(k, _ => c), names);
    ScoreOfRuleMatchers(code, seq(k, _ => c), others);
  }

  /** If one does, a result that has it often enough scores as much more as one likes. */
  lemma SomeResultHelps(code: string, collections: seq<string>, n: nat, names: seq<string>, others: seq<string>)
    returns (terms: seq<string>, own: seq<string>)
    requires ResultsOutrank(code, collections, names, others)
    ensures CanHave(collections, own) && forall i | 0 <= i < |terms| :: terms[i] != ""
    ensures TotalScore(MatchersOf(code, terms, Prefixed(own)), names) >= TotalScore(MatchersOf(code, terms, Prefixed(own)), others) + n
  {
    if term :| TermOutranks(code, term, names, others) {
      RepeatedTerm(code, collections, term, n, names, others);
      terms, own := seq(n + TotalScore(RuleMatchers(code, collections), others), _ => term), collections;
    } else {
      var c :| CollectionOutranks(c, names, others);
      RepeatedCollection(code, c, n, names, others);
      terms, own := [], seq(n + TotalScore(RuleMatchers(code, []), others), _ => c);
    }
  }

  // ----- the bounds are exact -----

  /** Every name without rule and term that matches, and the rule's own name if asked for. */
  function AllTermlessNames(pkg: string, rule: string, collections: seq<string>, withRule: bool): seq<string> {
    [pkg, pkg + ".*", "*"] + (if withRule then [Code(pkg, rule)] else []) + Prefixed(collections)
  }

  lemma AllTermlessNamesAreDistinct(pkg: string, rule: string, collections: seq<string>, withRule: bool)
    requires Plain(pkg) && Plain(rule) && Distinct(collections)
    ensures Distinct(AllTermlessNames(pkg, rule, collections, withRule))
  {
    var fixed := [pkg, pkg + ".*", "*"] + (if withRule then [Code(pkg, rule)] else []);
    assert '.' in pkg + ".*" && '.' in Code(pkg, rule);
    assert (pkg + ".*")[|pkg| + 1..] == "*" && Code(pkg, rule)[|pkg| + 1..] == rule;
    assert (pkg + ".*")[0] == pkg[0] && Code(pkg, rule)[0] == pkg[0];
    assert Distinct(fixed);
    forall i, j | 0 <= i < j < |collections| ensures Prefixed(collections)[i] != Prefixed(collections)[j] {
      assert Prefixed(collections)[i][1..] == collections[i];
      assert Prefixed(collections)[j][1..] == collections[j];
    }
    var names := AllTermlessNames(pkg, rule, collections, withRule);
    assert forall k | 0 <= k < |fixed| :: names[k] == fixed[k] && !IsCollection(fixed[k]);
    assert forall k | |fixed| <= k < |names| :: names[k] == Prefixed(collections)[k - |fixed|] && IsCollection(names[k]);
  }

  lemma AllTermlessNamesScore(pkg: string, rule: string, terms: seq<string>, collections: seq<string>, withRule: bool)
    requires Plain(pkg) && Plain(rule) && Distinct(collections)
    ensures var names := AllTermlessNames(pkg, rule, collections, withRule);
            && Termless(names) && (!withRule ==> Ruleless(names))
            && TotalScore(ResultMatchers(pkg, rule, terms, collections), names)
               >= 21 + 10 * |collections| + (if withRule then 110 else 0)
  {
    var names := AllTermlessNames(pkg, rule, collections, withRule);
    AllTermlessNamesAreDistinct(pkg, rule, collections, withRule);
    AllTermlessNamesAreTermless(pkg, rule, collections, withRule);
    ScoreByParts(pkg, rule, terms, collections, names);
    ScoreOfPackage(pkg);
    ScoreOfRule(pkg, rule);
    ScoreOfStar();
    OnListOnce(pkg, names);
    OnListOnce(pkg + ".*", names);
    OnListOnce(Code(pkg, rule), names);
    OnListOnce("*", names);
    AllTermlessNamesListed(pkg, rule, collections, withRule);
    CollectionsScore(collections, names);
  }

  lemma AllTermlessNamesListed(pkg: string, rule: string, collections: seq<string>, withRule: bool)
    ensures var names := AllTermlessNames(pkg, rule, collections, withRule);
            && pkg in names && pkg + ".*" in names && "*" in names && (withRule ==> Code(pkg, rule) in names)
            && forall c | c in collections :: "@" + c in names
  {
    var names := AllTermlessNames(pkg, rule, collections, withRule);
    assert names[0] == pkg && names[1] == pkg + ".*" && names[2] == "*" && (withRule ==> names[3] == Code(pkg, rule));
    forall c | c in collections ensures "@" + c in names {
      var i :| 0 <= i < |collections| && collections[i] == c;
      assert Prefixed(collections)[i] == "@" + c;
      assert "@" + c in Prefixed(collections);
    }
  }

  lemma AllTermlessNamesAreTermless(pkg: string, rule: string, collections: seq<string>, withRule: bool)
    requires Plain(pkg) && Plain(rule)
    ensures var names := AllTermlessNames(pkg, rule, collections, withRule);
            Termless(names) && (!withRule ==> Ruleless(names))
  {
    ScoreOfPackage(pkg);
    ScoreOfRule(pkg, rule);
    ScoreOfStar();
    forall n | n in Prefixed(collections) ensures !NamesTerm(n) && !NamesRule(n) {
      assert IsCollection(n);
    }
  }

  lemma OnlyRuleScores(pkg: string, rule: string, terms: seq<string>, collections: seq<string>)
    requires Plain(pkg) && Plain(rule)
    ensures TotalScore(ResultMatchers(pkg, rule, terms, collections), [Code(pkg, rule)]) == 110
  {
    var names := [Code(pkg, rule)];
    ScoreByParts(pkg, rule, terms, collections, names);
    ScoreOfRule(pkg, rule);
    BaseIsTermless(pkg, rule);
    TermMatchersNameTerms(BaseMatchers(Code(pkg, rule)), terms);
    NoneOnList(TermMatchers(BaseMatchers(Code(pkg, rule)), terms), names);
    NoneOnList(Prefixed(collections), names) by {
      assert forall n | n in Prefixed(collections) :: IsCollection(n);
    }
    assert '.' in Code(pkg, rule) && (pkg + ".*")[|pkg| + 1..] == "*" && Code(pkg, rule)[|pkg| + 1..] == rule;
    OnListOnce(pkg, names);
    OnListOnce(pkg + ".*", names);
    OnListOnce("*", names);
    OnListOnce(Code(pkg, rule), names);
  }

  /** Of the rule's names with a term only one is the rule's own name with the given term. */
  lemma TermScoreOfOne(pkg: string, rule: string, t: string, term: string)
    requires Plain(pkg) && Plain(rule) && t != "" && term != ""
    ensures TermScore(Code(pkg, rule), t, [Code(pkg, rule) + ":" + term]) == if t == term then 210 else 0
  {
    var code, name := Code(pkg, rule), Code(pkg, rule) + ":" + term;
    BaseMatchersOf(pkg, rule);
    var matchers := WithTerm(BaseMatchers(code), t);
    assert matchers == [pkg + ":" + t, pkg + ".*" + ":" + t] + [code + ":" + t];
    NamesWithTermDiffer(pkg, code, t, term);
    NamesWithTermDiffer(pkg + ".*", code, t, term);
    NamesWithTermDiffer(code, code, t, term);
    NotTheRule(pkg, rule);
    TotalScoreOfConcat([pkg + ":" + t, pkg + ".*" + ":" + t], [code + ":" + t], [name]);
    NoneOnList([pkg + ":" + t, pkg + ".*" + ":" + t], [name]);
    ScoreOfRuleTerm(pkg, rule, term);
    OnListOnce(code + ":" + t, [name]);
    assert [code + ":" + t][1..] == [];
  }

  lemma NotTheRule(pkg: string, rule: string)
    requires Plain(pkg) && Plain(rule)
    ensures pkg != Code(pkg, rule) && pkg + ".*" != Code(pkg, rule)
    ensures ':' !in pkg && ':' !in pkg + ".*" && ':' !in Code(pkg, rule)
  {
    assert (pkg + ".*")[|pkg| + 1..] == "*" && Code(pkg, rule)[|pkg| + 1..] == rule;
  }

  lemma NamesWithTermDiffer(a: string, b: string, t: string, term: string)
    requires ':' !in a && ':' !in b
    ensures a + ":" + t == b + ":" + term <==> a == b && t == term
  {
    CutAt(a, t, ':');
    CutAt(b, term, ':');
  }

  lemma ScoreOfRuleTerm(pkg: string, rule: string, term: string)
    requires Plain(pkg) && Plain(rule) && term != ""
    ensures Score(Code(pkg, rule) + ":" + term) == 210
  {
    ScoreOfRule(pkg, rule);
    BaseMatchersOf(pkg, rule);
    BaseIsTermless(pkg, rule);
    assert BaseMatchers(Code(pkg, rule))[2] == Code(pkg, rule);
    ScoreWithTerm(Code(pkg, rule), term);
  }

  lemma {:induction false} TermScoresOfOne(pkg: string, rule: string, terms: seq<string>, term: string)
    requires Plain(pkg) && Plain(rule) && term != ""
    ensures TermScores(Code(pkg, rule), terms, [Code(pkg, rule) + ":" + term]) == 210 * multiset(terms)[term]
  {
    if terms != [] {
      TermScoresOfOne(pkg, rule, terms[1..], term);
      HeadMultiplicity(terms, term);
      if terms[0] != "" {
        TermScoreOfOne(pkg, rule, terms[0], term);
      }
    }
  }

  lemma RuleDoesNotScoreOnTerm(pkg: string, rule: string, term: string, collections: seq<string>)
    requires Plain(pkg) && Plain(rule)
    ensures TotalScore(RuleMatchers(Code(pkg, rule), collections), [Code(pkg, rule) + ":" + term]) == 0
  {
    var name := Code(pkg, rule) + ":" + term;
    NotTheRule(pkg, rule);
    assert ':' in name && ':' !in "*" && name[0] == pkg[0] && !IsCollection(name);
    BaseMatchersOf(pkg, rule);
    assert RuleMatchers(Code(pkg, rule), collections) == [pkg, pkg + ".*", Code(pkg, rule), "*"] + Prefixed(collections);
    assert forall n | n in Prefixed(collections) :: IsCollection(n);
    NoneOnList(RuleMatchers(Code(pkg, rule), collections), [name]);
  }

  /** A result scores on one of its rule's terms as often as it has that term. */
  lemma OnlyTermScores(pkg: string, rule: string, terms: seq<string>, term: string, collections: seq<string>)
    requires Plain(pkg) && Plain(rule) && term != ""
    ensures TotalScore(ResultMatchers(pkg, rule, terms, collections), [Code(pkg, rule) + ":" + term])
            == 210 * multiset(terms)[term]
  {
    ScoreOfResult(Code(pkg, rule), terms, collections, [Code(pkg, rule) + ":" + term]);
    RuleDoesNotScoreOnTerm(pkg, rule, term, collections);
    TermScoresOfOne(pkg, rule, terms, term);
  }

  /** With distinct collections, excluding the rule always wins if and only if there are at most
      eight of them. */
  lemma RuleExclusionBound(pkg: string, rule: string, terms: seq<string>, collections: seq<string>)
    requires Plain(pkg) && Plain(rule) && Distinct(collections)
    ensures (forall includes | Distinct(includes) && Termless(includes) && Ruleless(includes) ::
               !Outscores(ResultMatchers(pkg, rule, terms, collections), includes, [Code(pkg, rule)]))
            <==> |collections| <= 8
  {
    if |collections| <= 8 {
      forall includes | Distinct(includes) && Termless(includes) && Ruleless(includes)
        ensures !Outscores(ResultMatchers(pkg, rule, terms, collections), includes, [Code(pkg, rule)])
      {
        ExcludedRuleStaysOut(pkg, rule, terms, collections, includes, [Code(pkg, rule)]);
      }
    } else {
      var names := AllTermlessNames(pkg, rule, collections, false);
      AllTermlessNamesAreDistinct(pkg, rule, collections, false);
      AllTermlessNamesScore(pkg, rule, terms, collections, false);
      OnlyRuleScores(pkg, rule, terms, collections);
      assert Outscores(ResultMatchers(pkg, rule, terms, collections), names, [Code(pkg, rule)]);
    }
  }

  /** Excluding a term of the result always wins against termless names if and only if there are not
      too many distinct collections for the number of times the result has that term. */
  lemma TermExclusionBound(pkg: string, rule: string, terms: seq<string>, term: string, collections: seq<string>)
    requires Plain(pkg) && Plain(rule) && term != "" && Distinct(collections)
    ensures (forall includes | Distinct(includes) && Termless(includes) ::
               !Outscores(ResultMatchers(pkg, rule, terms, collections), includes, [Code(pkg, rule) + ":" + term]))
            <==> 131 + 10 * |collections| <= 210 * multiset(terms)[term]
  {
    var excludes := [Code(pkg, rule) + ":" + term];
    OnlyTermScores(pkg, rule, terms, term, collections);
    if 131 + 10 * |collections| <= 210 * multiset(terms)[term] {
      forall includes | Distinct(includes) && Termless(includes)
        ensures !Outscores(ResultMatchers(pkg, rule, terms, collections), includes, excludes)
      {
        TermlessScore(pkg, rule, terms, collections, includes);
      }
    } else {
      var names := AllTermlessNames(pkg, rule, collections, true);
      AllTermlessNamesAreDistinct(pkg, rule, collections, true);
      AllTermlessNamesScore(pkg, rule, terms, collections, true);
      assert Outscores(ResultMatchers(pkg, rule, terms, collections), names, excludes);
    }
  }

  /** With the term once, the bound is seven. */
  lemma SingleTermExclusionBound(pkg: string, rule: string, terms: seq<string>, term: string, collections: seq<string>)
    requires Plain(pkg) && Plain(rule) && term != "" && Distinct(collections) && multiset(terms)[term] == 1
    ensures (forall includes | Distinct(includes) && Termless(includes) ::
               !Outscores(ResultMatchers(pkg, rule, terms, collections), includes, [Code(pkg, rule) + ":" + term]))
            <==> |collections| <= 7
  {
    TermExclusionBound(pkg, rule, terms, term, collections);
  }

  // ----- a result that is included through everything -----

  lemma StarScores(pkg: string, rule: string, terms: seq<string>)
    requires Plain(pkg) && Plain(rule)
    ensures TotalScore(MatchersOf(Code(pkg, rule), terms, []), ["*"]) == 1
  {
    assert Prefixed([]) == [];
    ScoreByParts(pkg, rule, terms, [], ["*"]);
    ScoreOfStar();
    OnListOnce(pkg, ["*"]);
    OnListOnce(pkg + ".*", ["*"]);
    OnListOnce(Code(pkg, rule), ["*"]);
    OnListOnce("*", ["*"]);
    BaseIsTermless(pkg, rule);
    TermMatchersNameTerms(BaseMatchers(Code(pkg, rule)), terms);
    NoneOnList(TermMatchers(BaseMatchers(Code(pkg, rule)), terms), ["*"]);
  }

  // ----- names with a longer package path -----

  lemma {:induction false} SplitCountsSeparators(s: string, sep: char)
    ensures |Split(s, sep)| == multiset(s)[sep] + 1
  {
    if s != "" {
      SplitCountsSeparators(s[1..], sep);
      assert s == [s[0]] + s[1..];
    }
  }

  lemma {:induction false} CutIsPrefix(s: string, t: string)
    ensures ShortName(s) <= s
    ensures ShortName(s + ":" + t) == ShortName(s)
  {
    if s != "" {
      CutIsPrefix(s[1..], t);
      assert (s + ":" + t)[1..] == s[1..] + ":" + t;
      assert s == [s[0]] + s[1..];
    }
  }

  lemma FewDots(name: string, term: string)
    requires multiset(name)['.'] <= 1
    ensures |PackagePath(name)| <= 1 && |PackagePath(name + ":" + term)| <= 1
  {
    CutIsPrefix(name, term);
    var short := ShortName(name);
    assert name == short + name[|short|..];
    SplitCountsSeparators(short, '.');
  }

  lemma {:induction false} TermMatchersHaveShortPaths(base: seq<string>, terms: seq<string>)
    requires forall b | b in base :: multiset(b)['.'] <= 1
    ensures forall m | m in TermMatchers(base, terms) :: |PackagePath(m)| <= 1
  {
    if terms != [] {
      TermMatchersHaveShortPaths(base, terms[1..]);
      forall m | m in WithTerm(base, terms[0]) ensures |PackagePath(m)| <= 1 {
        var i :| 0 <= i < |base| && m == base[i] + ":" + terms[0];
        assert base[i] in base;
        FewDots(base[i], terms[0]);
      }
    }
  }

  lemma DotCounts(pkg: string, rule: string)
    requires '.' !in pkg && '.' !in rule
    ensures multiset(pkg)['.'] == 0 && multiset(pkg + ".*")['.'] == 1 && multiset(pkg + "." + rule)['.'] == 1
  {
    assert '.' !in multiset(pkg) && '.' !in multiset(rule);
    ConcatMultiplicity(pkg, ".*", '.');
    ConcatMultiplicity(pkg + ".", rule, '.');
    ConcatMultiplicity(pkg, ".", '.');
  }

  lemma BaseMatchersShape(code: string) returns (pkg: string, rule: string)
    requires BaseMatchers(code) != []
    ensures BaseMatchers(code) == [pkg, pkg + ".*", pkg + "." + rule] && '.' !in pkg && '.' !in rule
  {
    var parts := Split(code, '.');
    SplitParts(code, '.');
    pkg, rule := parts[|parts| - 2], parts[|parts| - 1];
    assert pkg in parts && rule in parts;
  }

  lemma BaseMatchersHaveFewDots(code: string)
    ensures forall b | b in BaseMatchers(code) :: multiset(b)['.'] <= 1
  {
    if BaseMatchers(code) != [] {
      var pkg, rule := BaseMatchersShape(code);
      DotCounts(pkg, rule);
    }
  }

  /** A name whose package path has more than one part, such as the documented "release.test.rule",
      matches no result of any code, whatever its terms and collections. */
  lemma LongPathsMatchNothing(name: string, code: string, terms: seq<string>, collections: seq<string>)
    requires !IsCollection(name) && |PackagePath(name)| > 1
    ensures name !in MatchersOf(code, terms, Prefixed(collections))
  {
    BaseMatchersHaveFewDots(code);
    if name in BaseMatchers(code) {
      FewDots(name, "");
    }
    TermMatchersHaveShortPaths(BaseMatchers(code), terms);
    FewDots("*", "");
  }

  /** What the documentation lets follow the path of a package: nothing, a dot, ".*", or a rule. */
  datatype RulePart = Nothing | Dot | AnyRule | OneRule(rule: string)

  /** A name made of the parts the documentation speaks of; an empty term is none. */
  datatype DocumentedName = InCollection(collection: string)
                          | Everything(term: string)
                          | InPackage(path: seq<string>, part: RulePart, term: string)
  {
    predicate Valid() {
      InPackage? ==> && path != [] && (forall i | 0 <= i < |path| :: Plain(path[i]))
                     && (part.OneRule? ==> Plain(part.rule))
    }

    function Short(): string {
      match this
      case InCollection(collection) => "@" + collection
      case Everything(_) => "*"
      case InPackage(path, part, _) =>
        Join(path, '.') + match part case Nothing => "" case Dot => "." case AnyRule => ".*" case OneRule(rule) => "." + rule
    }

    function Text(): string {
      if InCollection? || term == "" then Short() else Short() + ":" + term
    }

    /** 10 for a collection; else 1 for everything or 10 for a package, 100 more for a term and 100
        more for a rule. */
    function DocumentedScore(): nat {
      if InCollection? then 10
      else
        (if Everything? then 1 else 10)
        + (if term != "" then 100 else 0)
        + (if InPackage? && part.OneRule? then 100 else 0)
    }

    /** How much more the code gives: 10 for each further part of the path and, if nothing follows a
        path of several parts, 90, because its last part is taken for a rule. */
    function Excess(): nat {
      if !InPackage? || |path| <= 1 then 0
      else if part.Nothing? then 10 * (|path| - 2) + 100
      else 10 * (|path| - 1)
    }
  }

  lemma JoinOfPath(path: seq<string>)
    requires path != [] && forall i | 0 <= i < |path| :: Plain(path[i])
    ensures Split(Join(path, '.'), '.') == path
    ensures ':' !in Join(path, '.') && Join(path, '.') != "" && !IsCollection(Join(path, '.'))
  {
    SplitJoin(path, '.');
    JoinHasNo(path, '.', ':');
    assert path[0] <= Join(path, '.');
    assert path[0][0] == Join(path, '.')[0];
  }

  /** What follows the path, as the code splits it. */
  function Following(part: RulePart): seq<string> {
    match part case Nothing => [] case Dot => [""] case AnyRule => ["*"] case OneRule(rule) => [rule]
  }

  lemma SplitFollowing(joined: string, last: string)
    requires '.' !in last
    ensures Split(joined + ("." + last), '.') == Split(joined, '.') + [last]
  {
    SplitAt(joined, last, '.');
    SplitWhole(last, '.');
    Assoc(joined, ".", last);
  }

  /** The parts the code finds in the name of a package without a term. */
  lemma PartsOfShort(n: DocumentedName)
    requires n.Valid() && n.InPackage?
    ensures Split(n.Short(), '.') == n.path + Following(n.part)
  {
    JoinOfPath(n.path);
    var joined := Join(n.path, '.');
    match n.part {
      case Nothing =>
        Empty(n.path);
        Empty(joined);
      case Dot =>
        SplitFollowing(joined, "");
        Empty(".");
      case AnyRule =>
        SplitFollowing(joined, "*");
        assert ".*" == "." + "*";
      case OneRule(rule) =>
        SplitFollowing(joined, rule);
    }
  }

  lemma ShortIsPlainText(n: DocumentedName)
    requires n.Valid() && n.InPackage?
    ensures ':' !in n.Short() && n.Short() != "" && !IsCollection(n.Short())
  {
    JoinOfPath(n.path);
    assert Join(n.path, '.')[0] == n.Short()[0];
  }

  /** The code takes the last part of a path that nothing follows for a rule, if there is another. */
  lemma PathOfBare(n: DocumentedName)
    requires n.Valid() && n.InPackage? && n.part.Nothing?
    ensures PackagePath(n.Short()) == if |n.path| > 1 then n.path[..|n.path| - 1] else n.path
    ensures NamesRule(n.Short()) <==> |n.path| > 1
  {
    PartsOfShort(n);
    Empty(n.path);
    ShortIsPlainText(n);
    TermlessParts(n.Short());
    assert Plain(n.path[|n.path| - 1]);
  }

  lemma PathOfFollowed(n: DocumentedName)
    requires n.Valid() && n.InPackage? && !n.part.Nothing?
    ensures PackagePath(n.Short()) == n.path
    ensures NamesRule(n.Short()) <==> n.part.OneRule?
  {
    PartsOfShort(n);
    ShortIsPlainText(n);
    TermlessParts(n.Short());
    var parts := Split(n.Short(), '.');
    assert |parts| == |n.path| + 1 && parts[..|parts| - 1] == n.path && parts[|parts| - 1] == Following(n.part)[0];
  }

  lemma ScoreOfShort(n: DocumentedName)
    requires n.Valid() && n.InPackage?
    ensures Score(n.Short()) == n.(term := "").DocumentedScore() + n.Excess()
  {
    if n.part.Nothing? {
      PathOfBare(n);
    } else {
      PathOfFollowed(n);
    }
    ShortIsPlainText(n);
    TermlessParts(n.Short());
    assert Plain(n.path[0]);
    assert !CoversEverything(n.Short());
  }

  /** A name scores what the documentation says if and only if it names no package or one with a path
      of one part; otherwise it scores more. */
  lemma DocumentedScoreIff(n: DocumentedName)
    requires n.Valid()
    ensures Score(n.Text()) == n.DocumentedScore() + n.Excess()
    ensures Score(n.Text()) == n.DocumentedScore() <==> !n.InPackage? || |n.path| == 1
  {
    match n {
      case InCollection(collection) => ScoreOfCollection(collection);
      case Everything(term) =>
        ScoreOfStar();
        if term != "" {
          ScoreWithTerm("*", term);
        }
      case InPackage(_, _, term) =>
        ScoreOfShort(n);
        if term != "" {
          ShortIsPlainText(n);
          ScoreWithTerm(n.Short(), term);
        }
    }
  }

  /** Contrary to the documentation, every part of the package path counts: a package path of two
      parts with a rule and a term scores 220, not 210. */
  lemma LongPathsScoreMore(outer: string, pkg: string, rule: string, term: string)
    requires Plain(outer) && Plain(pkg) && Plain(rule) && term != ""
    ensures Score(outer + "." + Code(pkg, rule) + ":" + term) == 220
  {
    var name := outer + "." + Code(pkg, rule);
    TermlessParts(name);
    SplitAt(outer, Code(pkg, rule), '.');
    SplitAt(pkg, rule, '.');
    SplitWhole(outer, '.');
    SplitWhole(pkg, '.');
    SplitWhole(rule, '.');
    ScoreWithTerm(name, term);
  }
}
