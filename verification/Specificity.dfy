/** How specific an include or exclude name is, and the score a rule gets on a list of names. */
module Specificity {
  import opened Sequences
  import opened Strings

  // ----- the parts of a name -----

  predicate IsCollection(name: string) {
    "@" <= name
  }

  function ShortName(name: string): string {
    Cut(name, ':').0
  }

  function Term(name: string): string {
    Cut(name, ':').1
  }

  /** The whole short name if it has no dots, else all of it but the last part. */
  function PackagePath(name: string): seq<string> {
    var parts := Split(ShortName(name), '.');
    if |parts| == 1 then parts else parts[..|parts| - 1]
  }

  /** The last part of a short name with dots. */
  function RuleName(name: string): string {
    var parts := Split(ShortName(name), '.');
    if |parts| == 1 then "" else parts[|parts| - 1]
  }

  predicate NamesTerm(name: string) {
    !IsCollection(name) && Term(name) != ""
  }

  predicate NamesRule(name: string) {
    !IsCollection(name) && RuleName(name) != "" && RuleName(name) != "*"
  }

  predicate CoversEverything(name: string) {
    PackagePath(name) == ["*"]
  }

  /** The documented guidelines: 10 for a collection; else 1 for covering everything or 10 for each
      part of the package path, 100 more for a term and 100 more for a rule. */
  function Score(name: string): nat {
    if IsCollection(name) then 10
    else
      (if CoversEverything(name) then 1 else 10 * |PackagePath(name)|)
      + (if NamesTerm(name) then 100 else 0)
      + (if NamesRule(name) then 100 else 0)
  }

  lemma JoinIsStar(parts: seq<string>)
    requires forall part | part in parts :: '.' !in part
    requires parts != []
    ensures Join(parts, '.') == "*" <==> parts == ["*"]
  {
    if |parts| > 1 {
      var joined := Join(parts, '.');
      assert joined[|parts[0]|] == '.';
      assert '.' in joined;
    }
  }

  method LegacyScore(name: string) returns (value: int)
    ensures value == Score(name)
  {
    if "@" <= name {
      return 10;
    }
    value := 0;
    var (shortName, term) := Cut(name, ':');
    if term != "" {
      value := value + 100;
    }
    var nameSplit := Split(shortName, '.');
    var nameSplitLen := |nameSplit|;
    SplitParts(shortName, '.');
    if nameSplitLen == 1 {
      assert PackagePath(name) == [shortName];
      if shortName == "*" {
        value := value + 1;
      } else {
        value := value + 10;
      }
    } else if nameSplitLen > 1 {
      var rule := nameSplit[nameSplitLen - 1];
      var pkg := Join(nameSplit[..nameSplitLen - 1], '.');
      JoinIsStar(nameSplit[..nameSplitLen - 1]);
      if pkg == "*" {
        value := value + 1;
      } else {
        value := value + 10 * (nameSplitLen - 1);
      }
      if rule != "*" && rule != "" {
        value := value + 100;
      }
    }
  }

  // ----- the score over a list -----

  function ScoreOn(needle: string, haystack: seq<string>): nat {
    if haystack == [] then 0
    else (if haystack[0] == needle then Score(needle) else 0) + ScoreOn(needle, haystack[1..])
  }

  /** Every needle scores once for each time it is on the list. */
  function TotalScore(needles: seq<string>, haystack: seq<string>): nat {
    if needles == [] then 0 else ScoreOn(needles[0], haystack) + TotalScore(needles[1..], haystack)
  }

  function Matched(needles: seq<string>, haystack: seq<string>): set<string> {
    set hay | hay in haystack && hay in needles
  }

  /** The score of the needles on the list, and what is left of `toBePruned` when every match has
      been deleted from it. */
  method LegacyScoreMatches(needles: seq<string>, haystack: seq<string>, toBePruned: set<string>)
    returns (s: int, pruned: set<string>)
    ensures s == TotalScore(needles, haystack)
    ensures pruned == toBePruned - Matched(needles, haystack)
  {
    s := 0;
    pruned := toBePruned;
    for i := 0 to |needles|
      invariant s + TotalScore(needles[i..], haystack) == TotalScore(needles, haystack)
      invariant pruned == toBePruned - Matched(needles[..i], haystack)
    {
      var needle := needles[i];
      ghost var before := s;
      for j := 0 to |haystack|
        invariant s + ScoreOn(needle, haystack[j..]) == before + ScoreOn(needle, haystack)
        invariant pruned == toBePruned - Matched(needles[..i], haystack)
                            - (if needle in haystack[..j] then {needle} else {})
      {
        var hay := haystack[j];
        assert haystack[j..][1..] == haystack[j + 1..];
        assert haystack[..j + 1] == haystack[..j] + [hay];
        if hay == needle {
          var value := LegacyScore(hay);
          s := s + value;
          pruned := pruned - {hay};
        }
      }
      assert haystack[..|haystack|] == haystack;
      assert needles[i..][1..] == needles[i + 1..];
      MatchedOfOneMore(needles, i, haystack);
    }
    assert needles[..|needles|] == needles;
  }

  lemma MatchedOfOneMore(needles: seq<string>, i: nat, haystack: seq<string>)
    requires i < |needles|
    ensures Matched(needles[..i + 1], haystack)
            == Matched(needles[..i], haystack) + (if needles[i] in haystack then {needles[i]} else {})
  {
    assert needles[..i + 1] == needles[..i] + [needles[i]];
  }

  lemma {:induction false} ScoreOnIsCount(needle: string, haystack: seq<string>)
    ensures ScoreOn(needle, haystack) == multiset(haystack)[needle] * Score(needle)
  {
    if haystack != [] {
      ScoreOnIsCount(needle, haystack[1..]);
      assert haystack == [haystack[0]] + haystack[1..];
      var n := multiset(haystack[1..])[needle];
      Distribute(1, n, Score(needle));
    }
  }

  lemma {:induction false} ScoreIsPositive(name: string)
    ensures Score(name) >= 1
  {
    assert |PackagePath(name)| >= 1;
  }

  lemma {:induction false} TotalScoreOfConcat(a: seq<string>, b: seq<string>, haystack: seq<string>)
    ensures TotalScore(a + b, haystack) == TotalScore(a, haystack) + TotalScore(b, haystack)
  {
    if a == [] {
      Empty(b);
    } else {
      ConcatTail(a, b);
      TotalScoreOfConcat(a[1..], b, haystack);
    }
  }

  /** A longer list, in whatever order, never scores less. */
  lemma {:induction false} TotalScoreIsMonotone(needles: seq<string>, less: seq<string>, more: seq<string>)
    requires multiset(less) <= multiset(more)
    ensures TotalScore(needles, less) <= TotalScore(needles, more)
  {
    if needles != [] {
      TotalScoreIsMonotone(needles[1..], less, more);
      var n := needles[0];
      ScoreOnIsCount(n, less);
      ScoreOnIsCount(n, more);
      TimesIsMonotone(multiset(less)[n], multiset(more)[n], Score(n));
    }
  }

  lemma TimesIsMonotone(a: nat, b: nat, c: nat)
    requires a <= b
    ensures a * c <= b * c
  {
  }

  lemma Distribute(a: nat, b: nat, c: nat)
    ensures (a + b) * c == a * c + b * c
  {
  }

  /** The scores of two lists add up. */
  lemma {:induction false} TotalScoreIsAdditive(needles: seq<string>, h1: seq<string>, h2: seq<string>)
    ensures TotalScore(needles, h1 + h2) == TotalScore(needles, h1) + TotalScore(needles, h2)
  {
    if needles != [] {
      TotalScoreIsAdditive(needles[1..], h1, h2);
      var n := needles[0];
      ScoreOnIsCount(n, h1);
      ScoreOnIsCount(n, h2);
      ScoreOnIsCount(n, h1 + h2);
      Distribute(multiset(h1)[n], multiset(h2)[n], Score(n));
    }
  }

  lemma {:induction false} TotalScoreWithout(needles: seq<string>, i: nat, haystack: seq<string>)
    requires i < |needles|
    ensures TotalScore(needles, haystack)
            == TotalScore([needles[i]], haystack) + TotalScore(needles[..i] + needles[i + 1..], haystack)
  {
    assert needles == needles[..i] + ([needles[i]] + needles[i + 1..]);
    TotalScoreOfConcat(needles[..i], [needles[i]] + needles[i + 1..], haystack);
    TotalScoreOfConcat([needles[i]], needles[i + 1..], haystack);
    TotalScoreOfConcat(needles[..i], needles[i + 1..], haystack);
  }

  /** Neither the order of the needles nor that of the list matters. */
  lemma {:induction false} TotalScoreIgnoresOrder(needles: seq<string>, needles': seq<string>,
                                                  haystack: seq<string>, haystack': seq<string>)
    requires multiset(needles) == multiset(needles') && multiset(haystack) == multiset(haystack')
    ensures TotalScore(needles, haystack) == TotalScore(needles', haystack')
  {
    TotalScoreIsMonotone(needles, haystack, haystack');
    TotalScoreIsMonotone(needles, haystack', haystack);
    NeedleOrder(needles, needles', haystack');
  }

  lemma {:induction false} NeedleOrder(needles: seq<string>, needles': seq<string>, haystack: seq<string>)
    requires multiset(needles) == multiset(needles')
    ensures TotalScore(needles, haystack) == TotalScore(needles', haystack)
  {
    SameElementsSameLength(needles, needles');
    if needles != [] {
      var i := SameElementsWithout(needles, needles');
      NeedleOrder(needles[1..], needles'[..i] + needles'[i + 1..], haystack);
      TotalScoreWithout(needles', i, haystack);
    }
  }

  /** The score is positive exactly if some needle is on the list. */
  lemma {:induction false} TotalScorePositiveIffMatched(needles: seq<string>, haystack: seq<string>)
    ensures TotalScore(needles, haystack) > 0 <==> Matched(needles, haystack) != {}
  {
    if needles != [] {
      TotalScorePositiveIffMatched(needles[1..], haystack);
      var n := needles[0];
      ScoreIsPositive(n);
      ScoreOnIsCount(n, haystack);
      if n in haystack {
        assert n in Matched(needles, haystack);
        TimesIsMonotone(1, multiset(haystack)[n], Score(n));
      } else {
        assert needles == [n] + needles[1..];
        assert Matched(needles, haystack) == Matched(needles[1..], haystack);
      }
    }
  }

  /** Whether a rule or result with these matchers is kept. */
  predicate Outscores(matchers: seq<string>, includes: seq<string>, excludes: seq<string>) {
    TotalScore(matchers, includes) > TotalScore(matchers, excludes)
  }

  /** Adding to the include list never drops anything; adding to the exclude list never admits
      anything; and neither list's order matters. */
  lemma MoreIncludesKeepMore(matchers: seq<string>, includes: seq<string>, includes': seq<string>,
                             excludes: seq<string>, excludes': seq<string>)
    requires multiset(includes) <= multiset(includes') && multiset(excludes') <= multiset(excludes)
    requires Outscores(matchers, includes, excludes)
    ensures Outscores(matchers, includes', excludes')
  {
    TotalScoreIsMonotone(matchers, includes, includes');
    TotalScoreIsMonotone(matchers, excludes', excludes);
  }
}
