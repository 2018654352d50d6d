/** Which names match a result, and what is read from its metadata, in so many words. */
module Matching {
  import opened Wrappers
  import opened Sequences
  import opened Strings
  import opened Results
  import opened Specificity
  import opened SpecificityBounds

  // ----- reading metadata -----

  lemma {:induction false} InNonEmptyTexts(values: seq<Value>, s: string)
    ensures s in NonEmptyTexts(values) <==> s != "" && Text(s) in values
  {
    if values != [] {
      InNonEmptyTexts(values[1..], s);
    }
  }

  /** The strings at a key are its one string, or the strings in its untyped list; never empty ones. */
  lemma StringsAtIff(r: Result, key: string, s: string)
    ensures s in StringsAt(r, key)
            <==> s != "" && key in r.metadata
                 && (r.metadata[key] == Text(s) || (r.metadata[key].List? && Text(s) in r.metadata[key].values))
  {
    if key in r.metadata && r.metadata[key].List? {
      InNonEmptyTexts(r.metadata[key].values, s);
    }
  }

  /** A code given as a list is the first string in it that is not empty. */
  lemma {:induction false} FirstNonEmptyText(values: seq<Value>, i: nat)
    requires i < |values| && values[i].Text? && values[i].text != ""
    requires forall j | 0 <= j < i :: values[j].Text? ==> values[j].text == ""
    ensures NonEmptyTexts(values) != [] && NonEmptyTexts(values)[0] == values[i].text
  {
    if i > 0 {
      FirstNonEmptyText(values[1..], i - 1);
    }
  }

  lemma CodeOf(r: Result, i: nat)
    ensures forall code | r.Get("code") == Text(code) :: StringAt(r, "code") == code
    ensures var v := r.Get("code");
            v.List? && i < |v.values| && v.values[i].Text? && v.values[i].text != ""
            && (forall j | 0 <= j < i :: v.values[j].Text? ==> v.values[j].text == "") ==>
              StringAt(r, "code") == v.values[i].text
    ensures !r.Get("code").Text? && !r.Get("code").List? ==> StringAt(r, "code") == ""
  {
    var v := r.Get("code");
    if v.List? && i < |v.values| && v.values[i].Text? && v.values[i].text != ""
       && forall j | 0 <= j < i :: v.values[j].Text? ==> v.values[j].text == ""
    {
      FirstNonEmptyText(v.values, i);
    }
  }

  /** A result is in the collections of its typed list, and in none if it has no such list. */
  lemma CollectionsIff(r: Result, name: string)
    ensures name in CollectionNames(r)
            <==> "collections" in r.metadata && r.metadata["collections"].Texts?
                 && exists c :: c in r.metadata["collections"].texts && name == "@" + c
  {
    if "collections" in r.metadata && r.metadata["collections"].Texts? {
      InPrefixed(r.metadata["collections"].texts, name);
    }
  }

  lemma InPrefixed(collections: seq<string>, name: string)
    ensures name in Prefixed(collections) <==> exists c :: c in collections && name == "@" + c
  {
    if c :| c in collections && name == "@" + c {
      var i :| 0 <= i < |collections| && collections[i] == c;
      assert Prefixed(collections)[i] == name;
    }
  }

  // ----- matchers -----

  /** The last two parts of a code: its package and its rule. */
  ghost predicate EndsWith(code: string, pkg: string, rule: string) {
    && pkg != "" && '.' !in pkg && '.' !in rule
    && (code == pkg + "." + rule || exists outer :: code == outer + "." + (pkg + "." + rule))
  }

  lemma BaseMatchersOfCode(code: string, pkg: string, rule: string)
    requires EndsWith(code, pkg, rule)
    ensures BaseMatchers(code) == [pkg, pkg + ".*", pkg + "." + rule]
  {
    SplitAt(pkg, rule, '.');
    SplitWhole(pkg, '.');
    SplitWhole(rule, '.');
    if code != pkg + "." + rule {
      var outer :| code == outer + "." + (pkg + "." + rule);
      SplitAt(outer, pkg + "." + rule, '.');
    }
  }

  lemma NoPackage(code: string, rule: string)
    ensures '.' !in code ==> BaseMatchers(code) == []
    ensures '.' !in rule ==> BaseMatchers("." + rule) == []
  {
    if '.' !in code {
      SplitWhole(code, '.');
    }
    if '.' !in rule {
      SplitAt("", rule, '.');
      SplitWhole(rule, '.');
      assert "" + "." + rule == "." + rule;
    }
  }

  /** Whether the name is one of these with the term behind a colon. */
  predicate NamedWith(base: seq<string>, term: string, name: string) {
    exists b :: b in base && name == b + ":" + term
  }

  lemma InWithTerm(base: seq<string>, term: string, name: string)
    ensures name in WithTerm(base, term) <==> NamedWith(base, term, name)
  {
    if b :| b in base && name == b + ":" + term {
      var i :| 0 <= i < |base| && base[i] == b;
      assert WithTerm(base, term)[i] == name;
    }
  }

  lemma {:induction false} InTermMatchers(base: seq<string>, terms: seq<string>, name: string)
    ensures name in TermMatchers(base, terms) <==> exists t :: t in terms && t != "" && NamedWith(base, t, name)
  {
    if terms != [] {
      InTermMatchers(base, terms[1..], name);
      InWithTerm(base, terms[0], name);
      assert forall t :: t in terms <==> t == terms[0] || t in terms[1..];
    }
  }

  /** A name without its term is the package, all rules of the package, or the rule. */
  predicate NamesRuleOf(name: string, pkg: string, rule: string) {
    name == pkg || name == pkg + ".*" || name == pkg + "." + rule
  }

  /** Exactly these names match a result: its package, all rules of it and its rule, each also with
      any of its terms, everything, and its collections. */
  lemma MatchersIff(code: string, pkg: string, rule: string, terms: seq<string>, collections: seq<string>, name: string)
    requires EndsWith(code, pkg, rule)
    ensures name in MatchersOf(code, terms, collections)
            <==> || NamesRuleOf(name, pkg, rule)
                 || (exists t :: t in terms && t != "" && NamedWith([pkg, pkg + ".*", pkg + "." + rule], t, name))
                 || name == "*" || name in collections
  {
    BaseMatchersOfCode(code, pkg, rule);
    InTermMatchers(BaseMatchers(code), terms, name);
  }

  /** For a result: with the terms and collections of its metadata. */
  lemma ResultMatchersIff(r: Result, pkg: string, rule: string, name: string)
    requires EndsWith(StringAt(r, "code"), pkg, rule)
    ensures name in Matchers(r)
            <==> || NamesRuleOf(name, pkg, rule)
                 || (exists t :: t in StringsAt(r, "term") && t != "" && NamedWith([pkg, pkg + ".*", pkg + "." + rule], t, name))
                 || name == "*" || name in CollectionNames(r)
  {
    MatchersIff(StringAt(r, "code"), pkg, rule, StringsAt(r, "term"), CollectionNames(r), name);
  }

  /** A result whose code has no package is matched by everything and its collections only. */
  lemma MatchersWithoutPackage(code: string, terms: seq<string>, collections: seq<string>, name: string)
    requires '.' !in code
    ensures name in MatchersOf(code, terms, collections) <==> name == "*" || name in collections
  {
    NoPackage(code, "");
    InTermMatchers([], terms, name);
  }

  /** The wildcard with a rule covers everything, and counts 1 for that. */
  lemma ScoreOfStarRule(rule: string)
    requires Plain(rule)
    ensures Score("*." + rule) == 101 && Score("*.*") == 1
  {
    SplitAt("*", rule, '.');
    SplitAt("*", "*", '.');
    SplitWhole("*", '.');
    SplitWhole(rule, '.');
    TermlessParts("*." + rule);
    TermlessParts("*.*");
    assert "*" + "." + rule == "*." + rule && "*" + "." + "*" == "*.*";
  }
}
