/** The include and exclude items of a policy source, for all images or for some of them. */
module PolicyCriteria {
  import opened Wrappers
  import opened Sequences
  import opened Strings

  /** A target image reference: its repository name and, if it is pinned, its digest. */
  datatype Target = Unparsable | Image(repository: string, digest: Option<string>)

  type Keyed = map<string, seq<string>>

  /** The items without a key, and those kept under an image repository or digest. */
  datatype Items = Items(digestItems: Keyed, defaultItems: seq<string>) {
    function At(key: string): seq<string> {
      if key == "" then defaultItems else if key in digestItems then digestItems[key] else []
    }

    function Keyed(key: string): seq<string> {
      if key in digestItems then digestItems[key] else []
    }

    /** Items for the repository, then for the digest, then for every image. */
    function For(target: Target): seq<string> {
      (if target.Unparsable? then []
       else Keyed(target.repository) + (if target.digest.Some? then Keyed(target.digest.value) else []))
      + defaultItems
    }

    function With(key: string, values: seq<string>): Items {
      if key == "" then this.(defaultItems := defaultItems + values)
      else this.(digestItems := digestItems[key := Keyed(key) + values])
    }

    predicate IsEmpty() {
      defaultItems == [] && forall key | key in digestItems :: digestItems[key] == []
    }
  }

  const NO_ITEMS := Items(map[], [])

  ghost function Total(m: Keyed): nat
    decreases |m|
  {
    if m == map[] then 0
    else
      var key :| key in m;
      |m[key]| + Total(m - {key})
  }

  lemma {:induction false} TotalWithout(m: Keyed, key: string)
    requires key in m
    ensures Total(m) == |m[key]| + Total(m - {key})
    decreases |m|
  {
    var first :| first in m && Total(m) == |m[first]| + Total(m - {first});
    if first != key {
      TotalWithout(m - {first}, key);
      TotalWithout(m - {key}, first);
      assert m - {first} - {key} == m - {key} - {first};
    }
  }

  lemma {:induction false} TotalIsZeroIffEmpty(m: Keyed)
    ensures Total(m) == 0 <==> forall key | key in m :: m[key] == []
    decreases |m|
  {
    if m != map[] {
      var key :| key in m;
      TotalWithout(m, key);
      TotalIsZeroIffEmpty(m - {key});
      var rest := m - {key};
      assert forall k | k in m :: k == key || (k in rest && rest[k] == m[k]);
      assert forall k | k in rest :: k in m && rest[k] == m[k];
    }
  }

  class Criteria {
    var digestItems: Keyed
    var defaultItems: seq<string>

    function Value(): Items
      reads this
    {
      Items(digestItems, defaultItems)
    }

    constructor ()
      ensures Value() == NO_ITEMS
    {
      digestItems := map[];
      defaultItems := [];
    }

    method Len() returns (totalLength: nat)
      ensures totalLength == |defaultItems| + Total(digestItems)
      ensures totalLength == 0 <==> Value().IsEmpty()
    {
      totalLength := |defaultItems|;
      var left := digestItems;
      while left != map[]
        invariant left.Keys <= digestItems.Keys && forall key | key in left :: left[key] == digestItems[key]
        invariant totalLength + Total(left) == |defaultItems| + Total(digestItems)
        decreases |left|
      {
        var key :| key in left;
        TotalWithout(left, key);
        totalLength := totalLength + |left[key]|;
        left := left - {key};
      }
      TotalIsZeroIffEmpty(digestItems);
    }

    method AddItem(key: string, value: string)
      modifies this
      ensures Value() == old(Value()).With(key, [value])
    {
      if key == "" {
        defaultItems := defaultItems + [value];
      } else {
        digestItems := digestItems[key := (if key in digestItems then digestItems[key] else []) + [value]];
      }
    }

    method AddArray(key: string, values: seq<string>)
      modifies this
      ensures Value() == old(Value()).With(key, values)
    {
      if key == "" {
        defaultItems := defaultItems + values;
      } else {
        digestItems := digestItems[key := (if key in digestItems then digestItems[key] else []) + values];
      }
    }

    method Get(target: Target) returns (items: seq<string>)
      ensures items == Value().For(target)
    {
      if target.Unparsable? {
        return defaultItems;
      }
      var keys := [target.repository];
      if target.digest.Some? {
        keys := keys + [target.digest.value];
      }
      items := [];
      for i := 0 to |keys|
        invariant i == 0 ==> items == []
        invariant i == 1 ==> items == Value().Keyed(keys[0])
        invariant i == 2 ==> items == Value().Keyed(keys[0]) + Value().Keyed(keys[1])
      {
        items := items + (if keys[i] in digestItems then digestItems[keys[i]] else []);
      }
      Empty(Value().Keyed(target.repository));
      items := items + defaultItems;
    }
  }

  // ----- where the items come from -----

  /** Dates are missing if they are not given or cannot be parsed. */
  datatype VolatileCriterion = VolatileCriterion(value: string, effectiveOn: Option<int>, effectiveUntil: Option<int>,
                                                 imageRef: string, imageUrl: string, imageDigest: string) {
    predicate ActiveAt(at: int) {
      && (effectiveOn.Some? ==> effectiveOn.value <= at)
      && (effectiveUntil.Some? ==> at <= effectiveUntil.value)
    }

    function Key(): string {
      if imageRef != "" then imageRef else if imageUrl != "" then imageUrl else imageDigest
    }
  }

  datatype Lists = Lists(includes: seq<string>, excludes: seq<string>)
  datatype VolatileLists = VolatileLists(includes: seq<VolatileCriterion>, excludes: seq<VolatileCriterion>)
  datatype Configuration = Configuration(lists: Lists, collections: seq<string>)

  /** The values of the criteria with this key that are active at the given time, in order. */
  function ActiveValues(criteria: seq<VolatileCriterion>, at: int, key: string): seq<string> {
    if criteria == [] then []
    else
      var c := criteria[|criteria| - 1];
      ActiveValues(criteria[..|criteria| - 1], at, key)
      + (if c.ActiveAt(at) && c.Key() == key then [c.value] else [])
  }

  function Collected(items: Items, criteria: seq<VolatileCriterion>, at: int): Items {
    if criteria == [] then items
    else
      var c := criteria[|criteria| - 1];
      var before := Collected(items, criteria[..|criteria| - 1], at);
      if c.ActiveAt(at) then before.With(c.Key(), [c.value]) else before
  }

  /** Under every key the active values are appended in order, and nothing else changes. */
  lemma {:induction false} CollectedUnderKey(items: Items, criteria: seq<VolatileCriterion>, at: int, key: string)
    ensures Collected(items, criteria, at).At(key) == items.At(key) + ActiveValues(criteria, at, key)
  {
    if criteria == [] {
      Empty(items.At(key));
    } else {
      var c := criteria[|criteria| - 1];
      var init := criteria[..|criteria| - 1];
      CollectedUnderKey(items, init, at, key);
      if c.ActiveAt(at) && c.Key() == key {
        Assoc(items.At(key), ActiveValues(init, at, key), [c.value]);
      } else {
        Empty(ActiveValues(init, at, key));
      }
    }
  }

  method CollectVolatileConfigItems(items: Criteria, volatileCriteria: seq<VolatileCriterion>, at: int)
    modifies items
    ensures items.Value() == Collected(old(items.Value()), volatileCriteria, at)
  {
    for i := 0 to |volatileCriteria|
      invariant items.Value() == Collected(old(items.Value()), volatileCriteria[..i], at)
    {
      var c := volatileCriteria[i];
      assert volatileCriteria[..i + 1][..i] == volatileCriteria[..i];
      var from := if c.effectiveOn.Some? then c.effectiveOn.value else at;
      var until := if c.effectiveUntil.Some? then c.effectiveUntil.value else at;
      if until >= at && from <= at {
        if c.imageRef != "" {
          items.AddItem(c.imageRef, c.value);
        } else if c.imageUrl != "" {
          items.AddItem(c.imageUrl, c.value);
        } else if c.imageDigest != "" {
          items.AddItem(c.imageDigest, c.value);
        } else {
          items.AddItem("", c.value);
        }
      }
    }
    assert volatileCriteria[..|volatileCriteria|] == volatileCriteria;
  }

  /** The source's own items and its active volatile ones, before any fallback. */
  function OwnItems(listed: seq<string>, criteria: seq<VolatileCriterion>, at: int): Items {
    Collected(NO_ITEMS.With("", listed), criteria, at)
  }

  datatype Source = Source(lists: Lists, volatileLists: VolatileLists, configuration: Option<Configuration>) {
    function OwnIncludes(at: int): Items {
      OwnItems(lists.includes, volatileLists.includes, at)
    }

    function OwnExcludes(at: int): Items {
      OwnItems(lists.excludes, volatileLists.excludes, at)
    }

    /** Only a source without any items of its own uses the global configuration. */
    predicate UsesConfiguration(at: int) {
      OwnIncludes(at).IsEmpty() && OwnExcludes(at).IsEmpty() && configuration.Some?
    }

    function Excludes(at: int): Items {
      if UsesConfiguration(at) then OwnExcludes(at).With("", configuration.value.lists.excludes) else OwnExcludes(at)
    }

    function IncludesUnlessNone(at: int): Items {
      if UsesConfiguration(at)
      then OwnIncludes(at).With("", configuration.value.lists.includes + Prefixed(configuration.value.collections))
      else OwnIncludes(at)
    }

    function Includes(at: int): Items {
      if IncludesUnlessNone(at).IsEmpty() then IncludesUnlessNone(at).With("", ["*"]) else IncludesUnlessNone(at)
    }
  }

  /** A source without lists is one with empty lists. */
  method ComputeIncludeExclude(src: Source, at: int) returns (includes: Criteria, excludes: Criteria)
    ensures fresh(includes) && fresh(excludes) && includes != excludes
    ensures includes.Value() == src.Includes(at) && excludes.Value() == src.Excludes(at)
  {
    includes := new Criteria();
    excludes := new Criteria();
    if |src.lists.includes| != 0 || |src.lists.excludes| != 0 {
      includes.AddArray("", src.lists.includes);
      excludes.AddArray("", src.lists.excludes);
    }
    assert includes.Value() == NO_ITEMS.With("", src.lists.includes);
    assert excludes.Value() == NO_ITEMS.With("", src.lists.excludes);
    CollectVolatileConfigItems(includes, src.volatileLists.includes, at);
    CollectVolatileConfigItems(excludes, src.volatileLists.excludes, at);
    var includeLen := includes.Len();
    var excludeLen := excludes.Len();
    if includeLen == 0 && excludeLen == 0 && src.configuration.Some? {
      var policyConfig := src.configuration.value;
      includes.AddArray("", policyConfig.lists.includes);
      excludes.AddArray("", policyConfig.lists.excludes);
      ghost var before := includes.Value();
      for i := 0 to |policyConfig.collections|
        invariant includes.Value() == before.With("", Prefixed(policyConfig.collections)[..i])
        invariant excludes.Value() == src.Excludes(at)
      {
        Assoc(before.defaultItems, Prefixed(policyConfig.collections)[..i], ["@" + policyConfig.collections[i]]);
        includes.AddItem("", "@" + policyConfig.collections[i]);
        assert Prefixed(policyConfig.collections)[..i + 1]
               == Prefixed(policyConfig.collections)[..i] + ["@" + policyConfig.collections[i]];
      }
      assert Prefixed(policyConfig.collections)[..|policyConfig.collections|] == Prefixed(policyConfig.collections);
      Assoc(src.OwnIncludes(at).defaultItems, policyConfig.lists.includes, Prefixed(policyConfig.collections));
    }
    includeLen := includes.Len();
    if includeLen == 0 {
      includes.AddItem("", "*");
    }
  }

  // ----- what ends up applying to a target -----

  /** A parsed reference has a repository name, and a digest is not empty. */
  predicate Parsed(target: Target) {
    target.Image? ==> target.repository != "" && target.digest != Some("")
  }

  predicate AppliesTo(key: string, target: Target) {
    key == "" || (target.Image? && (key == target.repository || Some(key) == target.digest))
  }

  lemma {:induction false} InActiveValues(criteria: seq<VolatileCriterion>, at: int, key: string)
    ensures forall value :: value in ActiveValues(criteria, at, key)
                            <==> exists c | c in criteria :: c.ActiveAt(at) && c.Key() == key && c.value == value
  {
    if criteria != [] {
      var init, last := criteria[..|criteria| - 1], criteria[|criteria| - 1];
      InActiveValues(init, at, key);
      assert forall c :: c in criteria <==> c in init || c == last;
    }
  }

  lemma OwnItemsUnderKey(listed: seq<string>, criteria: seq<VolatileCriterion>, at: int, key: string)
    ensures OwnItems(listed, criteria, at).At(key)
            == (if key == "" then listed else []) + ActiveValues(criteria, at, key)
  {
    CollectedUnderKey(NO_ITEMS.With("", listed), criteria, at, key);
    Empty(listed);
  }

  /** An item applies to a target if and only if it is listed, or is the value of an active
      criterion without an image or for that very repository or digest. */
  lemma OwnItemsFor(listed: seq<string>, criteria: seq<VolatileCriterion>, at: int, target: Target, value: string)
    requires Parsed(target)
    ensures value in OwnItems(listed, criteria, at).For(target)
            <==> value in listed
                 || exists c | c in criteria :: c.ActiveAt(at) && AppliesTo(c.Key(), target) && c.value == value
  {
    OwnItemsUnderKey(listed, criteria, at, "");
    InActiveValues(criteria, at, "");
    if target.Image? {
      OwnItemsUnderKey(listed, criteria, at, target.repository);
      InActiveValues(criteria, at, target.repository);
      if target.digest.Some? {
        OwnItemsUnderKey(listed, criteria, at, target.digest.value);
        InActiveValues(criteria, at, target.digest.value);
      }
    }
  }

  /** The source's own items are empty exactly if nothing is listed and nothing is active. */
  lemma OwnItemsEmpty(listed: seq<string>, criteria: seq<VolatileCriterion>, at: int)
    ensures OwnItems(listed, criteria, at).IsEmpty()
            <==> listed == [] && forall c | c in criteria :: !c.ActiveAt(at)
  {
    var items := OwnItems(listed, criteria, at);
    OwnItemsUnderKey(listed, criteria, at, "");
    NoEmptyKey(NO_ITEMS.With("", listed), criteria, at);
    if listed == [] && forall c | c in criteria :: !c.ActiveAt(at) {
      InActiveValues(criteria, at, "");
      NoneIn(ActiveValues(criteria, at, ""));
      forall key | key in items.digestItems ensures items.digestItems[key] == [] {
        OwnItemsUnderKey(listed, criteria, at, key);
        InActiveValues(criteria, at, key);
        NoneIn(ActiveValues(criteria, at, key));
      }
    }
    if c :| c in criteria && c.ActiveAt(at) {
      OwnItemsUnderKey(listed, criteria, at, c.Key());
      InActiveValues(criteria, at, c.Key());
      assert c.value in ActiveValues(criteria, at, c.Key());
      assert items.At(c.Key()) != [];
    }
  }

  lemma NoneIn(s: seq<string>)
    ensures s == [] || exists value :: value in s
  {
    if s != [] {
      assert s[0] in s;
    }
  }

  lemma {:induction false} NoEmptyKey(items: Items, criteria: seq<VolatileCriterion>, at: int)
    requires "" !in items.digestItems
    ensures "" !in Collected(items, criteria, at).digestItems
  {
    if criteria != [] {
      NoEmptyKey(items, criteria[..|criteria| - 1], at);
    }
  }

  /** The include list is never empty as a whole, but it is empty for a target if and only if
      nothing is listed, some volatile include is active, and none of those applies to the target. */
  lemma NothingIncludedFor(src: Source, at: int, target: Target)
    requires Parsed(target)
    ensures !src.Includes(at).IsEmpty()
    ensures src.Includes(at).For(target) == []
            <==> && src.lists.includes == []
                 && (exists c :: c in src.volatileLists.includes && c.ActiveAt(at))
                 && (forall c | c in src.volatileLists.includes && c.ActiveAt(at) :: !AppliesTo(c.Key(), target))
  {
    var listed, criteria := src.lists.includes, src.volatileLists.includes;
    var own := src.OwnIncludes(at);
    OwnItemsEmpty(listed, criteria, at);
    if own.IsEmpty() {
      assert src.Includes(at).defaultItems != [];
    } else {
      assert src.Includes(at) == own;
      if own.For(target) == [] {
        forall value ensures value !in listed {
          OwnItemsFor(listed, criteria, at, target, value);
        }
        forall c | c in criteria && c.ActiveAt(at) ensures !AppliesTo(c.Key(), target) {
          OwnItemsFor(listed, criteria, at, target, c.value);
        }
        NoneIn(listed);
      } else {
        OwnItemsFor(listed, criteria, at, target, own.For(target)[0]);
        assert own.For(target)[0] in own.For(target);
      }
    }
  }

  // ----- in terms of the source's fields -----

  /** Between its dates, as far as it has any. */
  predicate InForce(c: VolatileCriterion, at: int) {
    && (c.effectiveOn == None || c.effectiveOn.value <= at)
    && (c.effectiveUntil == None || at <= c.effectiveUntil.value)
  }

  /** For every image or, by the first of its image reference, URL and digest that is given, for the
      target's repository or digest. */
  predicate Concerns(c: VolatileCriterion, target: Target) {
    if c.imageRef != "" then NamesTarget(c.imageRef, target)
    else if c.imageUrl != "" then NamesTarget(c.imageUrl, target)
    else c.imageDigest != "" ==> NamesTarget(c.imageDigest, target)
  }

  predicate NamesTarget(key: string, target: Target) {
    match target
    case Unparsable => false
    case Image(repository, digest) => key == repository || digest == Some(key)
  }

  ghost predicate ListedOrInForce(value: string, listed: seq<string>, criteria: seq<VolatileCriterion>, at: int, target: Target) {
    value in listed || exists c :: c in criteria && InForce(c, at) && Concerns(c, target) && c.value == value
  }

  lemma OwnItemsByFields(listed: seq<string>, criteria: seq<VolatileCriterion>, at: int, target: Target, value: string)
    requires Parsed(target)
    ensures value in OwnItems(listed, criteria, at).For(target) <==> ListedOrInForce(value, listed, criteria, at, target)
  {
    OwnItemsFor(listed, criteria, at, target, value);
    assert forall c: VolatileCriterion :: c.ActiveAt(at) == InForce(c, at) && AppliesTo(c.Key(), target) == Concerns(c, target);
  }

  ghost predicate NoItems(listed: seq<string>, criteria: seq<VolatileCriterion>, at: int) {
    listed == [] && forall c | c in criteria :: !InForce(c, at)
  }

  lemma OwnItemsEmptyByFields(listed: seq<string>, criteria: seq<VolatileCriterion>, at: int)
    ensures OwnItems(listed, criteria, at).IsEmpty() <==> NoItems(listed, criteria, at)
  {
    OwnItemsEmpty(listed, criteria, at);
    assert forall c: VolatileCriterion :: c.ActiveAt(at) == InForce(c, at);
  }

  /** Only a source without any include or exclude of its own takes them from the configuration. */
  ghost predicate FallsBack(src: Source, at: int) {
    && NoItems(src.lists.includes, src.volatileLists.includes, at)
    && NoItems(src.lists.excludes, src.volatileLists.excludes, at)
    && src.configuration != None
  }

  lemma EmptyForNobody(items: Items, target: Target)
    requires items.IsEmpty()
    ensures items.For(target) == []
  {
  }

  /** What is excluded for a target: the source's own excludes for it or, failing those, the configuration's. */
  lemma ExcludedForIff(src: Source, at: int, target: Target, value: string)
    requires Parsed(target)
    ensures value in src.Excludes(at).For(target)
            <==> if FallsBack(src, at) then value in src.configuration.value.lists.excludes
                 else ListedOrInForce(value, src.lists.excludes, src.volatileLists.excludes, at, target)
  {
    OwnItemsEmptyByFields(src.lists.includes, src.volatileLists.includes, at);
    OwnItemsEmptyByFields(src.lists.excludes, src.volatileLists.excludes, at);
    OwnItemsByFields(src.lists.excludes, src.volatileLists.excludes, at, target, value);
    if FallsBack(src, at) {
      EmptyForNobody(src.OwnExcludes(at), target);
    }
  }

  /** The includes and, behind an "@", the collections of the configuration. */
  ghost predicate Configured(value: string, c: Configuration) {
    value in c.lists.includes || exists name :: name in c.collections && value == "@" + name
  }

  lemma InPrefixed(names: seq<string>, value: string)
    ensures value in Prefixed(names) <==> exists name :: name in names && value == "@" + name
  {
    if name :| name in names && value == "@" + name {
      var i :| 0 <= i < |names| && names[i] == name;
      assert Prefixed(names)[i] == value;
    }
  }

  /** What is included for a target: the source's own includes for it or, failing those, the
      configuration's or, if there are none either, everything. */
  lemma IncludedForIff(src: Source, at: int, target: Target, value: string)
    requires Parsed(target)
    ensures value in src.Includes(at).For(target)
            <==> if FallsBack(src, at)
                 then (if src.configuration.value.lists.includes == [] && src.configuration.value.collections == []
                       then value == "*" else Configured(value, src.configuration.value))
                 else if NoItems(src.lists.includes, src.volatileLists.includes, at) then value == "*"
                 else ListedOrInForce(value, src.lists.includes, src.volatileLists.includes, at, target)
  {
    OwnItemsEmptyByFields(src.lists.includes, src.volatileLists.includes, at);
    OwnItemsEmptyByFields(src.lists.excludes, src.volatileLists.excludes, at);
    OwnItemsByFields(src.lists.includes, src.volatileLists.includes, at, target, value);
    if FallsBack(src, at) {
      InPrefixed(src.configuration.value.collections, value);
      EmptyForNobody(src.OwnIncludes(at), target);
    } else if src.OwnIncludes(at).IsEmpty() {
      EmptyForNobody(src.OwnIncludes(at), target);
    }
  }

  /** For a target with a digest: what is for its repository, then for its digest, then for every
      image, each as listed or in the order of the criteria. */
  lemma OwnItemsInOrder(listed: seq<string>, criteria: seq<VolatileCriterion>, at: int, repository: string, digest: string)
    requires repository != "" && digest != ""
    ensures OwnItems(listed, criteria, at).For(Image(repository, Some(digest)))
            == ActiveValues(criteria, at, repository) + ActiveValues(criteria, at, digest) + (listed + ActiveValues(criteria, at, ""))
  {
    OwnItemsUnderKey(listed, criteria, at, repository);
    OwnItemsUnderKey(listed, criteria, at, digest);
    OwnItemsUnderKey(listed, criteria, at, "");
    Empty(ActiveValues(criteria, at, repository));
    Empty(ActiveValues(criteria, at, digest));
  }
}
