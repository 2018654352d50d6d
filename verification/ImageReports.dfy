/** What an expanded snapshot contains, and what comes back of a report for a target, in so many words. */
module ImageReports {
  import opened Wrappers
  import opened Sequences
  import opened SnapshotMerge
  import opened IndexExpansion

  // ----- the components of an expansion -----

  /** The component of a manifest: named after its index's component, its digest and architecture, with
      the image of that digest in the index's repository. */
  ghost predicate IsPlatform(own: Component, l: Lookup, j: nat, c: Component) {
    && l.Index? && j < |l.manifests|
    && c.name == own.name + "-" + l.manifests[j].digest + "-" + l.manifests[j].arch
    && c.containerImage == l.repository + "@" + l.manifests[j].digest
    && c.source == own.source
  }

  lemma ArchesIff(sys: System, own: Component, l: Lookup, c: Component)
    ensures c in sys.Arches(own, l) <==> exists j: nat :: IsPlatform(own, l, j, c)
  {
    if j: nat :| IsPlatform(own, l, j, c) {
      assert sys.Arches(own, l)[j] == c;
    }
    if c in sys.Arches(own, l) {
      var j: nat :| j < |l.manifests| && sys.Arches(own, l)[j] == c;
      assert IsPlatform(own, l, j, c);
    }
  }

  ghost predicate GivenOrPlatform(sys: System, w: nat, c: Component)
    requires w < |sys.components| == |sys.lookups|
  {
    c == sys.components[w] || exists j: nat :: IsPlatform(sys.components[w], sys.lookups[w], j, c)
  }

  lemma ExpandedIff(sys: System, w: nat, c: Component)
    requires w < |sys.components| == |sys.lookups|
    ensures c in sys.Expanded(w) <==> GivenOrPlatform(sys, w, c)
  {
    ArchesIff(sys, sys.components[w], sys.lookups[w], c);
  }

  /** When all workers have finished the components are the given ones, and one for each manifest of
      those that are indexes. */
  lemma ComponentsIff(sys: System, states: seq<State>, sorted: seq<Component>, c: Component)
    requires |sys.components| == |sys.lookups|
    requires sys.Behaviour(states) && sys.Finished(states[|states| - 1])
    requires multiset(sorted) == multiset(sys.Collected(states[|states| - 1].sent))
    ensures c in sorted <==> exists w: nat :: w < |sys.components| && GivenOrPlatform(sys, w, c)
  {
    assert c in sorted <==> c in multiset(sorted);
    assert c in sys.Collected(states[|states| - 1].sent) <==> c in multiset(sys.Collected(states[|states| - 1].sent));
    sys.FinishedCollected(states, c);
    forall w: nat | w < |sys.components| ensures c in sys.Expanded(w) <==> GivenOrPlatform(sys, w, c) {
      ExpandedIff(sys, w, c);
    }
  }

  function PlatformCount(own: Component, l: Lookup, c: Component, n: nat): nat
    requires l.Index? && n <= |l.manifests|
  {
    if n == 0 then 0
    else
      var m := l.manifests[n - 1];
      PlatformCount(own, l, c, n - 1)
      + (if c == Component(own.name + "-" + m.digest + "-" + m.arch, l.repository + "@" + m.digest, own.source) then 1 else 0)
  }

  /** How often the component is the given one or one of its manifests'. */
  function OwnCount(own: Component, l: Lookup, c: Component): nat {
    (if c == own then 1 else 0) + (if l.Index? then PlatformCount(own, l, c, |l.manifests|) else 0)
  }

  /** How often it is among the first `n` given ones and their manifests. */
  function ComponentCount(sys: System, c: Component, n: nat): nat
    requires n <= |sys.components| == |sys.lookups|
  {
    if n == 0 then 0 else ComponentCount(sys, c, n - 1) + OwnCount(sys.components[n - 1], sys.lookups[n - 1], c)
  }

  lemma {:induction false} PlatformsCounted(sys: System, own: Component, l: Lookup, c: Component, n: nat)
    requires l.Index? && n <= |l.manifests|
    ensures multiset(sys.Arches(own, l)[..n])[c] == PlatformCount(own, l, c, n)
  {
    if n > 0 {
      PlatformsCounted(sys, own, l, c, n - 1);
      assert sys.Arches(own, l)[..n] == sys.Arches(own, l)[..n - 1] + [sys.Arches(own, l)[n - 1]];
      ConcatMultiplicity(sys.Arches(own, l)[..n - 1], [sys.Arches(own, l)[n - 1]], c);
    }
  }

  lemma ExpandedCounted(sys: System, w: nat, c: Component)
    requires w < |sys.components| == |sys.lookups|
    ensures multiset(sys.Expanded(w))[c] == OwnCount(sys.components[w], sys.lookups[w], c)
  {
    var own, l := sys.components[w], sys.lookups[w];
    ConcatMultiplicity([own], sys.Arches(own, l), c);
    if l.Index? {
      PlatformsCounted(sys, own, l, c, |l.manifests|);
      assert sys.Arches(own, l)[..|l.manifests|] == sys.Arches(own, l);
    }
  }

  /** How often it is among what these workers send. */
  function CountAll(sys: System, c: Component, workers: seq<nat>): nat
    requires |sys.components| == |sys.lookups|
  {
    if workers == [] then 0
    else
      (if workers[0] < |sys.lookups| then OwnCount(sys.components[workers[0]], sys.lookups[workers[0]], c) else 0)
      + CountAll(sys, c, workers[1..])
  }

  lemma {:induction false} CollectedCounted(sys: System, c: Component, workers: seq<nat>)
    requires |sys.components| == |sys.lookups|
    ensures multiset(sys.Collected(workers))[c] == CountAll(sys, c, workers)
    decreases |workers|
  {
    if workers != [] {
      CollectedCounted(sys, c, workers[1..]);
      if workers[0] < |sys.lookups| {
        ExpandedCounted(sys, workers[0], c);
        ConcatMultiplicity(sys.Expanded(workers[0]), sys.Collected(workers[1..]), c);
      } else {
        Empty(sys.Collected(workers[1..]));
      }
    }
  }

  lemma {:induction false} CountAllOfOneMore(sys: System, c: Component, workers: seq<nat>, w: nat)
    requires w < |sys.components| == |sys.lookups|
    ensures CountAll(sys, c, workers + [w]) == CountAll(sys, c, workers) + OwnCount(sys.components[w], sys.lookups[w], c)
    decreases |workers|
  {
    if workers == [] {
      Empty([w]);
      assert [w][1..] == [];
    } else {
      ConcatTail(workers, [w]);
      CountAllOfOneMore(sys, c, workers[1..], w);
    }
  }

  lemma {:induction false} CountAllInOrder(sys: System, c: Component, n: nat)
    requires n <= |sys.components| == |sys.lookups|
    ensures CountAll(sys, c, seq(n, w => w)) == ComponentCount(sys, c, n)
    decreases n
  {
    if n > 0 {
      CountAllInOrder(sys, c, n - 1);
      assert seq(n, w => w) == seq(n - 1, w => w) + [n - 1];
      CountAllOfOneMore(sys, c, seq(n - 1, w => w), n - 1);
    }
  }

  /** And each of them as often as it was given and as there are such manifests. */
  lemma ComponentsCounted(sys: System, states: seq<State>, sorted: seq<Component>, c: Component)
    requires |sys.components| == |sys.lookups|
    requires sys.Behaviour(states) && sys.Finished(states[|states| - 1])
    requires multiset(sorted) == multiset(sys.Collected(states[|states| - 1].sent))
    ensures multiset(sorted)[c] == ComponentCount(sys, c, |sys.components|)
  {
    sys.ExpandedComponents(states, sorted);
    CollectedCounted(sys, c, seq(|sys.lookups|, w => w));
    CountAllInOrder(sys, c, |sys.lookups|);
  }

  /** When all workers have finished, each manifest is below its index, and below some index that has
      it, and the reference of an index is an alias. */
  lemma LinksWritten(sys: System, states: seq<State>, w: nat, j: nat)
    requires sys.Behaviour(states) && sys.Finished(states[|states| - 1])
    requires w < |sys.lookups| && sys.lookups[w].Index? && j < |sys.lookups[w].manifests|
    ensures var l, exp := sys.lookups[w], states[|states| - 1].exp;
            var index, child := l.repository + "@" + l.digest, l.repository + "@" + l.manifests[j].digest;
            && index in exp.childrenByIndex && child in exp.childrenByIndex[index]
            && child in exp.parentByChild
            && exp.parentByChild[child] in exp.childrenByIndex && child in exp.childrenByIndex[exp.parentByChild[child]]
            && l.reference in exp.indexAliases
  {
    var last := states[|states| - 1];
    sys.BehaviourInv(states, |states| - 1);
    sys.AllWritten(last, w);
    assert sys.WroteAlias(last, w) && sys.WroteChild(last, w, j) && sys.WroteParent(last, w, j);
    sys.ParentsHaveChildren(states, |states| - 1, sys.lookups[w].Child(j));
  }

  // ----- what comes back for a target -----

  /** For a target that is no index, exactly the components with that image, in order. */
  lemma PlainTarget(report: Report, target: string)
    requires report.expansion.None?
             || (target !in report.expansion.value.indexAliases && target !in report.expansion.value.childrenByIndex)
    ensures ForTargetRef(report, target) == Filter(report.components, (c: Component) => c.containerImage == target)
  {
    FilterAgrees(report.components, (c: Component) => c.containerImage in IncludedRefs(target, report.expansion),
                 (c: Component) => c.containerImage == target);
  }

  /** For the pinned reference of an index, its own and its children's. */
  lemma PinnedTarget(report: Report, target: string)
    requires report.expansion.Some?
    requires target !in report.expansion.value.indexAliases && target in report.expansion.value.childrenByIndex
    ensures var children := report.expansion.value.childrenByIndex[target];
            ForTargetRef(report, target)
            == Filter(report.components, (c: Component) => c.containerImage == target || c.containerImage in children)
  {
    var children := report.expansion.value.childrenByIndex[target];
    FilterAgrees(report.components, (c: Component) => c.containerImage in IncludedRefs(target, report.expansion),
                 (c: Component) => c.containerImage == target || c.containerImage in children);
  }

  /** For an alias, what comes back for the pinned reference it stands for, if that is no alias too. */
  lemma AliasTarget(report: Report, target: string)
    requires report.expansion.Some? && target in report.expansion.value.indexAliases
    requires report.expansion.value.indexAliases[target] !in report.expansion.value.indexAliases
    ensures ForTargetRef(report, target) == ForTargetRef(report, report.expansion.value.indexAliases[target])
  {
    var pinned := report.expansion.value.indexAliases[target];
    FilterAgrees(report.components, (c: Component) => c.containerImage in IncludedRefs(target, report.expansion),
                 (c: Component) => c.containerImage in IncludedRefs(pinned, report.expansion));
  }
}
