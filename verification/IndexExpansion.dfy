/** Expanding image indexes into their manifests, by workers that share the bookkeeping, and
    filtering a report by an index. Writes to the shared maps are taken to be atomic. */
module IndexExpansion {
  import opened Wrappers
  import opened Sequences
  import opened SnapshotMerge

  /** `arch` is the architecture or, if it is not known, made from the position in the index. */
  datatype Manifest = Manifest(digest: string, arch: string)

  /** What a worker finds out about its component: the full reference, the repository and digest,
      and the manifests if it is an index. Anything that fails leaves the component as it is. */
  datatype Lookup = NotIndex
                  | Index(reference: string, repository: string, digest: string, manifests: seq<Manifest>)
  {
    function Pinned(): string
      requires Index?
    {
      repository + "@" + digest
    }

    function Child(j: nat): string
      requires Index? && j < |manifests|
    {
      repository + "@" + manifests[j].digest
    }

    /** The alias, and for each manifest an entry below its index and one for its index. */
    function Writes(): nat {
      if NotIndex? then 0 else 1 + 2 * |manifests|
    }
  }

  /** A child list that is not there is empty. */
  datatype ExpansionInfo = ExpansionInfo(childrenByIndex: map<string, seq<string>>, parentByChild: map<string, string>,
                                         indexAliases: map<string, string>) {
    function Children(index: string): seq<string> {
      if index in childrenByIndex then childrenByIndex[index] else []
    }
  }

  const NO_EXPANSION := ExpansionInfo(map[], map[], map[])

  /** `written` counts the writes of each worker, `sent` lists the workers that have sent their
      components, in order. */
  datatype State = State(exp: ExpansionInfo, written: seq<nat>, sent: seq<nat>)

  datatype Step = Write(w: nat) | Send(w: nat)

  datatype System = System(components: seq<Component>, lookups: seq<Lookup>) {
    function Init(): State {
      State(NO_EXPANSION, seq(|lookups|, _ => 0), [])
    }

    predicate Enabled(s: State, step: Step) {
      && step.w < |lookups| == |s.written|
      && match step
         case Write(w) => s.written[w] < lookups[w].Writes()
         case Send(w) => s.written[w] == lookups[w].Writes() && w !in s.sent
    }

    function Next(s: State, step: Step): State
      requires Enabled(s, step)
    {
      match step
      case Write(w) =>
        s.(exp := AfterWrite(s.exp, lookups[w], s.written[w]), written := s.written[w := s.written[w] + 1])
      case Send(w) =>
        s.(sent := s.sent + [w])
    }

    function AfterWrite(exp: ExpansionInfo, l: Lookup, k: nat): ExpansionInfo
      requires k < l.Writes()
    {
      if k == 0 then exp.(indexAliases := exp.indexAliases[l.reference := l.Pinned()])
      else
        var child := l.Child((k - 1) / 2);
        if k % 2 == 1
        then exp.(childrenByIndex := exp.childrenByIndex[l.Pinned() := exp.Children(l.Pinned()) + [child]])
        else exp.(parentByChild := exp.parentByChild[child := l.Pinned()])
    }

    // ----- what has been written -----

    /** Whether worker `w` has written the alias, put its `j`-th manifest below its index, or noted
        the index of that manifest. */
    predicate WroteAlias(s: State, w: nat) {
      w < |lookups| == |s.written| && lookups[w].Index? && s.written[w] > 0
    }

    predicate WroteChild(s: State, w: nat, j: nat) {
      w < |lookups| == |s.written| && lookups[w].Index? && j < |lookups[w].manifests| && s.written[w] > 2 * j + 1
    }

    predicate WroteParent(s: State, w: nat, j: nat) {
      w < |lookups| == |s.written| && lookups[w].Index? && j < |lookups[w].manifests| && s.written[w] > 2 * j + 2
    }

    ghost predicate AliasesOk(s: State) {
      && (forall r | r in s.exp.indexAliases ::
            exists w: nat :: WroteAlias(s, w) && lookups[w].reference == r && s.exp.indexAliases[r] == lookups[w].Pinned())
      && (forall w: nat | WroteAlias(s, w) :: lookups[w].reference in s.exp.indexAliases)
    }

    ghost predicate ChildrenOk(s: State) {
      && (forall p, c | c in s.exp.Children(p) ::
            exists w: nat, j: nat :: WroteChild(s, w, j) && lookups[w].Pinned() == p && lookups[w].Child(j) == c)
      && (forall w: nat, j: nat | WroteChild(s, w, j) :: lookups[w].Child(j) in s.exp.Children(lookups[w].Pinned()))
      && (forall p | p in s.exp.childrenByIndex :: s.exp.childrenByIndex[p] != [])
    }

    ghost predicate ParentsOk(s: State) {
      && (forall c | c in s.exp.parentByChild ::
            exists w: nat, j: nat :: WroteParent(s, w, j) && lookups[w].Child(j) == c && s.exp.parentByChild[c] == lookups[w].Pinned())
      && (forall w: nat, j: nat | WroteParent(s, w, j) :: lookups[w].Child(j) in s.exp.parentByChild)
    }

    ghost predicate SentOk(s: State) {
      && (forall k | 0 <= k < |s.sent| :: s.sent[k] < |lookups| == |s.written| && s.written[s.sent[k]] == lookups[s.sent[k]].Writes())
      && (forall j, k | 0 <= j < k < |s.sent| :: s.sent[j] != s.sent[k])
    }

    ghost predicate Inv(s: State) {
      && |lookups| == |s.written|
      && (forall w | 0 <= w < |lookups| :: s.written[w] <= lookups[w].Writes())
      && AliasesOk(s) && ChildrenOk(s) && ParentsOk(s) && SentOk(s)
    }

    lemma InitInv()
      ensures Inv(Init())
    {
      var s := Init();
      assert forall w: nat | w < |lookups| :: s.written[w] == 0;
    }

    /** One more write is the alias, a child, or a parent, and nothing that was written is undone. */
    lemma WhatIsWritten(s: State, w: nat)
      requires Inv(s) && Enabled(s, Write(w))
      ensures var k, s' := s.written[w], Next(s, Write(w));
              && (forall v: nat :: WroteAlias(s', v) <==> WroteAlias(s, v) || (v == w && k == 0))
              && (forall v: nat, j: nat :: WroteChild(s', v, j) <==> WroteChild(s, v, j) || (v == w && k == 2 * j + 1))
              && (forall v: nat, j: nat :: WroteParent(s', v, j) <==> WroteParent(s, v, j) || (v == w && k == 2 * j + 2))
    {
    }

    lemma NextAliases(s: State, w: nat)
      requires Inv(s) && Enabled(s, Write(w))
      ensures AliasesOk(Next(s, Write(w)))
    {
      var s' := Next(s, Write(w));
      WhatIsWritten(s, w);
      forall r | r in s'.exp.indexAliases
        ensures exists v: nat :: WroteAlias(s', v) && lookups[v].reference == r && s'.exp.indexAliases[r] == lookups[v].Pinned()
      {
        if s.written[w] == 0 && r == lookups[w].reference {
          assert WroteAlias(s', w);
        } else {
          var v: nat :| WroteAlias(s, v) && lookups[v].reference == r && s.exp.indexAliases[r] == lookups[v].Pinned();
          assert WroteAlias(s', v);
        }
      }
    }

    lemma NextChildren(s: State, w: nat)
      requires Inv(s) && Enabled(s, Write(w))
      ensures ChildrenOk(Next(s, Write(w)))
    {
      var s' := Next(s, Write(w));
      WhatIsWritten(s, w);
      var k := s.written[w];
      if k % 2 == 0 {
        SameChildren(s, s');
      } else {
        var i := (k - 1) / 2;
        assert k == 2 * i + 1;
        OneMoreChild(s, s', w, i);
      }
    }

    lemma SameChildren(s: State, s': State)
      requires ChildrenOk(s) && s'.exp.childrenByIndex == s.exp.childrenByIndex
      requires forall v: nat, j: nat :: WroteChild(s', v, j) <==> WroteChild(s, v, j)
      ensures ChildrenOk(s')
    {
      assert forall p :: s'.exp.Children(p) == s.exp.Children(p);
      forall p, c | c in s'.exp.Children(p)
        ensures exists v: nat, j: nat :: WroteChild(s', v, j) && lookups[v].Pinned() == p && lookups[v].Child(j) == c
      {
        var v: nat, j: nat :| WroteChild(s, v, j) && lookups[v].Pinned() == p && lookups[v].Child(j) == c;
        assert WroteChild(s', v, j);
      }
    }

    lemma OneMoreChild(s: State, s': State, w: nat, i: nat)
      requires ChildrenOk(s) && WroteChild(s', w, i)
      requires var p := lookups[w].Pinned();
               s'.exp.childrenByIndex == s.exp.childrenByIndex[p := s.exp.Children(p) + [lookups[w].Child(i)]]
      requires forall v: nat, j: nat :: WroteChild(s', v, j) <==> WroteChild(s, v, j) || (v == w && j == i)
      ensures ChildrenOk(s')
    {
      var own := lookups[w].Pinned();
      assert forall p :: s'.exp.Children(p) == if p == own then s.exp.Children(p) + [lookups[w].Child(i)] else s.exp.Children(p);
      forall p, c | c in s'.exp.Children(p)
        ensures exists v: nat, j: nat :: WroteChild(s', v, j) && lookups[v].Pinned() == p && lookups[v].Child(j) == c
      {
        if c in s.exp.Children(p) {
          var v: nat, j: nat :| WroteChild(s, v, j) && lookups[v].Pinned() == p && lookups[v].Child(j) == c;
          assert WroteChild(s', v, j);
        }
      }
    }

    lemma NextParents(s: State, w: nat)
      requires Inv(s) && Enabled(s, Write(w))
      ensures ParentsOk(Next(s, Write(w)))
    {
      var s' := Next(s, Write(w));
      WhatIsWritten(s, w);
      var k := s.written[w];
      if k == 0 || k % 2 == 1 {
        SameParents(s, s');
      } else {
        var i := (k - 1) / 2;
        assert k == 2 * i + 2;
        OneMoreParent(s, s', w, i);
      }
    }

    lemma SameParents(s: State, s': State)
      requires ParentsOk(s) && s'.exp.parentByChild == s.exp.parentByChild
      requires forall v: nat, j: nat :: WroteParent(s', v, j) <==> WroteParent(s, v, j)
      ensures ParentsOk(s')
    {
      forall c | c in s'.exp.parentByChild
        ensures exists v: nat, j: nat :: WroteParent(s', v, j) && lookups[v].Child(j) == c
                                         && s'.exp.parentByChild[c] == lookups[v].Pinned()
      {
        var v: nat, j: nat :| WroteParent(s, v, j) && lookups[v].Child(j) == c
                              && s.exp.parentByChild[c] == lookups[v].Pinned();
        assert WroteParent(s', v, j);
      }
    }

    lemma OneMoreParent(s: State, s': State, w: nat, i: nat)
      requires ParentsOk(s) && WroteParent(s', w, i)
      requires s'.exp.parentByChild == s.exp.parentByChild[lookups[w].Child(i) := lookups[w].Pinned()]
      requires forall v: nat, j: nat :: WroteParent(s', v, j) <==> WroteParent(s, v, j) || (v == w && j == i)
      ensures ParentsOk(s')
    {
      forall c | c in s'.exp.parentByChild
        ensures exists v: nat, j: nat :: WroteParent(s', v, j) && lookups[v].Child(j) == c
                                         && s'.exp.parentByChild[c] == lookups[v].Pinned()
      {
        if c != lookups[w].Child(i) {
          var v: nat, j: nat :| WroteParent(s, v, j) && lookups[v].Child(j) == c
                                && s.exp.parentByChild[c] == lookups[v].Pinned();
          assert WroteParent(s', v, j);
        }
      }
    }

    lemma NextInv(s: State, step: Step)
      requires Inv(s) && Enabled(s, step)
      ensures Inv(Next(s, step))
    {
      match step {
        case Write(w) =>
          NextAliases(s, w);
          NextChildren(s, w);
          NextParents(s, w);
        case Send(w) =>
          SendKeeps(s, w);
      }
    }

    lemma SendKeeps(s: State, w: nat)
      requires Inv(s) && Enabled(s, Send(w))
      ensures Inv(Next(s, Send(w)))
    {
      var s' := Next(s, Send(w));
      assert forall v: nat :: WroteAlias(s', v) == WroteAlias(s, v);
      assert forall v: nat, j: nat :: WroteChild(s', v, j) == WroteChild(s, v, j) && WroteParent(s', v, j) == WroteParent(s, v, j);
    }

    // ----- whole runs, under any interleaving -----

    ghost predicate Behaviour(states: seq<State>) {
      && states != [] && states[0] == Init()
      && forall k | 0 <= k < |states| - 1 :: exists step :: Enabled(states[k], step) && states[k + 1] == Next(states[k], step)
    }

    lemma {:induction false} BehaviourInv(states: seq<State>, k: nat)
      requires Behaviour(states) && k < |states|
      ensures Inv(states[k])
    {
      if k == 0 {
        InitInv();
      } else {
        BehaviourInv(states, k - 1);
        var step :| Enabled(states[k - 1], step) && states[k - 1 + 1] == Next(states[k - 1], step);
        NextInv(states[k - 1], step);
      }
    }

    /** In every state of every run, whatever has a parent is among that parent's children. */
    lemma ParentsHaveChildren(states: seq<State>, k: nat, c: string)
      requires Behaviour(states) && k < |states| && c in states[k].exp.parentByChild
      ensures c in states[k].exp.Children(states[k].exp.parentByChild[c])
    {
      BehaviourInv(states, k);
      var w: nat, j: nat :| WroteParent(states[k], w, j) && lookups[w].Child(j) == c
                            && states[k].exp.parentByChild[c] == lookups[w].Pinned();
      assert WroteChild(states[k], w, j);
    }

    predicate Finished(s: State) {
      forall w | 0 <= w < |lookups| :: w in s.sent
    }

    /** When all workers have finished, every child has a parent. */
    lemma ChildrenHaveParents(states: seq<State>, p: string, c: string)
      requires Behaviour(states) && Finished(states[|states| - 1])
      requires c in states[|states| - 1].exp.Children(p)
      ensures c in states[|states| - 1].exp.parentByChild
    {
      var last := states[|states| - 1];
      BehaviourInv(states, |states| - 1);
      var w: nat, j: nat :| WroteChild(last, w, j) && lookups[w].Pinned() == p && lookups[w].Child(j) == c;
      AllWritten(last, w);
      assert WroteParent(last, w, j);
    }

    lemma AllWritten(s: State, w: nat)
      requires Inv(s) && Finished(s) && w < |lookups|
      ensures s.written[w] == lookups[w].Writes()
    {
      assert w in s.sent;
      var k :| 0 <= k < |s.sent| && s.sent[k] == w;
    }

    // ----- the order of an index's children -----

    ghost predicate Sole(w: nat) {
      && w < |lookups| && lookups[w].Index?
      && forall v | 0 <= v < |lookups| && lookups[v].Index? && lookups[v].Pinned() == lookups[w].Pinned() :: v == w
    }

    function ChildrenSoFar(w: nat, n: nat): seq<string>
      requires w < |lookups| && lookups[w].Index? && n <= |lookups[w].manifests|
    {
      seq(n, j requires 0 <= j < n => lookups[w].Child(j))
    }

    ghost predicate InOrder(s: State, w: nat)
      requires Sole(w) && |s.written| == |lookups| && s.written[w] <= lookups[w].Writes()
    {
      s.exp.Children(lookups[w].Pinned()) == ChildrenSoFar(w, s.written[w] / 2)
    }

    lemma OwnWriteInOrder(s: State, w: nat)
      requires |s.written| == |lookups| && Enabled(s, Write(w)) && Sole(w) && InOrder(s, w)
      ensures InOrder(Next(s, Write(w)), w)
    {
      var k := s.written[w];
      if k % 2 == 1 {
        assert (k - 1) / 2 == k / 2 && (k + 1) / 2 == k / 2 + 1;
        assert ChildrenSoFar(w, k / 2 + 1) == ChildrenSoFar(w, k / 2) + [lookups[w].Child(k / 2)];
      } else {
        assert (k + 1) / 2 == k / 2;
      }
    }

    lemma OtherWriteInOrder(s: State, v: nat, w: nat)
      requires |s.written| == |lookups| && Enabled(s, Write(v)) && v != w
      requires Sole(w) && s.written[w] <= lookups[w].Writes() && InOrder(s, w)
      ensures InOrder(Next(s, Write(v)), w)
    {
      assert lookups[v].Pinned() != lookups[w].Pinned();
    }

    lemma NextInOrder(s: State, step: Step, w: nat)
      requires Inv(s) && Enabled(s, step) && Sole(w) && InOrder(s, w)
      ensures Inv(Next(s, step)) && InOrder(Next(s, step), w)
    {
      NextInv(s, step);
      if step == Write(w) {
        OwnWriteInOrder(s, w);
      } else if step.Write? {
        OtherWriteInOrder(s, step.w, w);
      }
    }

    /** If one component is the only one for an index, the children of the index are its manifests,
        in order. */
    lemma {:induction false} ChildrenInOrder(states: seq<State>, k: nat, w: nat)
      requires Behaviour(states) && k < |states| && Sole(w)
      ensures Inv(states[k]) && InOrder(states[k], w)
    {
      if k == 0 {
        InitInv();
      } else {
        ChildrenInOrder(states, k - 1, w);
        var step :| Enabled(states[k - 1], step) && states[k - 1 + 1] == Next(states[k - 1], step);
        NextInOrder(states[k - 1], step, w);
      }
    }

    // ----- the expanded components -----

    /** What a worker sends: its component, and one for each manifest if it is an index. */
    function Expanded(w: nat): seq<Component>
      requires w < |lookups| && w < |components|
    {
      [components[w]] + Arches(components[w], lookups[w])
    }

    function Arches(c: Component, l: Lookup): seq<Component> {
      if l.NotIndex? then []
      else seq(|l.manifests|, j requires 0 <= j < |l.manifests| =>
             c.(name := c.name + "-" + l.manifests[j].digest + "-" + l.manifests[j].arch, containerImage := l.Child(j)))
    }

    /** What comes from any of the workers. */
    ghost predicate FromWorker(c: Component) {
      exists w :: 0 <= w < |lookups| && w < |components| && c in Expanded(w)
    }

    /** What the collector has received from the given workers. */
    function Collected(workers: seq<nat>): seq<Component> {
      if workers == [] then []
      else
        (if workers[0] < |lookups| && workers[0] < |components| then Expanded(workers[0]) else [])
        + Collected(workers[1..])
    }

    lemma {:induction false} CollectedOfConcat(a: seq<nat>, b: seq<nat>)
      ensures Collected(a + b) == Collected(a) + Collected(b)
    {
      if a == [] {
        Empty(b);
      } else {
        ConcatTail(a, b);
        CollectedOfConcat(a[1..], b);
        Assoc(if a[0] < |lookups| && a[0] < |components| then Expanded(a[0]) else [], Collected(a[1..]), Collected(b));
      }
    }

    lemma {:induction false} InCollected(workers: seq<nat>, c: Component)
      ensures c in Collected(workers)
              <==> exists w :: w in workers && w < |lookups| && w < |components| && c in Expanded(w)
    {
      if workers != [] {
        InCollected(workers[1..], c);
        assert forall w :: w in workers <==> w == workers[0] || w in workers[1..];
      }
    }

    lemma FinishedCollected(states: seq<State>, c: Component)
      requires Behaviour(states) && Finished(states[|states| - 1])
      ensures c in Collected(states[|states| - 1].sent) <==> FromWorker(c)
    {
      var last := states[|states| - 1];
      BehaviourInv(states, |states| - 1);
      InCollected(last.sent, c);
      if c in Collected(last.sent) {
        var w :| w in last.sent && w < |lookups| && w < |components| && c in Expanded(w);
        assert FromWorker(c);
      }
    }

    lemma CollectedInThree(before: seq<nat>, x: seq<nat>, after: seq<nat>)
      ensures multiset(Collected(before + (x + after))) == multiset(Collected(x)) + multiset(Collected(before + after))
    {
      CollectedOfConcat(before, after);
      CollectedOfConcat(x, after);
      CollectedOfConcat(before, x + after);
      MiddleMultiset(Collected(before), Collected(x), Collected(after));
    }

    lemma {:induction false} CollectedIgnoresOrder(a: seq<nat>, b: seq<nat>)
      requires multiset(a) == multiset(b)
      ensures multiset(Collected(a)) == multiset(Collected(b))
      decreases |a|
    {
      SameElementsSameLength(a, b);
      if a != [] {
        var x, rest, before, after := SameElementsSplit(a, b);
        CollectedIgnoresOrder(rest, before + after);
        CollectedOfConcat(x, rest);
        CollectedInThree(before, x, after);
      }
    }

    /** The components of the snapshot when all workers have finished, whatever order they finished
        in and however they are sorted: each input, and one for each manifest of an index. */
    lemma ExpandedComponents(states: seq<State>, sorted: seq<Component>)
      requires Behaviour(states) && Finished(states[|states| - 1])
      requires multiset(sorted) == multiset(Collected(states[|states| - 1].sent))
      ensures multiset(sorted) == multiset(Collected(seq(|lookups|, w => w)))
    {
      var last := states[|states| - 1];
      BehaviourInv(states, |states| - 1);
      forall w: nat ensures multiset(last.sent)[w] == multiset(seq(|lookups|, i => i))[w] {
        Once(|lookups|, w);
        AtMostOnce(last.sent, w);
        if w < |lookups| {
          assert w in last.sent;
        }
      }
      assert multiset(last.sent) == multiset(seq(|lookups|, i => i));
      CollectedIgnoresOrder(last.sent, seq(|lookups|, i => i));
    }
  }

  lemma {:induction false} AtMostOnce(s: seq<nat>, x: nat)
    requires forall j, k | 0 <= j < k < |s| :: s[j] != s[k]
    ensures multiset(s)[x] == if x in s then 1 else 0
  {
    if s != [] {
      AtMostOnce(s[1..], x);
      assert s == [s[0]] + s[1..];
      ConcatMultiplicity([s[0]], s[1..], x);
    }
  }

  // ----- filtering a report -----

  datatype Report = Report(components: seq<Component>, expansion: Option<ExpansionInfo>)

  /** An alias of an index stands for its pinned reference. */
  function NormalizeIndexRef(ref: string, exp: Option<ExpansionInfo>): string {
    if exp.Some? && ref in exp.value.indexAliases then exp.value.indexAliases[ref] else ref
  }

  function IncludedRefs(targetRef: string, exp: Option<ExpansionInfo>): set<string> {
    var pinned := NormalizeIndexRef(targetRef, exp);
    {pinned} + if exp.Some? then set c | c in exp.value.Children(pinned) else {}
  }

  function ForTargetRef(report: Report, targetRef: string): seq<Component> {
    Filter(report.components, (c: Component) => c.containerImage in IncludedRefs(targetRef, report.expansion))
  }

  method FilterReportForTargetRef(report: Report, targetRef: string) returns (comps: seq<Component>)
    ensures comps == ForTargetRef(report, targetRef)
  {
    var exp := report.expansion;
    var pinned := NormalizeIndexRef(targetRef, exp);
    var included := {};
    if exp.Some? {
      if pinned in exp.value.childrenByIndex {
        var imgs := exp.value.childrenByIndex[pinned];
        included := included + {pinned};
        for i := 0 to |imgs|
          invariant included == {pinned} + set c | c in imgs[..i]
        {
          included := included + {imgs[i]};
          assert imgs[..i + 1] == imgs[..i] + [imgs[i]];
        }
        assert imgs[..|imgs|] == imgs;
      } else {
        included := included + {pinned};
      }
    } else {
      included := included + {pinned};
    }
    assert included == IncludedRefs(targetRef, exp);
    comps := [];
    for i := 0 to |report.components|
      invariant comps == Filter(report.components[..i], (c: Component) => c.containerImage in IncludedRefs(targetRef, exp))
    {
      var c := report.components[i];
      FilterOfOneMore(report.components, i, (c: Component) => c.containerImage in IncludedRefs(targetRef, exp));
      if c.containerImage in included {
        comps := comps + [c];
      }
    }
    assert report.components[..|report.components|] == report.components;
  }

  /** Lookups of one reference find one index, and an index has one list of manifests. */
  ghost predicate Consistent(sys: System) {
    forall v: nat, w: nat | v < |sys.lookups| && w < |sys.lookups| && sys.lookups[v].Index? && sys.lookups[w].Index? ::
      && (sys.lookups[v].reference == sys.lookups[w].reference ==> sys.lookups[v].Pinned() == sys.lookups[w].Pinned())
      && (sys.lookups[v].Pinned() == sys.lookups[w].Pinned() ==>
            sys.lookups[v].repository == sys.lookups[w].repository && sys.lookups[v].manifests == sys.lookups[w].manifests)
  }

  lemma AliasIsPinned(sys: System, last: State, w: nat)
    requires sys.Inv(last) && sys.Finished(last) && Consistent(sys)
    requires w < |sys.lookups| && sys.lookups[w].Index?
    ensures NormalizeIndexRef(sys.lookups[w].reference, Some(last.exp)) == sys.lookups[w].Pinned()
  {
    sys.AllWritten(last, w);
    assert sys.WroteAlias(last, w);
    var v: nat :| sys.WroteAlias(last, v) && sys.lookups[v].reference == sys.lookups[w].reference
                  && last.exp.indexAliases[sys.lookups[w].reference] == sys.lookups[v].Pinned();
  }

  lemma ChildrenAreManifests(sys: System, last: State, w: nat, c: string)
    requires sys.Inv(last) && sys.Finished(last) && Consistent(sys)
    requires w < |sys.lookups| && sys.lookups[w].Index?
    ensures c in last.exp.Children(sys.lookups[w].Pinned())
            <==> exists j: nat :: j < |sys.lookups[w].manifests| && sys.lookups[w].Child(j) == c
  {
    var l := sys.lookups[w];
    sys.AllWritten(last, w);
    if c in last.exp.Children(l.Pinned()) {
      var u: nat, j: nat :| sys.WroteChild(last, u, j) && sys.lookups[u].Pinned() == l.Pinned() && sys.lookups[u].Child(j) == c;
      assert l.Child(j) == c;
    }
    if j: nat :| j < |l.manifests| && l.Child(j) == c {
      assert sys.WroteChild(last, w, j);
    }
  }

  /** After an expansion, filtering by the reference of an index means its pinned reference and the
      references of its manifests, and nothing else. */
  lemma AliasMeansIndexAndManifests(sys: System, states: seq<State>, w: nat)
    requires sys.Behaviour(states) && sys.Finished(states[|states| - 1]) && Consistent(sys)
    requires w < |sys.lookups| && sys.lookups[w].Index?
    ensures var l := sys.lookups[w];
            var refs := IncludedRefs(l.reference, Some(states[|states| - 1].exp));
            forall c :: c in refs <==> c == l.Pinned() || exists j: nat :: j < |l.manifests| && l.Child(j) == c
  {
    var last := states[|states| - 1];
    sys.BehaviourInv(states, |states| - 1);
    AliasIsPinned(sys, last, w);
    forall c {
      ChildrenAreManifests(sys, last, w, c);
    }
  }

  /** Whether the image is the index or one of its manifests. */
  ghost predicate Below(l: Lookup, image: string)
    requires l.Index?
  {
    image == l.Pinned() || exists j: nat :: j < |l.manifests| && l.Child(j) == image
  }

  /** Of a report on the expanded components, filtered by the reference of an index, exactly those
      come back whose image is the index or one of its manifests. */
  lemma FilteredByIndex(sys: System, states: seq<State>, w: nat, sorted: seq<Component>, c: Component)
    requires sys.Behaviour(states) && sys.Finished(states[|states| - 1]) && Consistent(sys)
    requires w < |sys.lookups| && sys.lookups[w].Index?
    requires multiset(sorted) == multiset(sys.Collected(states[|states| - 1].sent))
    ensures var report := Report(sorted, Some(states[|states| - 1].exp));
            c in ForTargetRef(report, sys.lookups[w].reference)
            <==> sys.FromWorker(c) && Below(sys.lookups[w], c.containerImage)
  {
    var l, last := sys.lookups[w], states[|states| - 1];
    AliasMeansIndexAndManifests(sys, states, w);
    FilterElements(sorted, (x: Component) => x.containerImage in IncludedRefs(l.reference, Some(last.exp)));
    sys.FinishedCollected(states, c);
    assert c in sorted <==> c in multiset(sorted);
    assert c in sys.Collected(last.sent) <==> c in multiset(sys.Collected(last.sent));
  }

  /** The index's own component is among them if and only if its image is the pinned reference, or
      for that matter one of the manifests; the components of its manifests always are. */
  lemma IndexInItsReport(sys: System, states: seq<State>, w: nat, sorted: seq<Component>)
    requires sys.Behaviour(states) && sys.Finished(states[|states| - 1]) && Consistent(sys)
    requires w < |sys.lookups| == |sys.components| && sys.lookups[w].Index?
    requires multiset(sorted) == multiset(sys.Collected(states[|states| - 1].sent))
    ensures var own, l := sys.components[w], sys.lookups[w];
            var filtered := ForTargetRef(Report(sorted, Some(states[|states| - 1].exp)), l.reference);
            && (own in filtered <==> Below(l, own.containerImage))
            && ((forall j: nat | j < |l.manifests| :: l.Child(j) != own.containerImage) ==>
                  (own in filtered <==> own.containerImage == l.Pinned()))
            && (forall arch | arch in sys.Arches(own, l) :: arch in filtered)
  {
    var own, l := sys.components[w], sys.lookups[w];
    assert own in sys.Expanded(w);
    FilteredByIndex(sys, states, w, sorted, own);
    forall arch | arch in sys.Arches(own, l)
      ensures arch in ForTargetRef(Report(sorted, Some(states[|states| - 1].exp)), l.reference)
    {
      assert arch in sys.Expanded(w);
      var j :| 0 <= j < |l.manifests| && arch == sys.Arches(own, l)[j];
      assert l.Child(j) == arch.containerImage;
      FilteredByIndex(sys, states, w, sorted, arch);
    }
  }
}
