/** Which group a bundle goes to, and the dates a run hands out, in so many words. */
module TrackerGroups {
  import opened Wrappers
  import opened Sequences
  import opened BundleTracker
  import opened TrackerRuns

  /** Bundles of one repository share a group if and only if they have the same tag. */
  lemma SameGroupIff(prefix: string, repository: string, ref: string, tag: string, ref': string, tag': string)
    ensures Addition(prefix, ref, tag, repository).Group() == Addition(prefix, ref', tag', repository).Group() <==> tag == tag'
  {
    var base := prefix + repository;
    var g, g' := Addition(prefix, ref, tag, repository).Group(), Addition(prefix, ref', tag', repository).Group();
    assert g[|base|..] == (if tag == "" then "" else ":" + tag);
    assert g'[|base|..] == (if tag' == "" then "" else ":" + tag');
    if tag != "" && tag' != "" {
      assert (":" + tag)[1..] == tag && (":" + tag')[1..] == tag';
    }
  }

  /** The name is the prefix and the repository, and behind a colon the tag if there is one. */
  predicate GoesTo(a: Addition, name: string) {
    if a.tag == "" then name == a.prefix + a.repository else name == a.prefix + a.repository + ":" + a.tag
  }

  /** Everything added by the runs, oldest first. */
  function AllAdditions(runs: seq<Run>): seq<Addition> {
    if runs == [] then [] else AllAdditions(runs[..|runs| - 1]) + runs[|runs| - 1].additions
  }

  lemma {:induction false} NewsOfConcat(a: seq<Addition>, b: seq<Addition>, group: string)
    ensures News(a + b, group) == News(b, group) + News(a, group)
  {
    if b == [] {
      Empty(a);
      Empty(News(a, group));
    } else {
      var n := |b| - 1;
      NewsOfConcat(a, b[..n], group);
      assert (a + b)[..|a + b| - 1] == a + b[..n];
      Assoc(if b[n].Group() == group then [b[n].Record()] else [], News(b[..n], group), News(a, group));
    }
  }

  lemma {:induction false} NewsOfAll(runs: seq<Run>, group: string)
    ensures News(AllAdditions(runs), group) == AllNews(runs, group)
  {
    if runs != [] {
      NewsOfAll(runs[..|runs| - 1], group);
      NewsOfConcat(AllAdditions(runs[..|runs| - 1]), runs[|runs| - 1].additions, group);
    }
  }

  /** The newest record of a group is the last addition that goes to it. */
  lemma {:induction false} NewestIsLast(additions: seq<Addition>, i: nat, name: string)
    requires i < |additions| && GoesTo(additions[i], name)
    requires forall j | i < j < |additions| :: !GoesTo(additions[j], name)
    ensures News(additions, name) != [] && News(additions, name)[0].ref == additions[i].ref
  {
    var n := |additions| - 1;
    if i < n {
      NewestIsLast(additions[..n], i, name);
      assert !GoesTo(additions[n], name);
    }
  }

  lemma {:induction false} NothingNew(additions: seq<Addition>, name: string)
    requires forall a | a in additions :: !GoesTo(a, name)
    ensures News(additions, name) == []
  {
    if additions != [] {
      NothingNew(additions[..|additions| - 1], name);
      assert additions[|additions| - 1] in additions;
    }
  }

  /** After any runs the ref added last under a name is at the head of the group of that name, and
      does not expire. */
  lemma LastAddedIsHead(runs: seq<Run>, i: nat, name: string)
    requires Admissible(runs)
    requires var all := AllAdditions(runs);
             i < |all| && GoesTo(all[i], name) && forall j | i < j < |all| :: !GoesTo(all[j], name)
    ensures name in After(runs) && After(runs)[name] != []
    ensures After(runs)[name][0].ref == AllAdditions(runs)[i].ref && After(runs)[name][0].expiresOn == None
  {
    NewestIsLast(AllAdditions(runs), i, name);
    NewsOfAll(runs, name);
    GroupsStayInOrder(runs, name);
  }

  /** There are no groups but those something was added to. */
  lemma OnlyNamedGroups(runs: seq<Run>, name: string)
    requires Admissible(runs) && name in After(runs)
    ensures exists a :: a in AllAdditions(runs) && GoesTo(a, name)
  {
    NewsOfAll(runs, name);
    GroupsStayInOrder(runs, name);
    if forall a | a in AllAdditions(runs) :: !GoesTo(a, name) {
      NothingNew(AllAdditions(runs), name);
    }
  }

  /** In nanoseconds: the date is so many days of 86400 seconds after the midnight that is nearest to
      the time the clock showed, the later one at noon. */
  lemma ExpiryInNanoseconds(run: Run)
    ensures var midnight := run.ExpiryDate() - run.inEffectDays * 86_400_000_000_000;
            && midnight % 86_400_000_000_000 == 0
            && -43_200_000_000_000 <= run.now - midnight < 43_200_000_000_000
  {
    var today := RoundToDay(run.now);
    assert today % 86_400_000_000_000 == 0;
  }
}
