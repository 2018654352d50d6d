/** What holds of the tracker's file over any number of runs, each reading the file the previous
    one wrote. */
module TrackerRuns {
  import opened Wrappers
  import opened BundleTracker
  import opened Sequences

  // ----- removing duplicates -----

  /** Whether the record at `i` has no record with the same ref right behind it. */
  predicate EndsRun(rs: seq<TaskRecord>, i: nat) {
    i < |rs| && (i + 1 == |rs| || rs[i].ref != rs[i + 1].ref)
  }

  /** The records at or after position `i` that end a stretch of records with the same ref. */
  function RunEnds(rs: seq<TaskRecord>, i: nat): seq<TaskRecord>
    requires i <= |rs|
    decreases |rs| - i
  {
    if i == |rs| then [] else (if EndsRun(rs, i) then [rs[i]] else []) + RunEnds(rs, i + 1)
  }

  /** Removing duplicates keeps, in order, exactly the last record of every stretch of equal refs. */
  lemma {:induction false} OldestOfEachKeepsRunEnds(rs: seq<TaskRecord>, i: nat)
    requires i <= |rs|
    ensures OldestOfEach(rs[i..]) == RunEnds(rs, i)
    decreases |rs| - i
  {
    if i < |rs| {
      OldestOfEachKeepsRunEnds(rs, i + 1);
      assert rs[i..][1..] == rs[i + 1..];
    }
  }

  lemma {:induction false} OldestOfEachHasNoAdjacentDuplicates(rs: seq<TaskRecord>)
    ensures NoAdjacentDuplicates(OldestOfEach(rs))
    ensures rs != [] ==> OldestOfEach(rs) != []
                         && OldestOfEach(rs)[0].ref == rs[0].ref
                         && OldestOfEach(rs)[|OldestOfEach(rs)| - 1] == rs[|rs| - 1]
  {
    if |rs| > 1 {
      OldestOfEachHasNoAdjacentDuplicates(rs[1..]);
    }
  }

  ghost predicate NoAdjacentDuplicates(rs: seq<TaskRecord>) {
    forall i | 0 <= i < |rs| - 1 :: rs[i].ref != rs[i + 1].ref
  }

  lemma {:induction false} UniqueIsUnchanged(rs: seq<TaskRecord>)
    requires NoAdjacentDuplicates(rs)
    ensures OldestOfEach(rs) == rs
  {
    if |rs| > 1 {
      UniqueIsUnchanged(rs[1..]);
    }
  }

  lemma {:induction false} KeptWithoutBlankTail(rs: seq<TaskRecord>)
    ensures rs == [] || rs[|rs| - 1].ref != "" <==> WithoutBlankTail(rs) == rs
    ensures WithoutBlankTail(rs) <= rs
    ensures forall i | |WithoutBlankTail(rs)| <= i < |rs| :: rs[i].ref == ""
    ensures WithoutBlankTail(rs) != [] ==> WithoutBlankTail(rs)[|WithoutBlankTail(rs)| - 1].ref != ""
  {
    if rs != [] {
      KeptWithoutBlankTail(rs[1..]);
      assert rs == [rs[0]] + rs[1..];
    }
  }

  /** Without pruning, filtering twice is filtering once. */
  lemma FilteringIsIdempotent(rs: seq<TaskRecord>, now: int)
    ensures Filtered(Filtered(rs, false, now), false, now) == Filtered(rs, false, now)
  {
    var cut := WithoutBlankTail(rs);
    KeptWithoutBlankTail(rs);
    OldestOfEachHasNoAdjacentDuplicates(cut);
    KeptWithoutBlankTail(OldestOfEach(cut));
    UniqueIsUnchanged(OldestOfEach(cut));
  }

  lemma {:induction false} OnlyCurrentIsCurrent(rs: seq<TaskRecord>, now: int)
    ensures forall r :: r in OnlyCurrent(rs, now) <==> r in rs && Current(r, now)
    ensures |OnlyCurrent(rs, now)| <= |rs|
  {
    if rs != [] {
      OnlyCurrentIsCurrent(rs[1..], now);
    }
  }

  // ----- pruning -----

  /** Whether `later` expires no later than `sooner`, no expiry counting as never. */
  predicate ExpiresNoLater(later: TaskRecord, sooner: TaskRecord) {
    sooner.expiresOn.None? || (later.expiresOn.Some? && later.expiresOn.value <= sooner.expiresOn.value)
  }

  ghost predicate ByExpiry(rs: seq<TaskRecord>) {
    forall i, j | 0 <= i < j < |rs| :: ExpiresNoLater(rs[j], rs[i])
  }

  lemma {:induction false} PruningSortedCutsSuffix(rs: seq<TaskRecord>, now: int)
    requires ByExpiry(rs)
    ensures OnlyCurrent(rs, now) <= rs
    ensures forall i | 0 <= i < |rs| :: i < |OnlyCurrent(rs, now)| <==> Current(rs[i], now)
  {
    if rs != [] {
      PruningSortedCutsSuffix(rs[1..], now);
      assert rs == [rs[0]] + rs[1..];
      if !Current(rs[0], now) && |rs| > 1 {
        assert ExpiresNoLater(rs[1], rs[0]);
        assert !Current(rs[1..][0], now);
      }
    }
  }

  /** Pruning removes exactly a suffix, whatever the time, if and only if no record expires later
      than one in front of it. */
  lemma PruningCutsSuffixIffSorted(rs: seq<TaskRecord>)
    ensures (forall now :: OnlyCurrent(rs, now) <= rs) <==> ByExpiry(rs)
  {
    if ByExpiry(rs) {
      forall now ensures OnlyCurrent(rs, now) <= rs {
        PruningSortedCutsSuffix(rs, now);
      }
    } else {
      var i, j :| 0 <= i < j < |rs| && !ExpiresNoLater(rs[j], rs[i]);
      var now := rs[i].expiresOn.value;
      var k := ExpiredBeforeCurrent(rs, now, i, j);
      OnlyCurrentIsCurrent(rs, now);
      assert OnlyCurrent(rs, now)[k] in OnlyCurrent(rs, now);
      assert !(OnlyCurrent(rs, now) <= rs);
    }
  }

  /** With an expired record in front of a current one, the current ones are not a prefix. */
  lemma {:induction false} ExpiredBeforeCurrent(rs: seq<TaskRecord>, now: int, i: nat, j: nat) returns (k: nat)
    requires i < j < |rs| && !Current(rs[i], now) && Current(rs[j], now)
    ensures k < |OnlyCurrent(rs, now)| && k < |rs| && !Current(rs[k], now)
  {
    if i == 0 {
      OnlyCurrentIsCurrent(rs, now);
      assert rs[j] in OnlyCurrent(rs, now);
      k := 0;
    } else {
      k := ExpiredBeforeCurrent(rs[1..], now, i - 1, j - 1);
      k := if Current(rs[0], now) then k + 1 else 0;
    }
  }

  // ----- one group through one run -----

  /** The additions that go to the group, newest first. */
  function News(additions: seq<Addition>, group: string): seq<TaskRecord> {
    if additions == [] then []
    else
      var a := additions[|additions| - 1];
      (if a.Group() == group then [a.Record()] else []) + News(additions[..|additions| - 1], group)
  }

  function StepGroup(news: seq<TaskRecord>, stored: seq<TaskRecord>, prune: bool, now: int, deadline: int): seq<TaskRecord> {
    Written(Expiring(Filtered(news + stored, prune, now), deadline))
  }

  lemma {:induction false} AddAllPerGroup(m: Groups, additions: seq<Addition>, group: string)
    ensures Get(AddAll(m, additions), group) == News(additions, group) + Get(m, group)
    ensures group in AddAll(m, additions) <==> group in m || News(additions, group) != []
  {
    if additions == [] {
      Empty(Get(m, group));
    } else {
      var init, a := additions[..|additions| - 1], additions[|additions| - 1];
      AddAllPerGroup(m, init, group);
      if a.Group() == group {
        Assoc([a.Record()], News(init, group), Get(m, group));
      } else {
        Empty(News(init, group));
      }
    }
  }

  /** A run treats every group on its own. */
  lemma StepPerGroup(m: Groups, run: Run, group: string)
    ensures group in Step(m, run) <==> group in m || News(run.additions, group) != []
    ensures group in Step(m, run) ==>
              Step(m, run)[group] == StepGroup(News(run.additions, group), Get(m, group),
                                               run.prune, run.clock(group), run.ExpiryDate())
  {
    AddAllPerGroup(m, run.additions, group);
  }

  ghost predicate ExpiresBy(rs: seq<TaskRecord>, deadline: int) {
    forall r | r in rs && r.expiresOn.Some? :: r.expiresOn.value <= deadline
  }

  /** What a run leaves behind: only the head has no expiry, and no record repeats its neighbour's ref. */
  ghost predicate Tidy(rs: seq<TaskRecord>) {
    && rs != []
    && rs[0].expiresOn.None?
    && (forall i | 1 <= i < |rs| :: rs[i].expiresOn.Some?)
    && NoAdjacentDuplicates(rs)
    && (forall r | r in rs :: r.ref != "" && Persisted(r) == r)
  }

  /** And, if no date moved back, the records are sorted by their expiry. */
  ghost predicate GroupOk(rs: seq<TaskRecord>) {
    Tidy(rs) && ByExpiry(rs)
  }

  ghost predicate Fresh(news: seq<TaskRecord>) {
    forall r | r in news :: r.ref != "" && r.expiresOn.None?
  }

  lemma {:induction false} OldestOfEachSplits(news: seq<TaskRecord>, stored: seq<TaskRecord>)
    requires stored != [] && NoAdjacentDuplicates(stored)
    ensures OldestOfEach(news + stored) == OldestOfEach(news + stored[..1]) + stored[1..]
  {
    if news == [] {
      Empty(stored);
      Empty(stored[..1]);
      UniqueIsUnchanged(stored);
      assert stored[..1] + stored[1..] == stored;
    } else {
      OldestOfEachSplits(news[1..], stored);
      ConcatTail(news, stored);
      ConcatTail(news, stored[..1]);
      assert (news + stored)[1].ref == (news + stored[..1])[1].ref;
      Assoc([news[0]], OldestOfEach(news[1..] + stored[..1]), stored[1..]);
    }
  }

  lemma {:induction false} OnlyCurrentOfConcat(a: seq<TaskRecord>, b: seq<TaskRecord>, now: int)
    ensures OnlyCurrent(a + b, now) == OnlyCurrent(a, now) + OnlyCurrent(b, now)
    ensures (forall r | r in a :: r.expiresOn.None?) ==> OnlyCurrent(a, now) == a
  {
    if a == [] {
      Empty(b);
    } else {
      OnlyCurrentOfConcat(a[1..], b, now);
      ConcatTail(a, b);
      Assoc(if Current(a[0], now) then [a[0]] else [], OnlyCurrent(a[1..], now), OnlyCurrent(b, now));
    }
  }

  lemma {:induction false} OldestOfEachIsPart(rs: seq<TaskRecord>)
    ensures forall r | r in OldestOfEach(rs) :: r in rs
  {
    if |rs| > 1 {
      OldestOfEachIsPart(rs[1..]);
    }
  }

  function Head(rs: seq<TaskRecord>): seq<TaskRecord> {
    if rs == [] then [] else rs[..1]
  }

  function Rest(rs: seq<TaskRecord>): seq<TaskRecord> {
    if rs == [] then [] else rs[1..]
  }

  /** The records in front of the stored rest: new ones, ending with the stored head if any. */
  function Front(news: seq<TaskRecord>, stored: seq<TaskRecord>): seq<TaskRecord> {
    OldestOfEach(news + Head(stored))
  }

  /** The stored records behind the head, without the expired ones if the run prunes. */
  function Kept(stored: seq<TaskRecord>, prune: bool, now: int): seq<TaskRecord> {
    if prune then OnlyCurrent(Rest(stored), now) else Rest(stored)
  }

  lemma UniqueShape(news: seq<TaskRecord>, stored: seq<TaskRecord>)
    requires Fresh(news)
    requires stored == [] || Tidy(stored)
    ensures OldestOfEach(WithoutBlankTail(news + stored)) == Front(news, stored) + Rest(stored)
  {
    var all := news + stored;
    assert all != [] ==> all[|all| - 1] in all;
    KeptWithoutBlankTail(all);
    if stored == [] {
      Empty(news);
      Empty(Front(news, stored));
    } else {
      OldestOfEachSplits(news, stored);
    }
  }

  lemma FrontShape(news: seq<TaskRecord>, stored: seq<TaskRecord>)
    requires Fresh(news) && news + stored != []
    requires stored == [] || Tidy(stored)
    ensures Front(news, stored) != [] && Fresh(Front(news, stored))
    ensures NoAdjacentDuplicates(Front(news, stored))
    ensures Front(news, stored)[0].ref == (news + stored)[0].ref
    ensures stored != [] ==> Front(news, stored)[|Front(news, stored)| - 1] == stored[0]
  {
    OldestOfEachHasNoAdjacentDuplicates(news + Head(stored));
    OldestOfEachIsPart(news + Head(stored));
  }

  lemma DatingLeavesDated(front: seq<TaskRecord>, kept: seq<TaskRecord>, deadline: int)
    requires front != []
    requires forall r | r in kept :: r.expiresOn.Some? && Persisted(r) == r
    ensures Written(Expiring(front + kept, deadline)) == Written(Expiring(front, deadline)) + kept
  {
    forall i | 0 <= i < |kept| ensures Persisted(Dated(kept[i], deadline)) == kept[i] {
      assert kept[i] in kept;
    }
  }

  lemma KeptShape(stored: seq<TaskRecord>, prune: bool, now: int)
    requires stored == [] || Tidy(stored)
    ensures forall r | r in Kept(stored, prune, now) ::
              r in stored && r.expiresOn.Some? && Persisted(r) == r && r.ref != "" && (prune ==> now < r.expiresOn.value)
    ensures forall r | r in Rest(stored) && (prune ==> now < r.expiresOn.value) :: r in Kept(stored, prune, now)
  {
    if stored != [] {
      OnlyCurrentIsCurrent(Rest(stored), now);
      forall r | r in Rest(stored) ensures r in stored && r.expiresOn.Some? {
        var i :| 0 <= i < |Rest(stored)| && Rest(stored)[i] == r;
        assert stored[i + 1] == r;
      }
    }
  }

  lemma KeptIsPrefix(stored: seq<TaskRecord>, prune: bool, now: int)
    requires stored == [] || GroupOk(stored)
    ensures Kept(stored, prune, now) <= Rest(stored)
  {
    if stored != [] {
      forall i, j | 0 <= i < j < |Rest(stored)| ensures ExpiresNoLater(Rest(stored)[j], Rest(stored)[i]) {
        assert ExpiresNoLater(stored[j + 1], stored[i + 1]);
      }
      PruningSortedCutsSuffix(Rest(stored), now);
    }
  }

  /** A run puts new records, and the old head, in front of what pruning leaves of the rest; the
      records of the rest are not changed and, if they are sorted, pruning removes a suffix of them. */
  lemma StepGroupShape(news: seq<TaskRecord>, stored: seq<TaskRecord>, prune: bool, now: int, deadline: int)
    requires Fresh(news) && news + stored != []
    requires stored == [] || Tidy(stored)
    ensures StepGroup(news, stored, prune, now, deadline)
            == Written(Expiring(Front(news, stored), deadline)) + Kept(stored, prune, now)
    ensures stored == [] || GroupOk(stored) ==> Kept(stored, prune, now) <= Rest(stored)
    ensures Front(news, stored) != []
  {
    UniqueShape(news, stored);
    FrontShape(news, stored);
    KeptShape(stored, prune, now);
    if stored == [] || GroupOk(stored) {
      KeptIsPrefix(stored, prune, now);
    }
    OnlyCurrentOfConcat(Front(news, stored), Rest(stored), now);
    DatingLeavesDated(Front(news, stored), Kept(stored, prune, now), deadline);
  }

  lemma SeamIsTidy(front: seq<TaskRecord>, kept: seq<TaskRecord>, stored: seq<TaskRecord>, deadline: int)
    requires front != [] && Fresh(front) && NoAdjacentDuplicates(front)
    requires stored == [] || Tidy(stored)
    requires kept <= Rest(stored)
    requires stored != [] ==> front[|front| - 1] == stored[0]
    ensures var after := Written(Expiring(front, deadline)) + kept;
            Tidy(after) && after[0].ref == front[0].ref
  {
    var dated := Written(Expiring(front, deadline));
    var after := dated + kept;
    forall i | 0 <= i < |dated|
      ensures dated[i].ref == front[i].ref != "" && Persisted(dated[i]) == dated[i]
      ensures dated[i].expiresOn == if i == 0 then None else Some(deadline)
    {
      assert front[i] in front;
    }
    forall i | 0 <= i < |kept|
      ensures kept[i] == stored[i + 1] && kept[i] in stored && kept[i].expiresOn.Some?
    {
      assert kept[i] == Rest(stored)[i];
      assert stored[i + 1] in stored;
    }
    forall i | 0 <= i < |after| - 1 ensures after[i].ref != after[i + 1].ref {
      if i + 1 < |dated| {
        assert front[i].ref != front[i + 1].ref;
      } else {
        assert stored[i - |dated| + 1].ref != stored[i - |dated| + 2].ref;
      }
    }
  }

  lemma SeamIsSorted(front: seq<TaskRecord>, kept: seq<TaskRecord>, stored: seq<TaskRecord>, deadline: int)
    requires front != [] && Fresh(front)
    requires stored == [] || (GroupOk(stored) && ExpiresBy(stored, deadline))
    requires kept <= Rest(stored)
    ensures var after := Written(Expiring(front, deadline)) + kept;
            ByExpiry(after) && ExpiresBy(after, deadline)
  {
    var dated := Written(Expiring(front, deadline));
    var after := dated + kept;
    forall i | 0 <= i < |dated| ensures dated[i].expiresOn == if i == 0 then None else Some(deadline) {
      assert front[i] in front;
    }
    forall i | 0 <= i < |kept|
      ensures kept[i] == stored[i + 1] && kept[i].expiresOn.Some? && kept[i].expiresOn.value <= deadline
    {
      assert kept[i] == Rest(stored)[i];
      assert stored[i + 1] in stored;
    }
    forall i, j | 0 <= i < j < |after| ensures ExpiresNoLater(after[j], after[i]) {
      if i >= |dated| {
        assert ExpiresNoLater(stored[j - |dated| + 1], stored[i - |dated| + 1]);
      }
    }
  }

  /** A run leaves a sorted group tidy whatever its date, and sorted if the date is late enough. */
  lemma StepGroupKeepsOrder(news: seq<TaskRecord>, stored: seq<TaskRecord>, prune: bool, now: int, deadline: int)
    requires Fresh(news) && news + stored != []
    requires stored == [] || GroupOk(stored)
    ensures var after := StepGroup(news, stored, prune, now, deadline);
            && Tidy(after) && after[0].ref == (news + stored)[0].ref
            && (ExpiresBy(stored, deadline) ==> GroupOk(after) && ExpiresBy(after, deadline))
  {
    StepGroupShape(news, stored, prune, now, deadline);
    FrontShape(news, stored);
    SeamIsTidy(Front(news, stored), Kept(stored, prune, now), stored, deadline);
    if ExpiresBy(stored, deadline) {
      SeamIsSorted(Front(news, stored), Kept(stored, prune, now), stored, deadline);
    }
  }

  // ----- any number of runs -----

  /** The file after the runs, the first of which starts without one. */
  function After(runs: seq<Run>): Groups {
    if runs == [] then map[] else Step(After(runs[..|runs| - 1]), runs[|runs| - 1])
  }

  /** Every added record has a ref. */
  ghost predicate Named(runs: seq<Run>) {
    forall run, a | run in runs && a in run.additions :: a.ref != ""
  }

  /** The date a run gives to superseded records never moves back in the first runs. */
  ghost predicate NeverMovesBack(runs: seq<Run>, n: nat)
    requires n <= |runs|
  {
    forall i, j | 0 <= i < j < n :: runs[i].ExpiryDate() <= runs[j].ExpiryDate()
  }

  ghost predicate Admissible(runs: seq<Run>) {
    Named(runs) && NeverMovesBack(runs, |runs|)
  }

  lemma RoundToDayIsMonotone(s: int, t: int)
    requires s <= t
    ensures RoundToDay(s) <= RoundToDay(t)
    ensures -ONE_DAY <= 2 * (RoundToDay(t) - t) <= ONE_DAY && RoundToDay(t) % ONE_DAY == 0
  {
  }

  /** A clock that never goes back and a fixed number of days in effect are enough. */
  lemma SteadyRunsAreAdmissible(runs: seq<Run>, inEffectDays: int)
    requires forall run, a | run in runs && a in run.additions :: a.ref != ""
    requires forall run | run in runs :: run.inEffectDays == inEffectDays
    requires forall i, j | 0 <= i < j < |runs| :: runs[i].now <= runs[j].now
    ensures Admissible(runs)
  {
    forall i, j | 0 <= i < j < |runs| ensures runs[i].ExpiryDate() <= runs[j].ExpiryDate() {
      RoundToDayIsMonotone(runs[i].now, runs[j].now);
    }
  }

  lemma {:induction false} NewsIsFresh(additions: seq<Addition>, group: string)
    requires forall a | a in additions :: a.ref != ""
    ensures Fresh(News(additions, group))
  {
    if additions != [] {
      NewsIsFresh(additions[..|additions| - 1], group);
    }
  }

  /** Everything ever added to the group, newest first. */
  function AllNews(runs: seq<Run>, group: string): seq<TaskRecord> {
    if runs == [] then []
    else News(runs[|runs| - 1].additions, group) + AllNews(runs[..|runs| - 1], group)
  }

  /** After any runs a group exists if something was ever added to it, is in good order, expires by
      the last date handed out, and is headed by the ref added last. */
  lemma {:induction false} GroupsStayInOrder(runs: seq<Run>, group: string)
    requires Admissible(runs)
    ensures group in After(runs) <==> AllNews(runs, group) != []
    ensures group in After(runs) ==>
              && GroupOk(After(runs)[group])
              && ExpiresBy(After(runs)[group], runs[|runs| - 1].ExpiryDate())
              && After(runs)[group][0].ref == AllNews(runs, group)[0].ref
  {
    if runs != [] {
      var before, last := runs[..|runs| - 1], runs[|runs| - 1];
      assert last in runs && forall run | run in before :: run in runs;
      GroupsStayInOrder(before, group);
      StepPerGroup(After(before), last, group);
      NewsIsFresh(last.additions, group);
      if group in After(runs) {
        StepGroupKeepsOrder(News(last.additions, group), Get(After(before), group),
                            last.prune, last.clock(group), last.ExpiryDate());
      }
    }
  }

  lemma NamedPrefix(runs: seq<Run>, n: nat)
    requires Named(runs) && n <= |runs|
    ensures Named(runs[..n])
    ensures forall k | 0 <= k < |runs| :: forall a | a in runs[k].additions :: a.ref != ""
  {
    assert forall run | run in runs[..n] :: run in runs;
    assert forall k | 0 <= k < |runs| :: runs[k] in runs;
  }

  /** The last date may move back: the groups are still tidy, though perhaps not sorted. */
  lemma GroupsStayTidy(runs: seq<Run>, group: string)
    requires Named(runs) && NeverMovesBack(runs, AllBut(runs, 1))
    ensures group in After(runs) ==> Tidy(After(runs)[group])
  {
    if runs != [] {
      var before, last := runs[..|runs| - 1], runs[|runs| - 1];
      NamedPrefix(runs, |before|);
      GroupsStayInOrder(before, group);
      StepPerGroup(After(before), last, group);
      NewsIsFresh(last.additions, group);
      if group in After(runs) {
        StepGroupKeepsOrder(News(last.additions, group), Get(After(before), group),
                            last.prune, last.clock(group), last.ExpiryDate());
      }
    }
  }

  function AllBut(runs: seq<Run>, n: nat): nat {
    if |runs| < n then 0 else |runs| - n
  }

  /** Whether a run among `runs[from..]` prunes the group at or after the given date. */
  ghost predicate PrunedSince(runs: seq<Run>, from: nat, group: string, date: int) {
    exists j :: from <= j < |runs| && runs[j].prune && date <= runs[j].clock(group)
  }

  lemma StepFromTidy(runs: seq<Run>, group: string)
    requires Named(runs) && runs != []
    requires var before := After(runs[..|runs| - 1]); group in before && Tidy(before[group])
    ensures var before, last := After(runs[..|runs| - 1])[group], runs[|runs| - 1];
            && group in After(runs)
            && After(runs)[group] == Written(Expiring(Front(News(last.additions, group), before), last.ExpiryDate()))
                                     + Kept(before, last.prune, last.clock(group))
            && Fresh(News(last.additions, group))
  {
    NamedPrefix(runs, |runs|);
    var last := runs[|runs| - 1];
    var m := After(runs[..|runs| - 1]);
    NewsIsFresh(last.additions, group);
    StepPerGroup(m, last, group);
    StepGroupShape(News(last.additions, group), m[group], last.prune, last.clock(group), last.ExpiryDate());
  }

  /** Whether the record is still there after all runs, or was pruned on or after its date. */
  ghost predicate KeepsRecord(runs: seq<Run>, k: nat, group: string, r: TaskRecord)
    requires r.expiresOn.Some?
  {
    r in Get(After(runs), group) || PrunedSince(runs, k, group, r.expiresOn.value)
  }

  lemma DatedRecordStays(runs: seq<Run>, group: string, r: TaskRecord)
    requires Named(runs) && runs != [] && r.expiresOn.Some?
    requires var before := After(runs[..|runs| - 1]);
             group in before && Tidy(before[group]) && r in before[group]
    ensures var last := runs[|runs| - 1];
            r in Get(After(runs), group) || (last.prune && r.expiresOn.value <= last.clock(group))
  {
    StepFromTidy(runs, group);
    var stored, last := After(runs[..|runs| - 1])[group], runs[|runs| - 1];
    KeptShape(stored, last.prune, last.clock(group));
    assert r != stored[0] && r in Rest(stored);
  }

  lemma StillPruned(runs: seq<Run>, k: nat, group: string, date: int)
    requires runs != [] && PrunedSince(runs[..|runs| - 1], k, group, date)
    ensures PrunedSince(runs, k, group, date)
  {
    var before := runs[..|runs| - 1];
    var j :| k <= j < |before| && before[j].prune && date <= before[j].clock(group);
    assert runs[j] == before[j];
  }

  /** Once a record has an expiry, no later run changes it, and it is only lost to a run that
      prunes on or after that date. The last two dates may be any. */
  lemma {:induction false} GracePeriodIsKept(runs: seq<Run>, k: nat, group: string, r: TaskRecord)
    requires Named(runs) && NeverMovesBack(runs, AllBut(runs, 2))
    requires k <= |runs| && r in Get(After(runs[..k]), group) && r.expiresOn.Some?
    ensures KeepsRecord(runs, k, group, r)
  {
    if k == |runs| {
      assert runs[..k] == runs;
    } else {
      var before := runs[..|runs| - 1];
      assert before[..k] == runs[..k];
      NamedPrefix(runs, |before|);
      GracePeriodIsKept(before, k, group, r);
      if r in Get(After(before), group) {
        GroupsStayTidy(before, group);
        DatedRecordStays(runs, group, r);
      } else {
        StillPruned(runs, k, group, r.expiresOn.value);
      }
    }
  }

  // ----- the head -----

  function HeadAfter(runs: seq<Run>, m: nat, group: string): seq<TaskRecord>
    requires m <= |runs|
  {
    Head(Get(After(runs[..m]), group))
  }

  predicate IsHead(runs: seq<Run>, m: nat, group: string, head: TaskRecord) {
    m <= |runs| && HeadAfter(runs, m, group) == [head]
  }

  ghost predicate HeadStays(runs: seq<Run>, k: nat, n: nat, group: string, head: TaskRecord) {
    Throughout(HeadTest(runs, group, head), k, n)
  }

  function HeadTest(runs: seq<Run>, group: string, head: TaskRecord): nat -> bool {
    (m: nat) => IsHead(runs, m, group, head)
  }

  /** The run puts another ref in front, and gives the old head its date. */
  ghost predicate Supersedes(runs: seq<Run>, j: nat, group: string, head: TaskRecord)
    requires j < |runs|
  {
    var after := Get(After(runs[..j + 1]), group);
    && after != [] && after[0].ref != head.ref
    && head.(expiresOn := Some(runs[j].ExpiryDate())) in after
  }

  lemma LastOfFrontIsDated(news: seq<TaskRecord>, stored: seq<TaskRecord>, deadline: int)
    requires Fresh(news) && Tidy(stored)
    ensures var front := Written(Expiring(Front(news, stored), deadline));
            Head(front) == [stored[0]] || stored[0].(expiresOn := Some(deadline)) in front
  {
    FrontShape(news, stored);
    var front := Front(news, stored);
    assert stored[0] in stored;
    var dated := Written(Expiring(front, deadline));
    assert dated[|front| - 1] in dated;
  }

  lemma SupersededInGroup(news: seq<TaskRecord>, stored: seq<TaskRecord>, kept: seq<TaskRecord>, deadline: int)
    requires Fresh(news) && Tidy(stored)
    ensures var after := Written(Expiring(Front(news, stored), deadline)) + kept;
            Head(after) == [stored[0]] || stored[0].(expiresOn := Some(deadline)) in after
  {
    LastOfFrontIsDated(news, stored, deadline);
    FrontShape(news, stored);
  }

  lemma SupersededHead(runs: seq<Run>, group: string, head: TaskRecord)
    requires Admissible(runs) && runs != []
    requires Head(Get(After(runs[..|runs| - 1]), group)) == [head]
    ensures Head(Get(After(runs), group)) == [head]
            || head.(expiresOn := Some(runs[|runs| - 1].ExpiryDate())) in Get(After(runs), group)
  {
    var before, last := runs[..|runs| - 1], runs[|runs| - 1];
    AdmissiblePrefix(runs, |before|);
    GroupsStayTidy(before, group);
    StepFromTidy(runs, group);
    var stored := After(before)[group];
    SupersededInGroup(News(last.additions, group), stored, Kept(stored, last.prune, last.clock(group)), last.ExpiryDate());
  }

  /** Heads have no date, so two of them differ in their refs. */
  lemma HeadsDifferInRef(a: seq<TaskRecord>, b: seq<TaskRecord>)
    requires Tidy(a) && Tidy(b) && a[0] != b[0]
    ensures a[0].ref != b[0].ref
  {
    assert a[0] in a && b[0] in b;
    assert Persisted(a[0]) == a[0] && Persisted(b[0]) == b[0];
  }

  lemma AdmissiblePrefix(runs: seq<Run>, n: nat)
    requires Admissible(runs) && n <= |runs|
    ensures Admissible(runs[..n])
  {
    NamedPrefix(runs, n);
  }

  lemma SupersededAt(runs: seq<Run>, j: nat, group: string, head: TaskRecord)
    requires Admissible(runs) && j < |runs|
    requires IsHead(runs, j, group, head) && !IsHead(runs, j + 1, group, head)
    ensures Supersedes(runs, j, group, head)
  {
    assert runs[..j + 1][..j] == runs[..j];
    AdmissiblePrefix(runs, j);
    AdmissiblePrefix(runs, j + 1);
    SupersededHead(runs[..j + 1], group, head);
    GroupsStayTidy(runs[..j], group);
    GroupsStayTidy(runs[..j + 1], group);
    HeadsDifferInRef(Get(After(runs[..j]), group), Get(After(runs[..j + 1]), group));
  }

  /** The head stays the head until run `j` puts another ref in front; that very run gives it its
      date, and then it is only lost to a run that prunes on or after that date. */
  ghost predicate HeadUntil(runs: seq<Run>, k: nat, j: nat, group: string, head: TaskRecord)
    requires j < |runs|
  {
    && HeadStays(runs, k, j, group, head)
    && Supersedes(runs, j, group, head)
    && KeepsRecord(runs, j + 1, group, head.(expiresOn := Some(runs[j].ExpiryDate())))
  }

  lemma SupersededAndKept(runs: seq<Run>, k: nat, j: nat, group: string, head: TaskRecord)
    requires Admissible(runs) && j < |runs| && HeadStays(runs, k, j, group, head)
    requires IsHead(runs, j, group, head) && !IsHead(runs, j + 1, group, head)
    ensures HeadUntil(runs, k, j, group, head)
  {
    SupersededAt(runs, j, group, head);
    GracePeriodIsKept(runs, j + 1, group, head.(expiresOn := Some(runs[j].ExpiryDate())));
  }

  lemma HeadTestIs(runs: seq<Run>, m: nat, group: string, head: TaskRecord)
    ensures HeadTest(runs, group, head)(m) == IsHead(runs, m, group, head)
  {
  }

  lemma HeadChanges(runs: seq<Run>, k: nat, group: string, head: TaskRecord) returns (j: nat)
    requires k <= |runs| && IsHead(runs, k, group, head) && !HeadStays(runs, k, |runs|, group, head)
    ensures k <= j < |runs| && HeadStays(runs, k, j, group, head)
    ensures IsHead(runs, j, group, head) && !IsHead(runs, j + 1, group, head)
  {
    HeadTestIs(runs, k, group, head);
    j := LastWhile(HeadTest(runs, group, head), k, |runs|);
    HeadTestIs(runs, j, group, head);
    HeadTestIs(runs, j + 1, group, head);
  }

  /** The head of a group is never lost: it stays the head for good, or until some run. */
  lemma HeadIsKept(runs: seq<Run>, k: nat, group: string, head: TaskRecord)
    requires Admissible(runs) && k <= |runs| && IsHead(runs, k, group, head)
    ensures HeadStays(runs, k, |runs|, group, head) || exists j | k <= j < |runs| :: HeadUntil(runs, k, j, group, head)
  {
    if !HeadStays(runs, k, |runs|, group, head) {
      var j := HeadChanges(runs, k, group, head);
      SupersededAndKept(runs, k, j, group, head);
    }
  }

  /** Pruning is complete: what a pruning run leaves although it has expired was dated by that run. */
  lemma PruningLeavesNothingExpired(news: seq<TaskRecord>, stored: seq<TaskRecord>, now: int, deadline: int, r: TaskRecord)
    requires Fresh(news) && news + stored != []
    requires stored == [] || Tidy(stored)
    requires r in StepGroup(news, stored, true, now, deadline) && r.expiresOn.Some? && r.expiresOn.value <= now
    ensures r.expiresOn == Some(deadline)
  {
    StepGroupShape(news, stored, true, now, deadline);
    KeptShape(stored, true, now);
    FrontShape(news, stored);
    var front := Front(news, stored);
    assert r !in Kept(stored, true, now);
    var i :| 0 <= i < |front| && Written(Expiring(front, deadline))[i] == r;
    assert front[i] in front;
  }

  // ----- how far the dates may move back -----

  function Days(n: int): int {
    n * ONE_DAY
  }

  /** The date each run gives to superseded records; dates are whole days. */
  ghost predicate HasDates(runs: seq<Run>, days: seq<int>) {
    |runs| == |days| && forall k | 0 <= k < |days| :: runs[k].ExpiryDate() == Days(days[k])
  }

  ghost predicate KeepsGracePeriod(runs: seq<Run>) {
    forall k: nat, group, r | k <= |runs| && r in Get(After(runs[..k]), group) && r.expiresOn.Some? ::
      KeepsRecord(runs, k, group, r)
  }

  function Add(ref: string): Addition {
    Addition("", ref, "", "g")
  }

  /** With the date of run `j` before that of run `i`: run `i` adds "a" and "b", run `j` adds "a"
      again, and the next run prunes. The clock stands still. */
  function BreakingRun(days: seq<int>, i: nat, j: nat, k: nat): Run
    requires i < j < |days| && k < |days|
  {
    Run(if k == i then [Add("a"), Add("b")] else if k == j then [Add("a")] else [],
        k == j + 1, g => Days(days[j]), Days(days[j]), days[k] - days[j])
  }

  function BreakingRuns(days: seq<int>, i: nat, j: nat): seq<Run>
    requires i < j < |days|
  {
    seq(|days|, k requires 0 <= k < |days| => BreakingRun(days, i, j, k))
  }

  function Bundle(ref: string, expiresOn: Option<int>): TaskRecord {
    TaskRecord(ref, expiresOn, "", "")
  }

  function Newly(ref: string): TaskRecord {
    TaskRecord(ref, None, "", "g")
  }

  /** The group after the first `m` of these runs. */
  function Bundles(days: seq<int>, i: nat, j: nat, m: nat): seq<TaskRecord>
    requires i < j < |days|
  {
    var first, second := Some(Days(days[i])), Some(Days(days[j]));
    if m <= i then []
    else if m <= j then [Bundle("b", None), Bundle("a", first)]
    else if m == j + 1 then [Bundle("a", None), Bundle("b", second), Bundle("a", first)]
    else if m == j + 2 then [Bundle("a", None), Bundle("a", first)]
    else [Bundle("a", None)]
  }

  lemma BreakingDates(days: seq<int>, i: nat, j: nat)
    requires i < j < |days|
    ensures HasDates(BreakingRuns(days, i, j), days) && Named(BreakingRuns(days, i, j))
  {
  }

  lemma BreakingNews(days: seq<int>, i: nat, j: nat, k: nat)
    requires i < j < |days| && k < |days|
    ensures News(BreakingRun(days, i, j, k).additions, "g")
            == if k == i then [Newly("b"), Newly("a")] else if k == j then [Newly("a")] else []
  {
    assert "" + "g" == "g";
    assert [Add("a"), Add("b")][..1] == [Add("a")] && [Add("a")][..0] == [];
    assert Add("a").Group() == "g" && Add("b").Group() == "g";
    assert News([Add("a")], "g") == [Newly("a")];
  }

  /** A step on a list without adjacent duplicates, worked out by hand. */
  lemma StepByHand(news: seq<TaskRecord>, stored: seq<TaskRecord>, prune: bool, now: int, deadline: int,
                   kept: seq<TaskRecord>, after: seq<TaskRecord>)
    requires NoAdjacentDuplicates(news + stored)
    requires news + stored != [] ==> (news + stored)[|news + stored| - 1].ref != ""
    requires kept == if prune then OnlyCurrent(news + stored, now) else news + stored
    requires |after| == |kept|
    requires forall i | 0 <= i < |kept| ::
               after[i] == Persisted(if i == 0 then kept[i].(expiresOn := None) else Dated(kept[i], deadline))
    ensures StepGroup(news, stored, prune, now, deadline) == after
  {
    KeptWithoutBlankTail(news + stored);
    UniqueIsUnchanged(news + stored);
  }

  /** A tidy group stays as it is in a run that adds nothing to it and does not prune. */
  lemma IdleStep(stored: seq<TaskRecord>, now: int, deadline: int)
    requires Tidy(stored)
    ensures StepGroup([], stored, false, now, deadline) == stored
  {
    StepGroupShape([], stored, false, now, deadline);
    assert [] + Head(stored) == [stored[0]];
    assert stored[0] in stored;
    assert Written(Expiring([stored[0]], deadline)) == [stored[0]];
  }

  lemma OnlyMiddleExpires(a: TaskRecord, b: TaskRecord, c: TaskRecord, now: int)
    requires Current(a, now) && !Current(b, now) && Current(c, now)
    ensures OnlyCurrent([a, b, c], now) == [a, c]
  {
    assert [a, b, c] == [a] + [b, c] && [b, c] == [b] + [c];
    OnlyCurrentOfConcat([a], [b, c], now);
    OnlyCurrentOfConcat([b], [c], now);
  }

  /** The record between the two "a"s has a date that has come, the older "a" one that has not. */
  lemma PruningStep(first: int, second: int, deadline: int)
    requires second < first
    ensures StepGroup([], [Bundle("a", None), Bundle("b", Some(second)), Bundle("a", Some(first))], true, second, deadline)
            == [Bundle("a", None), Bundle("a", Some(first))]
  {
    var a, b, a' := Bundle("a", None), Bundle("b", Some(second)), Bundle("a", Some(first));
    var all := [a, b, a'];
    assert [] + all == all;
    OnlyMiddleExpires(a, b, a', second);
    StepByHand([], all, true, second, deadline, [a, a'], [a, a']);
  }

  /** Of two neighbours with the same ref the older one is kept and, now being the head, loses its date. */
  lemma MergingStep(first: int, now: int, deadline: int)
    ensures StepGroup([], [Bundle("a", None), Bundle("a", Some(first))], false, now, deadline) == [Bundle("a", None)]
  {
    var a, a' := Bundle("a", None), Bundle("a", Some(first));
    assert [] + [a, a'] == [a, a'];
    KeptWithoutBlankTail([a, a']);
    assert OldestOfEach([a, a']) == [a'] by {
      assert [a, a'][1..] == [a'];
    }
  }

  lemma AddingStep(days: seq<int>, i: nat, j: nat, k: nat)
    requires i < j < |days| && (k == i || k == j)
    ensures StepGroup(if k == i then [Newly("b"), Newly("a")] else [Newly("a")], Bundles(days, i, j, k), false,
                      Days(days[j]), Days(days[k])) == Bundles(days, i, j, k + 1)
  {
    var a, b, first := Newly("a"), Newly("b"), Bundle("a", Some(Days(days[i])));
    if k == i {
      assert [b, a] + [] == [b, a];
      StepByHand([b, a], [], false, Days(days[j]), Days(days[k]), [b, a], Bundles(days, i, j, k + 1));
    } else {
      var all := [a, Bundle("b", None), first];
      assert [a] + [Bundle("b", None), first] == all;
      StepByHand([a], [Bundle("b", None), first], false, Days(days[j]), Days(days[k]), all, Bundles(days, i, j, k + 1));
    }
  }

  lemma BreakingStep(days: seq<int>, i: nat, j: nat, k: nat)
    requires i < j < |days| && days[j] < days[i] && i <= k < |days|
    ensures var run := BreakingRun(days, i, j, k);
            StepGroup(News(run.additions, "g"), Bundles(days, i, j, k), run.prune, run.clock("g"), Days(days[k]))
            == Bundles(days, i, j, k + 1)
  {
    BreakingNews(days, i, j, k);
    if k == i || k == j {
      AddingStep(days, i, j, k);
    } else if k == j + 1 {
      PruningStep(Days(days[i]), Days(days[j]), Days(days[k]));
    } else if k == j + 2 {
      MergingStep(Days(days[i]), Days(days[j]), Days(days[k]));
    } else {
      IdleStep(Bundles(days, i, j, k), Days(days[j]), Days(days[k]));
    }
  }

  predicate BreakingState(days: seq<int>, i: nat, j: nat, m: nat, groups: Groups)
    requires i < j < |days|
  {
    Get(groups, "g") == Bundles(days, i, j, m) && ("g" in groups <==> i < m)
  }

  lemma NextBreakingRun(days: seq<int>, i: nat, j: nat, k: nat, groups: Groups)
    requires i < j < |days| && days[j] < days[i] && k < |days| && BreakingState(days, i, j, k, groups)
    ensures BreakingState(days, i, j, k + 1, Step(groups, BreakingRun(days, i, j, k)))
  {
    var run := BreakingRun(days, i, j, k);
    StepPerGroup(groups, run, "g");
    BreakingNews(days, i, j, k);
    assert run.ExpiryDate() == Days(days[k]);
    if k >= i {
      BreakingStep(days, i, j, k);
    }
  }

  lemma AfterOneMore(runs: seq<Run>, k: nat)
    requires k < |runs|
    ensures After(runs[..k + 1]) == Step(After(runs[..k]), runs[k])
  {
    assert runs[..k + 1][..k] == runs[..k];
  }

  lemma {:induction false} BreakingAfter(days: seq<int>, i: nat, j: nat, runs: seq<Run>, m: nat)
    requires i < j < |days| && days[j] < days[i] && m <= |days|
    requires runs == BreakingRuns(days, i, j)
    ensures BreakingState(days, i, j, m, After(runs[..m]))
  {
    if m == 0 {
      assert runs[..0] == [];
    } else {
      BreakingAfter(days, i, j, runs, m - 1);
      AfterOneMore(runs, m - 1);
      NextBreakingRun(days, i, j, m - 1, After(runs[..m - 1]));
    }
  }

  lemma BundlesCompared(days: seq<int>, i: nat, j: nat)
    requires i < j < |days| - 2
    ensures var r := Bundle("a", Some(Days(days[i])));
            && !NoAdjacentDuplicates(Bundles(days, i, j, j + 2))
            && r in Bundles(days, i, j, j + 2) && r !in Bundles(days, i, j, |days|)
  {
    assert Bundles(days, i, j, j + 2)[0].ref == Bundles(days, i, j, j + 2)[1].ref;
    assert Bundles(days, i, j, j + 2)[1] == Bundle("a", Some(Days(days[i])));
  }

  /** If a date moves back and at least two runs follow, a record can lose its date to a run that
      does not prune: pruning has brought two records with the same ref together. */
  lemma ShorteningBreaksGracePeriod(days: seq<int>, i: nat, j: nat)
    requires i < j < |days| - 2 && days[j] < days[i]
    ensures var runs, r := BreakingRuns(days, i, j), Bundle("a", Some(Days(days[i])));
            && Named(runs) && HasDates(runs, days)
            && !NoAdjacentDuplicates(Get(After(runs[..j + 2]), "g"))
            && r in Get(After(runs[..j + 2]), "g")
            && !KeepsRecord(runs, j + 2, "g", r)
  {
    BreakingDates(days, i, j);
    DuplicatesMeet(days, i, j);
    LostInTheEnd(days, i, j);
  }

  lemma DuplicatesMeet(days: seq<int>, i: nat, j: nat)
    requires i < j < |days| - 2 && days[j] < days[i]
    ensures var group := Get(After(BreakingRuns(days, i, j)[..j + 2]), "g");
            !NoAdjacentDuplicates(group) && Bundle("a", Some(Days(days[i]))) in group
  {
    BreakingAfter(days, i, j, BreakingRuns(days, i, j), j + 2);
    BundlesCompared(days, i, j);
  }

  lemma LostInTheEnd(days: seq<int>, i: nat, j: nat)
    requires i < j < |days| - 2 && days[j] < days[i]
    ensures !KeepsRecord(BreakingRuns(days, i, j), j + 2, "g", Bundle("a", Some(Days(days[i]))))
  {
    var runs := BreakingRuns(days, i, j);
    BreakingAfter(days, i, j, runs, |days|);
    assert runs[..|days|] == runs;
    BundlesCompared(days, i, j);
    assert forall k | j + 2 <= k < |runs| :: !runs[k].prune;
  }

  /** Whatever else the runs do, every record is kept until its date if and only if the dates the
      runs hand out, but for the last two, never move back. */
  lemma GracePeriodIff(days: seq<int>)
    ensures (forall runs | Named(runs) && HasDates(runs, days) :: KeepsGracePeriod(runs))
            <==> forall i, j | 0 <= i < j < |days| - 2 :: days[i] <= days[j]
  {
    if i, j :| 0 <= i < j < |days| - 2 && days[j] < days[i] {
      ShorteningBreaksGracePeriod(days, i, j);
      assert !KeepsGracePeriod(BreakingRuns(days, i, j));
    } else {
      forall runs | Named(runs) && HasDates(runs, days) ensures KeepsGracePeriod(runs) {
        forall k: nat, group, r | k <= |runs| && r in Get(After(runs[..k]), group) && r.expiresOn.Some?
          ensures KeepsRecord(runs, k, group, r)
        {
          GracePeriodIsKept(runs, k, group, r);
        }
      }
    }
  }
}
