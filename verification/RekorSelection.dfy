/** Choosing the latest of the fetched log entries. */
module RekorSelection {
  import opened Wrappers
  import opened Sequences
  import opened RekorFetch

  /** `intotoV002` is how the body was classified. */
  datatype LogEntry = LogEntry(integratedTime: Option<int>, intotoV002: bool, body: string)

  /** Whether `a` is later than `b`: a time counts as later than none. */
  predicate Later(a: LogEntry, b: LogEntry) {
    a.integratedTime.Some? && (b.integratedTime.None? || a.integratedTime.value > b.integratedTime.value)
  }

  /** The position of the first entry than which none is later. */
  ghost predicate FirstLatest(entries: seq<LogEntry>, k: nat) {
    && k < |entries|
    && (forall j | 0 <= j < |entries| :: !Later(entries[j], entries[k]))
    && (forall j | 0 <= j < k :: Later(entries[k], entries[j]))
  }

  method FindLatestEntryByIntegratedTime(entries: seq<LogEntry>) returns (latest: Option<LogEntry>)
    ensures latest.None? <==> entries == []
    ensures latest.Some? ==> exists k: nat :: FirstLatest(entries, k) && latest.value == entries[k]
  {
    if |entries| == 0 {
      return None;
    }
    var current := entries[0];
    ghost var k := 0;
    for i := 1 to |entries|
      invariant k < i && current == entries[k]
      invariant forall j | 0 <= j < i :: !Later(entries[j], current)
      invariant forall j | 0 <= j < k :: Later(current, entries[j])
    {
      var entry := entries[i];
      if entry.integratedTime.Some? && current.integratedTime.Some? {
        if entry.integratedTime.value > current.integratedTime.value {
          current := entry;
          k := i;
        }
      } else if entry.integratedTime.Some? && current.integratedTime.None? {
        current := entry;
        k := i;
      }
    }
    assert FirstLatest(entries, k);
    return Some(current);
  }

  /** The time of the latest entry, if any has one. */
  ghost predicate IsLatestTime(entries: seq<LogEntry>, time: Option<int>) {
    && (exists e :: e in entries && e.integratedTime == time)
    && (forall e | e in entries :: e.integratedTime.Some? ==> time.Some? && e.integratedTime.value <= time.value)
  }

  lemma FirstLatestHasLatestTime(entries: seq<LogEntry>, k: nat)
    requires FirstLatest(entries, k)
    ensures IsLatestTime(entries, entries[k].integratedTime)
  {
    assert entries[k] in entries;
    forall e | e in entries
      ensures e.integratedTime.Some? ==> entries[k].integratedTime.Some? && e.integratedTime.value <= entries[k].integratedTime.value
    {
      var j :| 0 <= j < |entries| && entries[j] == e;
      assert !Later(entries[j], entries[k]);
    }
  }

  lemma LatestTimeIsUnique(entries: seq<LogEntry>, entries': seq<LogEntry>, time: Option<int>, time': Option<int>)
    requires multiset(entries) == multiset(entries')
    requires IsLatestTime(entries, time) && IsLatestTime(entries', time')
    ensures time == time'
  {
    assert forall e :: e in entries <==> e in multiset(entries);
    assert forall e :: e in entries' <==> e in multiset(entries');
  }

  function Candidates(entries: seq<LogEntry>): seq<LogEntry> {
    Filter(entries, (e: LogEntry) => e.intotoV002)
  }

  /** The entry an envelope is built from: the latest of the right kind. */
  method SelectEntry(entries: seq<LogEntry>) returns (selected: Option<LogEntry>)
    ensures Selected(entries, selected)
    ensures selected.None? <==> forall e | e in entries :: !e.intotoV002
    ensures selected.Some? ==> exists i: nat :: LatestOfKind(entries, i) && entries[i] == selected.value
  {
    var intotoV002Entries := [];
    for i := 0 to |entries|
      invariant intotoV002Entries == Candidates(entries[..i])
    {
      FilterOfOneMore(entries, i, (e: LogEntry) => e.intotoV002);
      if entries[i].intotoV002 {
        intotoV002Entries := intotoV002Entries + [entries[i]];
      }
    }
    assert entries[..|entries|] == entries;
    selected := FindLatestEntryByIntegratedTime(intotoV002Entries);
    SelectionIff(entries, selected);
  }

  /** Whether the entry is of the right kind, none of that kind has a later time, and those of that
      kind in front of it have an earlier one or none. */
  ghost predicate LatestOfKind(entries: seq<LogEntry>, i: nat) {
    && i < |entries| && entries[i].intotoV002
    && (forall j | 0 <= j < |entries| && entries[j].intotoV002 && entries[j].integratedTime.Some? ::
          entries[i].integratedTime.Some? && entries[j].integratedTime.value <= entries[i].integratedTime.value)
    && (forall j | 0 <= j < i && entries[j].intotoV002 ::
          && entries[i].integratedTime.Some?
          && (entries[j].integratedTime.Some? ==> entries[j].integratedTime.value < entries[i].integratedTime.value))
  }

  /** Where the entries of the right kind are in the list. */
  lemma {:induction false} CandidateAt(entries: seq<LogEntry>, k: nat) returns (i: nat)
    requires k < |Candidates(entries)|
    ensures i < |entries| && entries[i].intotoV002 && entries[i] == Candidates(entries)[k]
    ensures Candidates(entries[..i]) == Candidates(entries)[..k]
  {
    if entries[0].intotoV002 && k == 0 {
      i := 0;
    } else {
      i := CandidateAt(entries[1..], if entries[0].intotoV002 then k - 1 else k);
      assert entries[..i + 1][1..] == entries[1..][..i];
      i := i + 1;
    }
  }

  lemma InCandidates(entries: seq<LogEntry>, j: nat)
    requires j < |entries| && entries[j].intotoV002
    ensures entries[j] in Candidates(entries)
  {
    assert entries[j] in entries;
    FilterElements(entries, (e: LogEntry) => e.intotoV002);
  }

  lemma SelectedIsLatest(entries: seq<LogEntry>, k: nat) returns (i: nat)
    requires FirstLatest(Candidates(entries), k)
    ensures LatestOfKind(entries, i) && entries[i] == Candidates(entries)[k]
  {
    i := CandidateAt(entries, k);
    forall j | 0 <= j < |entries| && entries[j].intotoV002 ensures !Later(entries[j], entries[i]) {
      InCandidates(entries, j);
    }
    forall j | 0 <= j < i && entries[j].intotoV002 ensures Later(entries[i], entries[j]) {
      assert entries[..i][j] == entries[j];
      InCandidates(entries[..i], j);
      var m :| 0 <= m < k && Candidates(entries)[m] == entries[j];
    }
  }

  /** Nothing is selected if and only if there is no entry of the right kind; otherwise it is the
      first of that kind with the latest time, a time counting as later than none. */
  lemma SelectionIff(entries: seq<LogEntry>, selected: Option<LogEntry>)
    requires Selected(entries, selected)
    ensures selected.None? <==> forall e | e in entries :: !e.intotoV002
    ensures selected.Some? ==> exists i: nat :: LatestOfKind(entries, i) && entries[i] == selected.value
  {
    FilterElements(entries, (e: LogEntry) => e.intotoV002);
    if selected.Some? {
      var k: nat :| FirstLatest(Candidates(entries), k) && selected.value == Candidates(entries)[k];
      var i := SelectedIsLatest(entries, k);
    } else if e :| e in entries && e.intotoV002 {
      assert e in Candidates(entries);
    }
  }

  ghost predicate Selected(entries: seq<LogEntry>, selected: Option<LogEntry>) {
    if selected.None? then Candidates(entries) == []
    else exists k: nat :: FirstLatest(Candidates(entries), k) && selected.value == Candidates(entries)[k]
  }

  function TimeOf(selected: Option<LogEntry>): Option<Option<int>> {
    if selected.None? then None else Some(selected.value.integratedTime)
  }

  /** The order in which the entries arrive decides nothing but ties. */
  lemma SelectionIgnoresOrder(entries: seq<LogEntry>, entries': seq<LogEntry>,
                              selected: Option<LogEntry>, selected': Option<LogEntry>)
    requires multiset(entries) == multiset(entries')
    requires Selected(entries, selected) && Selected(entries', selected')
    ensures TimeOf(selected) == TimeOf(selected')
  {
    var c, c' := Candidates(entries), Candidates(entries');
    forall e ensures multiset(c)[e] == multiset(c')[e] {
      FilterMultiplicity(entries, (x: LogEntry) => x.intotoV002, e);
      FilterMultiplicity(entries', (x: LogEntry) => x.intotoV002, e);
    }
    assert multiset(c) == multiset(c');
    SameElementsSameLength(c, c');
    if selected.Some? {
      var k: nat :| FirstLatest(c, k) && selected.value == c[k];
      var k': nat :| FirstLatest(c', k') && selected'.value == c'[k'];
      FirstLatestHasLatestTime(c, k);
      FirstLatestHasLatestTime(c', k');
      LatestTimeIsUnique(c, c', selected.value.integratedTime, selected'.value.integratedTime);
    }
  }

  // ----- from fetching to selecting -----

  /** What fetching a UUID comes to: an entry or an error. */
  type Response = Option<LogEntry>

  function ResponseTo(responses: seq<Response>, i: nat): Response {
    if i < |responses| then responses[i] else None
  }

  /** The entries of the collected responses, in the order they were collected. */
  function Entries(responses: seq<Response>, collected: seq<nat>): seq<LogEntry> {
    if collected == [] then []
    else
      (if ResponseTo(responses, collected[0]).Some? then [ResponseTo(responses, collected[0]).value] else [])
      + Entries(responses, collected[1..])
  }

  function ErrorCount(responses: seq<Response>, collected: seq<nat>): nat {
    if collected == [] then 0
    else (if ResponseTo(responses, collected[0]).None? then 1 else 0) + ErrorCount(responses, collected[1..])
  }

  lemma {:induction false} EveryResponseIsOne(responses: seq<Response>, collected: seq<nat>)
    ensures |Entries(responses, collected)| + ErrorCount(responses, collected) == |collected|
  {
    if collected != [] {
      EveryResponseIsOne(responses, collected[1..]);
    }
  }

  lemma {:induction false} EntriesOfConcat(responses: seq<Response>, a: seq<nat>, b: seq<nat>)
    ensures Entries(responses, a + b) == Entries(responses, a) + Entries(responses, b)
  {
    if a == [] {
      Empty(b);
    } else {
      ConcatTail(a, b);
      EntriesOfConcat(responses, a[1..], b);
      Assoc(if ResponseTo(responses, a[0]).Some? then [ResponseTo(responses, a[0]).value] else [],
            Entries(responses, a[1..]), Entries(responses, b));
    }
  }

  lemma EntriesInThree(responses: seq<Response>, before: seq<nat>, x: seq<nat>, after: seq<nat>)
    ensures multiset(Entries(responses, before + (x + after)))
            == multiset(Entries(responses, x)) + multiset(Entries(responses, before + after))
  {
    EntriesOfConcat(responses, before, after);
    EntriesOfConcat(responses, x, after);
    EntriesOfConcat(responses, before, x + after);
    MiddleMultiset(Entries(responses, before), Entries(responses, x), Entries(responses, after));
  }

  /** The collected entries are the same in whatever order they were collected. */
  lemma {:induction false} EntriesIgnoreOrder(responses: seq<Response>, a: seq<nat>, b: seq<nat>)
    requires multiset(a) == multiset(b)
    ensures multiset(Entries(responses, a)) == multiset(Entries(responses, b))
    decreases |a|
  {
    SameElementsSameLength(a, b);
    if a != [] {
      var x, rest, before, after := SameElementsSplit(a, b);
      EntriesIgnoreOrder(responses, rest, before + after);
      EntriesOfConcat(responses, x, rest);
      EntriesInThree(responses, before, x, after);
    }
  }

  lemma CollectedIsEverything(n: nat, s: State)
    requires AllCollected(n, s)
    ensures multiset(s.collected) == multiset(seq(n, i => i))
    ensures forall i | i in s.collected :: i < n
  {
    forall i: nat ensures multiset(s.collected)[i] == multiset(seq(n, i => i))[i] {
      Once(n, i);
    }
    forall i | i in s.collected ensures i < n {
      assert multiset(s.collected)[i] > 0;
    }
  }

  /** A fetch that returns without an error accounts for every UUID: by an entry or by an error. */
  lemma NilErrorAccountsForAll(responses: seq<Response>, workerCount: nat, states: seq<State>)
    requires workerCount >= 1 && Behaviour(|responses|, workerCount, states)
    requires states[|states| - 1].returned == Some(true)
    ensures var collected := states[|states| - 1].collected;
            && multiset(collected) == multiset(seq(|responses|, i => i))
            && (forall i | i in collected :: i < |responses|)
            && |Entries(responses, collected)| + ErrorCount(responses, collected) == |responses|
  {
    var last := states[|states| - 1];
    BehaviourInv(|responses|, workerCount, states, |states| - 1);
    CollectedIsEverything(|responses|, last);
    SameElementsSameLength(last.collected, seq(|responses|, i => i));
    EveryResponseIsOne(responses, last.collected);
  }

  /** Two fetches of the same responses, with any number of workers and any interleaving, lead to
      an entry of the same integrated time. */
  lemma FetchedTimeIsDetermined(responses: seq<Response>,
                                workerCount: nat, states: seq<State>, selected: Option<LogEntry>,
                                workerCount': nat, states': seq<State>, selected': Option<LogEntry>)
    requires workerCount >= 1 && Behaviour(|responses|, workerCount, states)
    requires workerCount' >= 1 && Behaviour(|responses|, workerCount', states')
    requires states[|states| - 1].returned == Some(true) && states'[|states'| - 1].returned == Some(true)
    requires Selected(Entries(responses, states[|states| - 1].collected), selected)
    requires Selected(Entries(responses, states'[|states'| - 1].collected), selected')
    ensures TimeOf(selected) == TimeOf(selected')
  {
    NilErrorAccountsForAll(responses, workerCount, states);
    NilErrorAccountsForAll(responses, workerCount', states');
    var a, b := states[|states| - 1].collected, states'[|states'| - 1].collected;
    EntriesIgnoreOrder(responses, a, b);
    SelectionIgnoresOrder(Entries(responses, a), Entries(responses, b), selected, selected');
  }
}
