/** The tracker of trusted task bundles: records are grouped by bundle, newest first.

    Times are integers, in nanoseconds. A run of the tracker reads the clock once for every group
    it filters and once more when it hands out expiry dates. */
module BundleTracker {
  import opened Wrappers
  import opened Sequences

  /** `tag` and `repository` are known for records added in this run only: they are not written
      to the output file. */
  datatype TaskRecord = TaskRecord(ref: string, expiresOn: Option<int>, tag: string, repository: string)

  type Groups = map<string, seq<TaskRecord>>

  const ONE_DAY := 86_400_000_000_000

  /** Rounds to the nearest day, halves up. */
  function RoundToDay(t: int): int {
    var r := t % ONE_DAY;
    if 2 * r < ONE_DAY then t - r else t + (ONE_DAY - r)
  }

  function Deadline(now: int, inEffectDays: int): int {
    RoundToDay(now) + inEffectDays * ONE_DAY
  }

  function GroupOf(prefix: string, record: TaskRecord): string {
    if record.tag == "" then prefix + record.repository else prefix + record.repository + ":" + record.tag
  }

  function Get(m: Groups, group: string): seq<TaskRecord> {
    if group in m then m[group] else []
  }

  // ----- what each operation does to one group -----

  /** What is left when a trailing stretch of records without a ref is cut off. */
  function WithoutBlankTail(rs: seq<TaskRecord>): seq<TaskRecord> {
    if rs == [] then []
    else
      var tail := WithoutBlankTail(rs[1..]);
      if tail == [] && rs[0].ref == "" then [] else [rs[0]] + tail
  }

  /** Keeps the oldest, that is last, record of every stretch of records with the same ref. */
  function OldestOfEach(rs: seq<TaskRecord>): seq<TaskRecord> {
    if |rs| <= 1 then rs
    else if rs[0].ref == rs[1].ref then OldestOfEach(rs[1..])
    else [rs[0]] + OldestOfEach(rs[1..])
  }

  predicate Current(r: TaskRecord, now: int) {
    r.expiresOn.None? || now < r.expiresOn.value
  }

  function OnlyCurrent(rs: seq<TaskRecord>, now: int): seq<TaskRecord> {
    if rs == [] then []
    else (if Current(rs[0], now) then [rs[0]] else []) + OnlyCurrent(rs[1..], now)
  }

  function Filtered(rs: seq<TaskRecord>, prune: bool, now: int): seq<TaskRecord> {
    var unique := OldestOfEach(WithoutBlankTail(rs));
    if prune then OnlyCurrent(unique, now) else unique
  }

  function Dated(r: TaskRecord, deadline: int): TaskRecord {
    if r.expiresOn.None? then r.(expiresOn := Some(deadline)) else r
  }

  /** The first record has no expiry, every other one has its own or else the deadline. */
  function Expiring(rs: seq<TaskRecord>, deadline: int): seq<TaskRecord> {
    seq(|rs|, i requires 0 <= i < |rs| => if i == 0 then rs[i].(expiresOn := None) else Dated(rs[i], deadline))
  }

  function Persisted(r: TaskRecord): TaskRecord {
    r.(tag := "", repository := "")
  }

  function Written(rs: seq<TaskRecord>): seq<TaskRecord> {
    seq(|rs|, i requires 0 <= i < |rs| => Persisted(rs[i]))
  }

  // ----- one run -----

  datatype Addition = Addition(prefix: string, ref: string, tag: string, repository: string) {
    function Record(): TaskRecord {
      TaskRecord(ref, None, tag, repository)
    }

    function Group(): string {
      GroupOf(prefix, Record())
    }
  }

  function AddAll(m: Groups, additions: seq<Addition>): Groups {
    if additions == [] then m
    else
      var before := AddAll(m, additions[..|additions| - 1]);
      var a := additions[|additions| - 1];
      before[a.Group() := [a.Record()] + Get(before, a.Group())]
  }

  /** `clock(g)` is the time read while group `g` was filtered, `now` the one expiry dates are
      computed from. */
  datatype Run = Run(additions: seq<Addition>, prune: bool, clock: string -> int, now: int, inEffectDays: int) {
    function ExpiryDate(): int {
      Deadline(now, inEffectDays)
    }
  }

  function Step(m: Groups, run: Run): Groups {
    var added := AddAll(m, run.additions);
    map g | g in added ::
      Written(Expiring(Filtered(added[g], run.prune, run.clock(g)), run.ExpiryDate()))
  }

  class Tracker {
    var trustedTasks: Groups

    constructor (input: Option<Groups>)
      ensures trustedTasks == if input.Some? then input.value else map[]
    {
      trustedTasks := if input.Some? then input.value else map[];
    }

    method AddTrustedTaskRecord(prefix: string, record: TaskRecord)
      modifies this
      ensures var group := GroupOf(prefix, record);
              trustedTasks == old(trustedTasks)[group := [record] + Get(old(trustedTasks), group)]
    {
      var newRecords := [record];
      var group;
      if record.tag == "" {
        group := prefix + record.repository;
      } else {
        group := prefix + record.repository + ":" + record.tag;
      }
      if group !in trustedTasks {
        assert newRecords + [] == newRecords;
        trustedTasks := trustedTasks[group := newRecords];
      } else {
        trustedTasks := trustedTasks[group := newRecords + trustedTasks[group]];
      }
    }

    method FilterBundles(prune: bool, clock: string -> int)
      modifies this
      ensures trustedTasks == map g | g in old(trustedTasks) :: Filtered(old(trustedTasks)[g], prune, clock(g))
    {
      var todo := trustedTasks.Keys;
      while todo != {}
        invariant todo <= trustedTasks.Keys == old(trustedTasks).Keys
        invariant forall g | g in todo :: trustedTasks[g] == old(trustedTasks)[g]
        invariant forall g | g in trustedTasks && g !in todo ::
                    trustedTasks[g] == Filtered(old(trustedTasks)[g], prune, clock(g))
        decreases todo
      {
        var group :| group in todo;
        var relevant := FilterRecords(trustedTasks[group], prune, clock(group));
        trustedTasks := trustedTasks[group := relevant];
        todo := todo - {group};
      }
    }

    method SetExpiration(inEffectDays: int, now: int)
      modifies this
      ensures trustedTasks ==
              map g | g in old(trustedTasks) :: Expiring(old(trustedTasks)[g], Deadline(now, inEffectDays))
    {
      var expirationDuration := inEffectDays * ONE_DAY;
      var today := RoundToDay(now);
      var todo := trustedTasks.Keys;
      while todo != {}
        invariant todo <= trustedTasks.Keys == old(trustedTasks).Keys
        invariant forall g | g in todo :: trustedTasks[g] == old(trustedTasks)[g]
        invariant forall g | g in trustedTasks && g !in todo ::
                    trustedTasks[g] == Expiring(old(trustedTasks)[g], Deadline(now, inEffectDays))
        decreases todo
      {
        var group :| group in todo;
        var records := trustedTasks[group];
        for i := 0 to |records|
          invariant |records| == |trustedTasks[group]|
          invariant forall j | i <= j < |records| :: records[j] == trustedTasks[group][j]
          invariant forall j | 0 <= j < i ::
                      records[j] == Expiring(trustedTasks[group], Deadline(now, inEffectDays))[j]
        {
          if i == 0 {
            records := records[i := records[i].(expiresOn := None)];
          } else if records[i].expiresOn.None? {
            var expiresOn := today + expirationDuration;
            records := records[i := records[i].(expiresOn := Some(expiresOn))];
          }
        }
        assert records == Expiring(trustedTasks[group], Deadline(now, inEffectDays));
        trustedTasks := trustedTasks[group := records];
        todo := todo - {group};
      }
    }
  }

  lemma WithoutBlankTailOfOneMore(rs: seq<TaskRecord>, i: nat)
    requires i < |rs|
    ensures var tail := WithoutBlankTail(rs[i + 1..]);
            WithoutBlankTail(rs[i..]) == if tail == [] && rs[i].ref == "" then [] else [rs[i]] + tail
  {
    assert rs[i..][1..] == rs[i + 1..];
  }

  /** Removes consecutive records with the same ref and, when pruning, the expired ones. */
  method FilterRecords(records: seq<TaskRecord>, prune: bool, now: int) returns (relevant: seq<TaskRecord>)
    ensures relevant == Filtered(records, prune, now)
  {
    var lastRef := "";
    var unique: seq<TaskRecord> := [];
    for i := |records| downto 0
      invariant unique == OldestOfEach(WithoutBlankTail(records[i..]))
      invariant lastRef == var tail := WithoutBlankTail(records[i..]); if tail == [] then "" else tail[0].ref
    {
      var r := records[i];
      WithoutBlankTailOfOneMore(records, i);
      if lastRef == r.ref {
        continue;
      }
      lastRef := r.ref;
      unique := [r] + unique;
    }
    assert records[0..] == records;
    if prune {
      relevant := DropExpired(unique, now);
    } else {
      relevant := unique;
    }
  }

  method DropExpired(unique: seq<TaskRecord>, now: int) returns (relevant: seq<TaskRecord>)
    ensures relevant == OnlyCurrent(unique, now)
  {
    relevant := [];
    for i := 0 to |unique|
      invariant relevant + OnlyCurrent(unique[i..], now) == OnlyCurrent(unique, now)
    {
      var r := unique[i];
      assert unique[i..][1..] == unique[i + 1..];
      if r.expiresOn.None? || now < r.expiresOn.value {
        Assoc(relevant, [r], OnlyCurrent(unique[i + 1..], now));
        relevant := relevant + [r];
      } else {
        Empty(OnlyCurrent(unique[i + 1..], now));
      }
    }
    Empty(relevant);
  }

  /** One run: load the file written by the previous run, add records, filter, date, write. */
  method Track(input: Option<Groups>, run: Run) returns (output: Groups)
    ensures output == Step(if input.Some? then input.value else map[], run)
  {
    var t := new Tracker(input);
    AddRecords(t, run.additions);
    ghost var added := t.trustedTasks;
    t.FilterBundles(run.prune, run.clock);
    t.SetExpiration(run.inEffectDays, run.now);
    output := map g | g in t.trustedTasks :: Written(t.trustedTasks[g]);
    assert output == map g | g in added ::
             Written(Expiring(Filtered(added[g], run.prune, run.clock(g)), run.ExpiryDate()));
  }

  method AddRecords(t: Tracker, additions: seq<Addition>)
    modifies t
    ensures t.trustedTasks == AddAll(old(t.trustedTasks), additions)
  {
    for i := 0 to |additions|
      invariant t.trustedTasks == AddAll(old(t.trustedTasks), additions[..i])
    {
      assert additions[..i + 1][..i] == additions[..i];
      t.AddTrustedTaskRecord(additions[i].prefix, additions[i].Record());
    }
    assert additions[..|additions|] == additions;
  }
}
