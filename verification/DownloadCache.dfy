/** The download cache: concurrent calls for policy sources share one download for each URL, and
    each call links it into a directory of its own. */
module DownloadCache {
  import opened Wrappers
  import opened Sequences

  /** A destination: the directory it is in, and the name made from the URL. */
  datatype Path = Path(dir: string, name: string)

  /** A file system node: a downloaded directory with its content, or a symbolic link. */
  datatype Node = Dir(content: nat) | Link(target: Path)

  type FileSystem = map<Path, Node>

  /** What the path leads to through at most one link; a path that leads nowhere does not exist. */
  function Resolve(fs: FileSystem, p: Path): Option<nat> {
    if p !in fs then None
    else match fs[p]
      case Dir(content) => Some(content)
      case Link(target) => if target in fs && fs[target].Dir? then Some(fs[target].content) else None
  }

  /** A call for a URL, with the working directory and subdirectory it is to be in. */
  datatype Call = Call(url: string, dir: string)

  datatype Failure = DownloadFailed | MkdirFailed | AlreadyThere

  datatype Progress = Starting
                    | Waiting       // holds the cached function of its URL
                    | Downloading   // is running that function
                    | Downloaded    // the function has returned without an error
                    | MakingDir     // its destination is elsewhere and does not exist
                    | Linking
                    | Succeeded(path: Path)
                    | Failed(reason: Failure)

  datatype Status = NotRun | Running | Ran(ok: bool)

  /** A cached function: it runs at most once, and downloads to the destination of the call that
      stored it. */
  datatype Once = Once(dest: Path, status: Status)

  datatype State = State(cache: map<string, Once>, fs: FileSystem, progress: seq<Progress>, downloads: seq<string>)

  datatype Step = LoadOrStore(c: nat)
                | Begin(c: nat)
                | Finish(c: nat, ok: bool, written: Option<nat>)
                | Observe(c: nat)
                | Stat(c: nat)
                | Mkdir(c: nat, ok: bool)
                | Symlink(c: nat)

  /** The calls that are made, and the name for each URL. */
  datatype System = System(calls: seq<Call>, uniqueDir: string -> string) {
    function UniqueDestination(c: nat): Path
      requires c < |calls|
    {
      Path(calls[c].dir, uniqueDir(calls[c].url))
    }

    function Init(): State {
      State(map[], map[], seq(|calls|, _ => Starting), [])
    }

    predicate At(s: State, c: nat, p: Progress) {
      c < |calls| == |s.progress| && s.progress[c] == p
    }

    predicate Cached(s: State, c: nat) {
      c < |calls| && calls[c].url in s.cache
    }

    predicate Enabled(s: State, step: Step) {
      match step
      case LoadOrStore(c) => At(s, c, Starting)
      case Begin(c) => At(s, c, Waiting) && Cached(s, c) && s.cache[calls[c].url].status == NotRun
      case Finish(c, ok, written) => At(s, c, Downloading) && Cached(s, c) && (ok ==> written.Some?)
      case Observe(c) => At(s, c, Waiting) && Cached(s, c) && s.cache[calls[c].url].status.Ran?
      case Stat(c) => At(s, c, Downloaded) && Cached(s, c)
      case Mkdir(c, _) => At(s, c, MakingDir)
      case Symlink(c) => At(s, c, Linking) && Cached(s, c)
    }

    function Next(s: State, step: Step): State
      requires Enabled(s, step)
    {
      match step
      case LoadOrStore(c) =>
        s.(cache := if calls[c].url in s.cache then s.cache else s.cache[calls[c].url := Once(UniqueDestination(c), NotRun)],
           progress := s.progress[c := Waiting])
      case Begin(c) =>
        s.(cache := s.cache[calls[c].url := s.cache[calls[c].url].(status := Running)],
           progress := s.progress[c := Downloading])
      case Finish(c, ok, written) =>
        var dest := s.cache[calls[c].url].dest;
        s.(cache := s.cache[calls[c].url := Once(dest, Ran(ok))],
           fs := if written.Some? then s.fs[dest := Dir(written.value)] else s.fs,
           progress := s.progress[c := if ok then Downloaded else Failed(DownloadFailed)],
           downloads := s.downloads + [calls[c].url])
      case Observe(c) =>
        s.(progress := s.progress[c := if s.cache[calls[c].url].status.ok then Downloaded else Failed(DownloadFailed)])
      case Stat(c) =>
        var dest, d := UniqueDestination(c), s.cache[calls[c].url].dest;
        s.(progress := s.progress[c := if Resolve(s.fs, dest).Some? then Succeeded(dest)
                                       else if dest.dir != d.dir then MakingDir
                                       else Succeeded(d)])
      case Mkdir(c, ok) =>
        s.(progress := s.progress[c := if ok then Linking else Failed(MkdirFailed)])
      case Symlink(c) =>
        var dest, d := UniqueDestination(c), s.cache[calls[c].url].dest;
        if dest in s.fs then s.(progress := s.progress[c := Failed(AlreadyThere)])
        else s.(fs := s.fs[dest := Link(d)], progress := s.progress[c := Succeeded(dest)])
    }

    // ----- what holds in every state -----

    /** No two URLs in use have the same name. */
    ghost predicate NoCollision() {
      forall c, c' | 0 <= c < |calls| && 0 <= c' < |calls| ::
        uniqueDir(calls[c].url) == uniqueDir(calls[c'].url) ==> calls[c].url == calls[c'].url
    }

    ghost predicate InUse(url: string) {
      exists c :: 0 <= c < |calls| && calls[c].url == url
    }

    predicate DownloadedFor(s: State, url: string) {
      url in s.cache && s.cache[url].status == Ran(true) && s.cache[url].dest in s.fs && s.fs[s.cache[url].dest].Dir?
    }

    /** The cached function of a URL downloads under its name, once it has run successfully the
        download is there, and it has been counted exactly if it has run. */
    ghost predicate EntryOk(s: State, url: string)
      requires url in s.cache
    {
      && InUse(url)
      && s.cache[url].dest.name == uniqueDir(url)
      && (s.cache[url].status == Ran(true) ==> DownloadedFor(s, url))
      && multiset(s.downloads)[url] == if s.cache[url].status.Ran? then 1 else 0
    }

    ghost predicate CacheOk(s: State) {
      forall url | url in s.cache :: EntryOk(s, url)
    }

    ghost predicate CountedIfCached(s: State) {
      forall url | url in s.downloads :: url in s.cache
    }

    ghost predicate LinkOk(s: State, p: Path, url: string)
      requires p in s.fs
    {
      DownloadedFor(s, url) && p.name == uniqueDir(url) && s.fs[p] == Link(s.cache[url].dest) && p.dir != s.cache[url].dest.dir
    }

    ghost predicate DirOk(s: State, p: Path, url: string) {
      url in s.cache && s.cache[url].status.Ran? && p == s.cache[url].dest
    }

    /** Every link leads to the download of the URL its name was made from, and every directory is
        where its URL was downloaded to. */
    ghost predicate FilesOk(s: State) {
      forall p | p in s.fs ::
        if s.fs[p].Link? then exists url :: LinkOk(s, p, url) else exists url :: DirOk(s, p, url)
    }

    ghost predicate CallOk(s: State, c: nat)
      requires c < |calls| == |s.progress|
    {
      var url := calls[c].url;
      match s.progress[c]
      case Starting => true
      case Waiting => url in s.cache
      case Downloading => url in s.cache && s.cache[url].status == Running
      case Downloaded => DownloadedFor(s, url)
      case MakingDir => DownloadedFor(s, url) && calls[c].dir != s.cache[url].dest.dir
      case Linking => DownloadedFor(s, url) && calls[c].dir != s.cache[url].dest.dir
      case Succeeded(path) =>
        && DownloadedFor(s, url)
        && path == UniqueDestination(c)
        && Resolve(s.fs, path) == Some(s.fs[s.cache[url].dest].content)
      case Failed(reason) =>
        match reason
        case DownloadFailed => url in s.cache && s.cache[url].status == Ran(false)
        case MkdirFailed => DownloadedFor(s, url)
        case AlreadyThere => DownloadedFor(s, url) && Resolve(s.fs, UniqueDestination(c)) == Some(s.fs[s.cache[url].dest].content)
    }

    /** Whoever runs a cached function is the only one to. */
    ghost predicate OneDownloader(s: State)
      requires |calls| == |s.progress|
    {
      && (forall c, c' | 0 <= c < |calls| && 0 <= c' < |calls| && s.progress[c].Downloading? && s.progress[c'].Downloading? ::
            calls[c].url == calls[c'].url ==> c == c')
      && (forall url | url in s.cache && s.cache[url].status == Running ::
            exists c :: 0 <= c < |calls| && calls[c].url == url && s.progress[c].Downloading?)
    }

    ghost predicate Inv(s: State) {
      && |calls| == |s.progress|
      && NoCollision()
      && CacheOk(s) && CountedIfCached(s) && FilesOk(s) && OneDownloader(s)
      && forall c | 0 <= c < |calls| :: CallOk(s, c)
    }

    lemma InitInv()
      requires NoCollision()
      ensures Inv(Init())
    {
    }

    /** What is at a destination belongs to its URL. */
    lemma OwnFile(s: State, url: string, p: Path)
      requires Inv(s) && InUse(url) && p.name == uniqueDir(url) && p in s.fs
      ensures if s.fs[p].Link? then LinkOk(s, p, url) else DirOk(s, p, url)
    {
      if s.fs[p].Link? {
        var url' :| LinkOk(s, p, url');
      } else {
        var url' :| DirOk(s, p, url');
      }
    }

    lemma FinishWritesNewFile(s: State, c: nat, ok: bool, written: Option<nat>)
      requires Inv(s) && Enabled(s, Finish(c, ok, written))
      ensures s.cache[calls[c].url].dest !in s.fs
    {
      var url := calls[c].url;
      var dest := s.cache[url].dest;
      assert CallOk(s, c);
      if dest in s.fs {
        OwnFile(s, url, dest);
      }
    }

    /** Files and completed downloads stay as they are. */
    ghost predicate Keeps(s: State, s': State) {
      && (forall p | p in s.fs :: p in s'.fs && s'.fs[p] == s.fs[p])
      && (forall url | url in s.cache :: url in s'.cache && s'.cache[url].dest == s.cache[url].dest
                                         && (s.cache[url].status.Ran? ==> s'.cache[url] == s.cache[url]))
    }

    lemma FinishKeeps(s: State, c: nat, ok: bool, written: Option<nat>)
      requires Inv(s) && Enabled(s, Finish(c, ok, written))
      ensures Keeps(s, Next(s, Finish(c, ok, written)))
    {
      FinishWritesNewFile(s, c, ok, written);
      assert CallOk(s, c);
    }

    lemma NextKeeps(s: State, step: Step)
      requires Inv(s) && Enabled(s, step)
      ensures Keeps(s, Next(s, step))
    {
      if step.Finish? {
        FinishKeeps(s, step.c, step.ok, step.written);
      }
    }

    lemma OthersStayOk(s: State, s': State, c: nat)
      requires Inv(s) && c < |calls| == |s'.progress|
      requires s'.progress[c] == s.progress[c] && Keeps(s, s')
      requires s.progress[c].Downloading? ==> calls[c].url in s'.cache && s'.cache[calls[c].url].status == Running
      ensures CallOk(s', c)
    {
      assert CallOk(s, c);
    }

    lemma ActorStaysOk(s: State, step: Step)
      requires Inv(s) && Enabled(s, step)
      ensures CallOk(Next(s, step), step.c)
    {
      NextKeeps(s, step);
      assert CallOk(s, step.c);
      match step {
        case Stat(c) =>
          if UniqueDestination(c) in s.fs {
            OwnFile(s, calls[c].url, UniqueDestination(c));
          }
        case Symlink(c) =>
          if UniqueDestination(c) in s.fs {
            OwnFile(s, calls[c].url, UniqueDestination(c));
          }
        case _ =>
      }
    }

    lemma NextInv(s: State, step: Step)
      requires Inv(s) && Enabled(s, step)
      ensures Inv(Next(s, step))
    {
      NextCacheOk(s, step);
      NextOneDownloader(s, step);
      NextFilesOk(s, step);
      NextCallsOk(s, step);
    }

    lemma NextCallsOk(s: State, step: Step)
      requires Inv(s) && Enabled(s, step)
      ensures forall c | 0 <= c < |calls| :: CallOk(Next(s, step), c)
    {
      var s' := Next(s, step);
      NextKeeps(s, step);
      forall c | 0 <= c < |calls| ensures CallOk(s', c) {
        if c == step.c {
          ActorStaysOk(s, step);
        } else {
          assert CallOk(s, c) && CallOk(s, step.c);
          OthersStayOk(s, s', c);
        }
      }
    }

    lemma NextCacheOk(s: State, step: Step)
      requires Inv(s) && Enabled(s, step)
      ensures CacheOk(Next(s, step)) && CountedIfCached(Next(s, step))
    {
      assert CallOk(s, step.c);
      forall url | url in Next(s, step).cache ensures EntryOk(Next(s, step), url) {
        NextEntryOk(s, step, url);
      }
    }

    lemma NextEntryOk(s: State, step: Step, url: string)
      requires Inv(s) && Enabled(s, step) && url in Next(s, step).cache
      ensures EntryOk(Next(s, step), url)
    {
      assert CallOk(s, step.c);
      if step.Finish? {
        FinishEntryOk(s, step.c, step.ok, step.written, url);
      } else if url in s.cache {
        assert EntryOk(s, url);
      } else {
        NotDownloaded(s, url);
      }
    }

    lemma FinishEntryOk(s: State, c: nat, ok: bool, written: Option<nat>, url: string)
      requires Inv(s) && Enabled(s, Finish(c, ok, written)) && url in s.cache
      ensures EntryOk(Next(s, Finish(c, ok, written)), url)
    {
      assert CallOk(s, c) && EntryOk(s, url);
      FinishKeeps(s, c, ok, written);
      ConcatMultiplicity(s.downloads, [calls[c].url], url);
    }

    lemma NotDownloaded(s: State, url: string)
      requires CountedIfCached(s) && url !in s.cache
      ensures multiset(s.downloads)[url] == 0
    {
      assert url !in s.downloads;
      assert url !in multiset(s.downloads);
    }

    lemma NextOneDownloader(s: State, step: Step)
      requires Inv(s) && Enabled(s, step)
      ensures OneDownloader(Next(s, step))
    {
      assert CallOk(s, step.c);
      var s' := Next(s, step);
      forall c, c' | 0 <= c < |calls| && 0 <= c' < |calls| && s'.progress[c].Downloading? && s'.progress[c'].Downloading?
        ensures calls[c].url == calls[c'].url ==> c == c'
      {
        assert CallOk(s, c) && CallOk(s, c');
      }
      forall url | url in s'.cache && s'.cache[url].status == Running
        ensures exists c :: 0 <= c < |calls| && calls[c].url == url && s'.progress[c].Downloading?
      {
        if url in s.cache && s.cache[url].status == Running {
          var c :| 0 <= c < |calls| && calls[c].url == url && s.progress[c].Downloading?;
          assert s'.progress[c].Downloading?;
        } else {
          assert s'.progress[step.c].Downloading?;
        }
      }
    }

    lemma NextFilesOk(s: State, step: Step)
      requires Inv(s) && Enabled(s, step)
      ensures FilesOk(Next(s, step))
    {
      var s' := Next(s, step);
      NextKeeps(s, step);
      assert CallOk(s, step.c);
      forall p | p in s'.fs
        ensures if s'.fs[p].Link? then exists url :: LinkOk(s', p, url) else exists url :: DirOk(s', p, url)
      {
        if p in s.fs {
          if s.fs[p].Link? {
            var url :| LinkOk(s, p, url);
            assert LinkOk(s', p, url);
          } else {
            var url :| DirOk(s, p, url);
            assert DirOk(s', p, url);
          }
        } else if s'.fs[p].Link? {
          assert LinkOk(s', p, calls[step.c].url);
        } else {
          assert DirOk(s', p, calls[step.c].url);
        }
      }
    }

    // ----- every run comes to an end -----

    function Weight(p: Progress): nat {
      match p
      case Starting => 6
      case Waiting => 5
      case Downloading => 4
      case Downloaded => 3
      case MakingDir => 2
      case Linking => 1
      case _ => 0
    }

    function Remaining(progress: seq<Progress>): nat {
      if progress == [] then 0 else Weight(progress[0]) + Remaining(progress[1..])
    }

    lemma {:induction false} RemainingUpdate(progress: seq<Progress>, c: nat, p: Progress)
      requires c < |progress|
      ensures Remaining(progress[c := p]) + Weight(progress[c]) == Remaining(progress) + Weight(p)
    {
      if c == 0 {
        assert progress[0 := p][1..] == progress[1..];
      } else {
        RemainingUpdate(progress[1..], c - 1, p);
        assert progress[c := p][1..] == progress[1..][c - 1 := p];
      }
    }

    lemma RemainingDecreases(s: State, step: Step)
      requires Enabled(s, step)
      ensures Remaining(Next(s, step).progress) < Remaining(s.progress)
    {
      RemainingUpdate(s.progress, step.c, Next(s, step).progress[step.c]);
    }

    lemma {:induction false} RemainingAtStart(n: nat)
      ensures Remaining(seq(n, _ => Starting)) == 6 * n
    {
      if n > 0 {
        RemainingAtStart(n - 1);
        assert seq(n, _ => Starting)[1..] == seq(n - 1, _ => Starting);
      }
    }

    predicate Finished(p: Progress) {
      p.Succeeded? || p.Failed?
    }

    /** Until a call has finished, it or the one that downloads for it can go on. */
    lemma SomeoneCanGoOn(s: State, c: nat) returns (step: Step)
      requires Inv(s) && c < |calls| && !Finished(s.progress[c])
      ensures Enabled(s, step)
    {
      assert CallOk(s, c);
      var url := calls[c].url;
      match s.progress[c] {
        case Starting => step := LoadOrStore(c);
        case Waiting =>
          match s.cache[url].status {
            case NotRun => step := Begin(c);
            case Running =>
              var c': nat :| c' < |calls| && calls[c'].url == url && s.progress[c'].Downloading?;
              step := Finish(c', false, None);
            case Ran(_) => step := Observe(c);
          }
        case Downloading => step := Finish(c, false, None);
        case Downloaded => step := Stat(c);
        case MakingDir => step := Mkdir(c, true);
        case Linking => step := Symlink(c);
      }
    }

    /** Every run ends after at most six steps for each call, and where it cannot go on, all calls
        have finished. */
    lemma BehavioursTerminate(states: seq<State>)
      requires NoCollision() && Behaviour(states)
      ensures |states| <= 6 * |calls| + 1
      ensures var last := states[|states| - 1];
              (forall step :: !Enabled(last, step)) ==>
                |last.progress| == |calls| && forall c | 0 <= c < |calls| :: Finished(last.progress[c])
    {
      var last := states[|states| - 1];
      BehaviourInv(states, |states| - 1);
      RemainingAtStart(|calls|);
      if c :| 0 <= c < |calls| && !Finished(last.progress[c]) {
        var step := SomeoneCanGoOn(last, c);
      }
    }

    // ----- whole runs, under any interleaving -----

    ghost predicate Moves(s: State, s': State) {
      exists step :: Enabled(s, step) && s' == Next(s, step)
    }

    ghost predicate Behaviour(states: seq<State>) {
      && states != [] && states[0] == Init()
      && forall k | 0 <= k < |states| - 1 :: Moves(states[k], states[k + 1])
    }

    lemma MovesInv(s: State, s': State)
      requires Inv(s) && Moves(s, s')
      ensures Inv(s') && Remaining(s'.progress) < Remaining(s.progress)
    {
      var step :| Enabled(s, step) && s' == Next(s, step);
      NextInv(s, step);
      RemainingDecreases(s, step);
    }

    lemma {:induction false} BehaviourInv(states: seq<State>, k: nat)
      requires NoCollision() && Behaviour(states) && k < |states|
      ensures Inv(states[k])
      ensures Remaining(states[k].progress) + k <= Remaining(Init().progress)
    {
      if k == 0 {
        InitInv();
      } else {
        BehaviourInv(states, k - 1);
        assert Moves(states[k - 1], states[k - 1 + 1]);
        MovesInv(states[k - 1], states[k]);
      }
    }

    /** In every run each URL is downloaded at most once, and a call that succeeds returns its own
        destination, which leads through at most one link to what that download wrote. */
    lemma SuccessfulCallsShareOneDownload(states: seq<State>, c: nat)
      requires NoCollision() && Behaviour(states) && c < |calls|
      ensures var last := states[|states| - 1];
              && |last.progress| == |calls|
              && multiset(last.downloads)[calls[c].url] <= 1
              && (last.progress[c].Succeeded? ==>
                    && last.progress[c].path == UniqueDestination(c)
                    && multiset(last.downloads)[calls[c].url] == 1
                    && DownloadedFor(last, calls[c].url)
                    && last.cache[calls[c].url].dest.name == UniqueDestination(c).name
                    && Resolve(last.fs, UniqueDestination(c)) == Some(last.fs[last.cache[calls[c].url].dest].content))
    {
      BehaviourInv(states, |states| - 1);
      var last := states[|states| - 1];
      assert CallOk(last, c);
      if calls[c].url !in last.cache {
        assert calls[c].url !in last.downloads;
        assert calls[c].url !in multiset(last.downloads);
      }
    }

    /** Once a call has its destination, every later step leaves there what was downloaded. */
    lemma DestinationsStay(s: State, step: Step, c: nat)
      requires Inv(s) && Enabled(s, step) && c < |calls| && s.progress[c].Succeeded?
      ensures Next(s, step).progress[c] == s.progress[c]
      ensures Resolve(Next(s, step).fs, UniqueDestination(c)) == Resolve(s.fs, UniqueDestination(c))
    {
      SucceededStays(s, step, c);
      NextKeeps(s, step);
      SucceededIsThere(s, c);
      ResolveStays(s, Next(s, step), UniqueDestination(c));
    }

    lemma SucceededStays(s: State, step: Step, c: nat)
      requires Enabled(s, step) && c < |s.progress| && s.progress[c].Succeeded?
      ensures step.c != c && c < |Next(s, step).progress| && Next(s, step).progress[c] == s.progress[c]
    {
    }

    lemma SucceededIsThere(s: State, c: nat)
      requires Inv(s) && c < |calls| && s.progress[c].Succeeded?
      ensures Resolve(s.fs, UniqueDestination(c)).Some?
    {
      assert CallOk(s, c);
    }

    lemma ResolveStays(s: State, s': State, p: Path)
      requires Keeps(s, s') && Resolve(s.fs, p).Some?
      ensures Resolve(s'.fs, p) == Resolve(s.fs, p)
    {
    }

    /** A call fails although the download succeeded only if its directory cannot be made, or if
        what it wanted to put there is there already. */
    lemma FailuresExplained(states: seq<State>, c: nat)
      requires NoCollision() && Behaviour(states) && c < |calls|
      ensures var last := states[|states| - 1];
              |last.progress| == |calls| && (last.progress[c].Failed? ==>
                match last.progress[c].reason
                case DownloadFailed => calls[c].url in last.cache && last.cache[calls[c].url].status == Ran(false)
                case MkdirFailed => DownloadedFor(last, calls[c].url)
                case AlreadyThere => DownloadedFor(last, calls[c].url)
                                     && Resolve(last.fs, UniqueDestination(c)) == Some(last.fs[last.cache[calls[c].url].dest].content))
    {
      BehaviourInv(states, |states| - 1);
      assert CallOk(states[|states| - 1], c);
    }

    // ----- when a call can fail although the download succeeded -----

    /** A call for the same destination. */
    predicate Twin(c: nat, c': nat) {
      c < |calls| && c' < |calls| && c != c' && calls[c] == calls[c']
    }

    /** A call for the same URL in another directory. */
    predicate Stranger(c: nat, c': nat) {
      c < |calls| && c' < |calls| && calls[c].url == calls[c'].url && calls[c].dir != calls[c'].dir
    }

    ghost predicate HasTwin(c: nat) {
      exists c' :: Twin(c, c')
    }

    ghost predicate HasStranger(c: nat) {
      exists c' :: Stranger(c, c')
    }

    ghost predicate LinkOwned(s: State, p: Path) {
      exists c :: 0 <= c < |calls| == |s.progress| && s.progress[c] == Succeeded(p) && UniqueDestination(c) == p
    }

    ghost predicate DestOwned(s: State, url: string)
      requires url in s.cache
    {
      exists c :: 0 <= c < |calls| && calls[c].url == url && s.cache[url].dest == UniqueDestination(c)
    }

    /** Every link was made by a call that succeeded, every download goes to a call's own
        destination, and calls fail for a reason. */
    ghost predicate Owned(s: State) {
      && |calls| == |s.progress|
      && (forall p | p in s.fs && s.fs[p].Link? :: LinkOwned(s, p))
      && (forall url | url in s.cache :: DestOwned(s, url))
      && FailuresOwned(s)
    }

    /** Only linking makes a link, and the call that does it has succeeded. */
    lemma NewLinkOwned(s: State, step: Step, p: Path)
      requires Enabled(s, step) && p in Next(s, step).fs && Next(s, step).fs[p].Link?
      ensures (p in s.fs && s.fs[p].Link?) || LinkOwned(Next(s, step), p)
    {
      if step.Symlink? && p == UniqueDestination(step.c) && p !in s.fs {
        assert Next(s, step).progress[step.c] == Succeeded(p);
      }
    }

    lemma OldLinkOwned(s: State, step: Step, p: Path)
      requires Enabled(s, step) && LinkOwned(s, p)
      ensures LinkOwned(Next(s, step), p)
    {
      var c :| 0 <= c < |calls| && s.progress[c] == Succeeded(p) && UniqueDestination(c) == p;
      SucceededStays(s, step, c);
      assert |Next(s, step).progress| == |s.progress|;
    }

    lemma NextLinksOwned(s: State, step: Step)
      requires Enabled(s, step) && forall p | p in s.fs && s.fs[p].Link? :: LinkOwned(s, p)
      ensures forall p | p in Next(s, step).fs && Next(s, step).fs[p].Link? :: LinkOwned(Next(s, step), p)
    {
      forall p | p in Next(s, step).fs && Next(s, step).fs[p].Link? ensures LinkOwned(Next(s, step), p) {
        NewLinkOwned(s, step, p);
        if p in s.fs && s.fs[p].Link? {
          OldLinkOwned(s, step, p);
        }
      }
    }

    lemma NextDestsOwned(s: State, step: Step)
      requires Enabled(s, step) && forall url | url in s.cache :: DestOwned(s, url)
      ensures forall url | url in Next(s, step).cache :: DestOwned(Next(s, step), url)
    {
      var s' := Next(s, step);
      forall url | url in s'.cache ensures DestOwned(s', url) {
        if url in s.cache {
          var c :| 0 <= c < |calls| && calls[c].url == url && s.cache[url].dest == UniqueDestination(c);
          assert s'.cache[url].dest == UniqueDestination(c);
        } else {
          assert s'.cache[url].dest == UniqueDestination(step.c);
        }
      }
    }

    /** A call that has to link has a stranger, which made the download. */
    lemma LinkingHasStranger(s: State, c: nat)
      requires Inv(s) && Owned(s) && c < |calls| && (s.progress[c].MakingDir? || s.progress[c].Linking?)
      ensures HasStranger(c)
    {
      assert CallOk(s, c);
      var url := calls[c].url;
      assert DestOwned(s, url);
      var c' :| 0 <= c' < |calls| && calls[c'].url == url && s.cache[url].dest == UniqueDestination(c');
      assert Stranger(c, c');
    }

    /** If its destination is there already, a twin has linked it. */
    lemma LinkedHasTwin(s: State, c: nat)
      requires Inv(s) && Owned(s) && c < |calls| && s.progress[c].Linking? && UniqueDestination(c) in s.fs
      ensures HasTwin(c)
    {
      assert CallOk(s, c);
      var p := UniqueDestination(c);
      OwnFile(s, calls[c].url, p);
      assert s.fs[p].Link?;
      var c' :| 0 <= c' < |calls| && s.progress[c'] == Succeeded(p) && UniqueDestination(c') == p;
      assert Twin(c, c');
    }

    ghost predicate FailuresOwned(s: State)
      requires |calls| == |s.progress|
    {
      && (forall c | 0 <= c < |calls| && s.progress[c] == Failed(AlreadyThere) :: HasTwin(c) && HasStranger(c))
      && (forall c | 0 <= c < |calls| && s.progress[c] == Failed(MkdirFailed) :: HasStranger(c))
    }

    /** A call fails for want of a directory or because something is there only in these two steps. */
    lemma NextFailure(s: State, step: Step, c: nat)
      requires Enabled(s, step) && c < |calls| && c < |Next(s, step).progress|
      requires var p := Next(s, step).progress[c]; p == Failed(AlreadyThere) || p == Failed(MkdirFailed)
      ensures || s.progress[c] == Next(s, step).progress[c]
              || (step == Symlink(c) && Next(s, step).progress[c] == Failed(AlreadyThere) && UniqueDestination(c) in s.fs)
              || (step.Mkdir? && step.c == c && Next(s, step).progress[c] == Failed(MkdirFailed))
    {
    }

    lemma NextFailuresOwned(s: State, step: Step)
      requires Inv(s) && Enabled(s, step) && Owned(s)
      ensures |Next(s, step).progress| == |calls| && FailuresOwned(Next(s, step))
    {
      var s' := Next(s, step);
      forall c | 0 <= c < |calls| && (s'.progress[c] == Failed(AlreadyThere) || s'.progress[c] == Failed(MkdirFailed))
        ensures HasStranger(c) && (s'.progress[c] == Failed(AlreadyThere) ==> HasTwin(c))
      {
        NextFailure(s, step, c);
        if s.progress[c] != s'.progress[c] {
          LinkingHasStranger(s, c);
          if step.Symlink? {
            LinkedHasTwin(s, c);
          }
        }
      }
    }

    lemma NextOwned(s: State, step: Step)
      requires Inv(s) && Enabled(s, step) && Owned(s)
      ensures Owned(Next(s, step))
    {
      NextLinksOwned(s, step);
      NextDestsOwned(s, step);
      NextFailuresOwned(s, step);
    }

    lemma MovesOwned(s: State, s': State)
      requires Inv(s) && Owned(s) && Moves(s, s')
      ensures Owned(s')
    {
      var step :| Enabled(s, step) && s' == Next(s, step);
      NextOwned(s, step);
    }

    lemma InitOwned()
      ensures Owned(Init())
    {
    }

    lemma {:induction false} BehaviourOwned(states: seq<State>, k: nat)
      requires NoCollision() && Behaviour(states) && k < |states|
      ensures Owned(states[k])
    {
      if k == 0 {
        InitOwned();
      } else {
        BehaviourOwned(states, k - 1);
        BehaviourInv(states, k - 1);
        assert Moves(states[k - 1], states[k - 1 + 1]);
        MovesOwned(states[k - 1], states[k]);
      }
    }

    // ----- runs in which it does -----

    ghost predicate Reachable(s: State) {
      exists states :: Behaviour(states) && states[|states| - 1] == s
    }

    lemma ReachNext(s: State, s': State)
      requires Reachable(s) && Moves(s, s')
      ensures Reachable(s')
    {
      var states :| Behaviour(states) && states[|states| - 1] == s;
      assert Behaviour(states + [s']);
    }

    lemma Reach(s: State, step: Step)
      requires Reachable(s) && Enabled(s, step)
      ensures Reachable(Next(s, step))
    {
      ReachNext(s, Next(s, step));
    }

    lemma InitReachable()
      ensures Reachable(Init())
    {
      assert Behaviour([Init()]);
    }

    /** The state in which the stranger has downloaded, and nobody else has started. */
    function StrangersDownload(x: nat): State
      requires x < |calls|
    {
      State(map[calls[x].url := Once(UniqueDestination(x), Ran(true))], map[UniqueDestination(x) := Dir(0)],
            Init().progress[x := Downloaded], [calls[x].url])
    }

    lemma StrangerDownloads(x: nat)
      requires x < |calls|
      ensures Reachable(StrangersDownload(x))
    {
      InitReachable();
      var s1 := Next(Init(), LoadOrStore(x));
      Reach(Init(), LoadOrStore(x));
      assert At(s1, x, Waiting);
      var s2 := Next(s1, Begin(x));
      Reach(s1, Begin(x));
      assert At(s2, x, Downloading);
      Reach(s2, Finish(x, true, Some(0)));
      assert Next(s2, Finish(x, true, Some(0))) == StrangersDownload(x);
    }

    /** A call whose destination is not there, in another directory than the download, can get as
        far as making its directory. */
    lemma GetsToMakingDir(s: State, c: nat)
      requires Reachable(s) && At(s, c, Starting) && DownloadedFor(s, calls[c].url)
      requires UniqueDestination(c) !in s.fs && calls[c].dir != s.cache[calls[c].url].dest.dir
      ensures Reachable(s.(progress := s.progress[c := MakingDir]))
    {
      var s1 := Next(s, LoadOrStore(c));
      Reach(s, LoadOrStore(c));
      assert At(s1, c, Waiting) && s1.cache == s.cache;
      var s2 := Next(s1, Observe(c));
      Reach(s1, Observe(c));
      assert At(s2, c, Downloaded) && s2.cache == s.cache && s2.fs == s.fs;
      Reach(s2, Stat(c));
      assert Next(s2, Stat(c)) == s.(progress := s.progress[c := MakingDir]);
    }

    lemma GetsToLinking(s: State, c: nat)
      requires Reachable(s) && At(s, c, Starting) && DownloadedFor(s, calls[c].url)
      requires UniqueDestination(c) !in s.fs && calls[c].dir != s.cache[calls[c].url].dest.dir
      ensures Reachable(s.(progress := s.progress[c := Linking]))
    {
      GetsToMakingDir(s, c);
      var s' := s.(progress := s.progress[c := MakingDir]);
      Reach(s', Mkdir(c, true));
      assert Next(s', Mkdir(c, true)) == s.(progress := s.progress[c := Linking]);
    }

    /** Of two calls for the same destination that are both about to link it, the second fails. */
    lemma LosingTheRaceFails(s: State, c: nat, c': nat)
      requires Inv(s) && At(s, c, Linking) && At(s, c', Linking) && c != c'
      requires UniqueDestination(c) == UniqueDestination(c')
      ensures Enabled(s, Symlink(c)) && Enabled(Next(s, Symlink(c)), Symlink(c'))
      ensures Next(Next(s, Symlink(c)), Symlink(c')).progress[c'] == Failed(AlreadyThere)
    {
      assert CallOk(s, c) && CallOk(s, c');
    }

    lemma ReachableInv(s: State)
      requires NoCollision() && Reachable(s)
      ensures Inv(s) && Owned(s)
    {
      var states :| Behaviour(states) && states[|states| - 1] == s;
      BehaviourInv(states, |states| - 1);
      BehaviourOwned(states, |states| - 1);
    }

    lemma TwinsRace(c: nat, twin: nat, x: nat)
      requires NoCollision() && Twin(c, twin) && Stranger(c, x)
      ensures exists s :: Reachable(s) && At(s, c, Failed(AlreadyThere))
    {
      StrangerDownloads(x);
      var s := StrangersDownload(x);
      GetsToLinking(s, twin);
      var s1 := s.(progress := s.progress[twin := Linking]);
      GetsToLinking(s1, c);
      var s2 := s1.(progress := s1.progress[c := Linking]);
      ReachableInv(s2);
      LosingTheRaceFails(s2, twin, c);
      Reach(s2, Symlink(twin));
      var s3 := Next(s2, Symlink(twin));
      Reach(s3, Symlink(c));
      assert At(Next(s3, Symlink(c)), c, Failed(AlreadyThere));
    }

    /** A call can fail because its destination is there already if and only if there are another
        call for the same destination and one for the same URL in another directory. */
    lemma AlreadyThereIff(c: nat)
      requires NoCollision() && c < |calls|
      ensures (exists s :: Reachable(s) && At(s, c, Failed(AlreadyThere))) <==> HasTwin(c) && HasStranger(c)
    {
      if s :| Reachable(s) && At(s, c, Failed(AlreadyThere)) {
        ReachableInv(s);
      }
      if HasTwin(c) && HasStranger(c) {
        var twin :| Twin(c, twin);
        var x :| Stranger(c, x);
        TwinsRace(c, twin, x);
      }
    }

    /** A call can fail because its directory cannot be made if and only if there is a call for the
        same URL in another directory. */
    lemma MkdirFailedIff(c: nat)
      requires NoCollision() && c < |calls|
      ensures (exists s :: Reachable(s) && At(s, c, Failed(MkdirFailed))) <==> HasStranger(c)
    {
      if s :| Reachable(s) && At(s, c, Failed(MkdirFailed)) {
        ReachableInv(s);
      }
      if HasStranger(c) {
        var x :| Stranger(c, x);
        StrangerDownloads(x);
        var s := StrangersDownload(x);
        GetsToMakingDir(s, c);
        var s' := s.(progress := s.progress[c := MakingDir]);
        Reach(s', Mkdir(c, false));
        assert At(Next(s', Mkdir(c, false)), c, Failed(MkdirFailed));
      }
    }
  }
}
