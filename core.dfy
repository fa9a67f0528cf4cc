/**
 * The download pipeline of aura/core.py: logging in, listing a frame's assets,
 * deriving each asset's target path, and the per-asset download loop.
 *
 * The outside world is abstracted into values. The HTTP replies are inputs
 * (LoginReply, Listing); the filesystem is a set of file paths and a set of
 * directory paths (FileSys), passed in and returned; the cancellation predicate,
 * the outcome of each image fetch and write, and the directories that cannot be
 * created are oracles (World); the progress callback appends to a trace.
 */
module Core {
  import opened Wrappers
  import opened Exceptions
  import opened PyText
  import opened OsPath

  /** The only login status the program treats as success. */
  const HttpOk: int := 200

  // ---------------------------------------------------------------------------
  // Session and asset listing

  /** The parts of the login reply the program reads: the status code and,
      in the JSON body, result.current_user.id and .auth_token. */
  datatype LoginReply = LoginReply(status: int, userId: Option<string>, authToken: Option<string>)

  /** The headers an authenticated session carries. */
  datatype Session = Session(userId: string, authToken: string)

  /** create_session: a non-200 status is a LoginError; a 200 reply without the
      user id or token raises a plain KeyError, not a LoginError. */
  function CreateSession(reply: LoginReply): (r: Result<Session>)
    ensures r == Err(Aura(LoginError)) <==> reply.status != HttpOk
    ensures r == Err(Builtin(KeyError)) <==> reply.status == HttpOk && (reply.userId.None? || reply.authToken.None?)
    ensures r.Ok? <==> reply.status == HttpOk && reply.userId.Some? && reply.authToken.Some?
    ensures r.Ok? ==> reply.userId == Some(r.value.userId) && reply.authToken == Some(r.value.authToken)
  {
    if reply.status != HttpOk then Err(Aura(LoginError))
    else if reply.userId.None? || reply.authToken.None? then Err(Builtin(KeyError))
    else Ok(Session(reply.userId.value, reply.authToken.value))
  }

  /** One element of the listing's "assets" array; a key the server left out is None. */
  datatype Asset = Asset(userId: Option<string>, fileName: Option<string>, takenAt: Option<string>, id: Option<string>)

  /** The parsed listing reply: its "assets" value, or None when the key is absent. */
  datatype Listing = Listing(assets: Option<seq<Asset>>)

  /** get_frame_assets: a missing "assets" key is a NoAssetsError; an empty list is
      returned like any other. */
  function GetFrameAssets(listing: Listing): (r: Result<seq<Asset>>)
    ensures r.Err? <==> listing.assets.None?
    ensures r.Err? ==> r.failure == Aura(NoAssetsError)
    ensures r.Ok? ==> Some(r.value) == listing.assets
  {
    match listing.assets
    case None => Err(Aura(NoAssetsError))
    case Some(assets) => Ok(assets)
  }

  // ---------------------------------------------------------------------------
  // Target names and paths

  /** The timestamp with every ':' replaced by '-'. */
  function CleanTime(takenAt: string): string
  {
    Replace(takenAt, ':', '-')
  }

  /** The clean timestamp is the timestamp with each ':' turned into '-', so it has no ':'. */
  lemma CleanTimeHasNoColon(takenAt: string)
    ensures var clean := CleanTime(takenAt);
      && |clean| == |takenAt| && ':' !in clean
      && forall i :: 0 <= i < |clean| ==> clean[i] == (if takenAt[i] == ':' then '-' else takenAt[i])
  {
    ReplaceAt(takenAt, ':', '-');
  }

  /** The file name an asset is saved under: clean timestamp, '_', id, extension. */
  function TargetName(takenAt: string, id: string, fileName: string): string
  {
    CleanTime(takenAt) + "_" + id + Extension(fileName)
  }

  /** The year directory: the first four characters of the clean timestamp under the base. */
  function YearDir(base: Path, takenAt: string): Path
  {
    Join(base, SliceTo(CleanTime(takenAt), 4))
  }

  function TargetPath(base: Path, byYear: bool, takenAt: string, id: string, fileName: string): Path
  {
    var name := TargetName(takenAt, id, fileName);
    if byYear then Join(YearDir(base, takenAt), name) else Join(base, name)
  }

  /** The name is the timestamp part, "_", the id and the extension, and its
      timestamp part has no ':'. */
  lemma TargetNameShape(takenAt: string, id: string, fileName: string)
    ensures var name := TargetName(takenAt, id, fileName);
      var ext := Extension(fileName);
      && |name| == |takenAt| + 1 + |id| + |ext|
      && name[..|takenAt|] == CleanTime(takenAt)
      && ':' !in name[..|takenAt|]
      && name[|takenAt|] == '_'
      && name[|takenAt| + 1..|takenAt| + 1 + |id|] == id
      && name[|takenAt| + 1 + |id|..] == ext
      && SplitExt(fileName).0 + ext == fileName
  {
    var name := TargetName(takenAt, id, fileName);
    CleanTimeHasNoColon(takenAt);
    SplitExtShape(fileName);
    assert name[..|takenAt|] == CleanTime(takenAt);
  }

  /** A timestamp without '/' gives a clean timestamp and a year without '/'. */
  lemma CleanTimeKeepsNoSlash(takenAt: string)
    requires '/' !in takenAt
    ensures var clean := CleanTime(takenAt);
      && |clean| == |takenAt| && '/' !in clean && '/' !in SliceTo(clean, 4)
      && |SliceTo(clean, 4)| == if |takenAt| < 4 then |takenAt| else 4
  {
    var clean := CleanTime(takenAt);
    CleanTimeHasNoColon(takenAt);
    assert forall i :: 0 <= i < |clean| ==> clean[i] != '/';
    var year := SliceTo(clean, 4);
    assert forall i :: 0 <= i < |year| ==> year[i] == clean[i];
  }

  /** Organising by year changes only the directory: both layouts end with the same
      name, and for an ordinary base and timestamp the paths are base/name and
      base/year/name. */
  lemma YearLayoutChangesOnlyDirectory(base: Path, takenAt: string, id: string, fileName: string)
    ensures var name := TargetName(takenAt, id, fileName);
      && EndsWith(TargetPath(base, false, takenAt, id, fileName), name)
      && EndsWith(TargetPath(base, true, takenAt, id, fileName), name)
    ensures base != [] && base[|base| - 1] != '/' && takenAt != [] && '/' !in takenAt ==>
      var name := TargetName(takenAt, id, fileName);
      var year := SliceTo(CleanTime(takenAt), 4);
      && TargetPath(base, false, takenAt, id, fileName) == base + "/" + name
      && TargetPath(base, true, takenAt, id, fileName) == base + "/" + year + "/" + name
  {
    var name := TargetName(takenAt, id, fileName);
    JoinShape(base, name);
    JoinShape(YearDir(base, takenAt), name);
    if base != [] && base[|base| - 1] != '/' && takenAt != [] && '/' !in takenAt {
      var clean := CleanTime(takenAt);
      var year := SliceTo(clean, 4);
      CleanTimeKeepsNoSlash(takenAt);
      assert clean[0] != '/';
      assert name[0] == clean[0];
      assert year != [] && year[0] != '/' && year[|year| - 1] != '/';
      JoinShape(base, year);
      var dir := YearDir(base, takenAt);
      assert dir == base + "/" + year;
      assert dir[|dir| - 1] == year[|year| - 1];
    }
  }

  /** An ISO-8601 timestamp "<date>T<hh>:<mm>:<ss...>" has both colons turned into dashes. */
  lemma CleanTimeOfClock(hour: string, minute: string, second: string)
    requires ':' !in hour && ':' !in minute && ':' !in second
    ensures CleanTime(hour + ":" + minute + ":" + second) == hour + "-" + minute + "-" + second
  {
    ReplaceAbsent(hour, ':', '-');
    ReplaceAbsent(minute, ':', '-');
    ReplaceAbsent(second, ':', '-');
    assert Replace(":", ':', '-') == "-";
    ReplaceConcat(hour, ":", ':', '-');
    ReplaceConcat(hour + ":", minute, ':', '-');
    ReplaceConcat(hour + ":" + minute, ":", ':', '-');
    ReplaceConcat(hour + ":" + minute + ":", second, ':', '-');
  }

  /** The pieces of the name of asset id "1", taken at 2023-01-01T10:00:00Z, with
      file name a.jpg. The inputs are parameters, so that the proof works on the pieces
      of the strings instead of evaluating every function on literals. */
  lemma ExampleTargetName(takenAt: string, id: string, fileName: string)
    requires takenAt == "2023-01-01T10:00:00Z" && id == "1" && fileName == "a.jpg"
    ensures CleanTime(takenAt) == "2023-01-01T10-00-00Z"
    ensures Extension(fileName) == ".jpg"
    ensures SliceTo(CleanTime(takenAt), 4) == "2023"
  {
    var stem, suffix := "a", "jpg";
    assert stem[0] != '.';
    ExtensionOfStemAndSuffix("", stem, suffix);
    assert fileName == "" + stem + "." + suffix;
    var hour, minute, second := "2023-01-01T10", "00", "00Z";
    assert takenAt == hour + ":" + minute + ":" + second;
    CleanTimeOfClock(hour, minute, second);
  }

  /** Asset id "1", taken at 2023-01-01T10:00:00Z, file name a.jpg, saved flat
      under /out: /out/2023-01-01T10-00-00Z_1.jpg. */
  lemma ExampleFlatPath(base: Path, takenAt: string, id: string, fileName: string)
    requires base == "/out" && takenAt == "2023-01-01T10:00:00Z" && id == "1" && fileName == "a.jpg"
    ensures TargetPath(base, false, takenAt, id, fileName)
         == "/out" + "/" + ("2023-01-01T10-00-00Z" + "_" + "1" + ".jpg")
  {
    ExampleTargetName(takenAt, id, fileName);
    assert '/' !in takenAt;
    YearLayoutChangesOnlyDirectory(base, takenAt, id, fileName);
  }

  /** The same asset saved under /out organised by year:
      /out/2023/2023-01-01T10-00-00Z_1.jpg. */
  lemma ExampleYearPath(base: Path, takenAt: string, id: string, fileName: string)
    requires base == "/out" && takenAt == "2023-01-01T10:00:00Z" && id == "1" && fileName == "a.jpg"
    ensures TargetPath(base, true, takenAt, id, fileName)
         == "/out" + "/" + "2023" + "/" + ("2023-01-01T10-00-00Z" + "_" + "1" + ".jpg")
  {
    ExampleTargetName(takenAt, id, fileName);
    assert '/' !in takenAt;
    YearLayoutChangesOnlyDirectory(base, takenAt, id, fileName);
  }

  // ---------------------------------------------------------------------------
  // The world the loop runs in

  datatype FileSys = FileSys(files: set<Path>, dirs: set<Path>)

  /** How fetching and writing one image turns out: the body arrives and is written;
      the GET fails, or open() fails without creating the file (for instance
      because the id holds a '/' and the parent directory does not exist); or the
      write fails after open() created the file, leaving a partial file behind. */
  datatype Transfer = Delivered | FetchFailed | WriteFailed

  /** cancelPolls[i] is what cancel_check answers at iteration i (no cancel_check,
      or a poll past the end, answers false); transfers[i] is the fate of the image
      written at iteration i (Delivered past the end); blocked holds the directories
      os.makedirs fails to create. */
  datatype World = World(cancelPolls: seq<bool>, transfers: seq<Transfer>, blocked: set<Path>)

  /** The run's parameters that reach the loop: file_path, organize_by_year, count_only. */
  datatype Job = Job(filePath: Path, organizeByYear: bool, countOnly: bool)

  /** One call of progress_callback(current, total, filename). */
  datatype Progress = Progress(current: nat, total: nat, fileName: string)

  /** (downloaded_count, skipped_count, total_count) */
  datatype Summary = Summary(downloaded: nat, skipped: nat, total: nat)

  predicate Cancelled(world: World, i: nat)
  {
    i < |world.cancelPolls| && world.cancelPolls[i]
  }

  function TransferAt(world: World, i: nat): Transfer
  {
    if i < |world.transfers| then world.transfers[i] else Delivered
  }

  /** os.path.isdir(d) holds, or os.makedirs(d) succeeds. */
  predicate DirReady(fs: FileSys, blocked: set<Path>, d: Path)
  {
    d in fs.dirs || (d !in fs.files && d !in blocked)
  }

  predicate WellFormed(item: Asset)
  {
    item.userId.Some? && item.fileName.Some? && item.takenAt.Some? && item.id.Some?
  }

  function ItemName(item: Asset): string
    requires WellFormed(item)
  {
    TargetName(item.takenAt.value, item.id.value, item.fileName.value)
  }

  function ItemPath(job: Job, item: Asset): Path
    requires WellFormed(item)
  {
    TargetPath(job.filePath, job.organizeByYear, item.takenAt.value, item.id.value, item.fileName.value)
  }

  function ItemYearDir(job: Job, item: Asset): Path
    requires WellFormed(item)
  {
    YearDir(job.filePath, item.takenAt.value)
  }

  // ---------------------------------------------------------------------------
  // One asset

  datatype Verdict = Downloaded | Skipped | Failed

  /** What one iteration does: its verdict, the filesystem afterwards, and the
      progress calls it made (none or one). */
  datatype ItemOutcome = ItemOutcome(verdict: Verdict, fs: FileSys, emitted: seq<Progress>)

  /** The body of the try block for one asset. */
  function ProcessItem(job: Job, blocked: set<Path>, item: Asset, current: nat, total: nat,
                       fs: FileSys, transfer: Transfer): ItemOutcome
  {
    if !WellFormed(item) then ItemOutcome(Failed, fs, [])
    else
      var yearDir := ItemYearDir(job, item);
      var path := ItemPath(job, item);
      if job.organizeByYear && !DirReady(fs, blocked, yearDir) then ItemOutcome(Failed, fs, [])
      else
        var fs1 := if job.organizeByYear && yearDir !in fs.dirs
                   then FileSys(fs.files, fs.dirs + {yearDir}) else fs;
        var emitted := [Progress(current, total, ItemName(item))];
        if path in fs1.files then ItemOutcome(Skipped, fs1, emitted)
        else if transfer == FetchFailed || path in fs1.dirs then ItemOutcome(Failed, fs1, emitted)
        else
          ItemOutcome(if transfer == Delivered then Downloaded else Failed,
                      FileSys(fs1.files + {path}, fs1.dirs), emitted)
  }

  /** What one iteration promises: when progress fires, when an asset is skipped
      or downloaded, and how little of the filesystem it touches. */
  lemma ProcessItemFacts(job: Job, blocked: set<Path>, item: Asset, current: nat, total: nat,
                         fs: FileSys, transfer: Transfer, r: ItemOutcome)
    requires r == ProcessItem(job, blocked, item, current, total, fs, transfer)
    // a missing key fails the item before anything else happens
    ensures !WellFormed(item) ==> r == ItemOutcome(Failed, fs, [])
    // progress fires exactly when the name and directory were derived
    ensures |r.emitted| <= 1
    ensures r.emitted != [] <==>
      WellFormed(item) && (job.organizeByYear ==> DirReady(fs, blocked, ItemYearDir(job, item)))
    ensures r.emitted != [] ==> r.emitted == [Progress(current, total, ItemName(item))]
    ensures r.emitted == [] ==> r.verdict == Failed && r.fs == fs
    // an existing target is skipped, and nothing is written
    ensures r.verdict == Skipped <==> r.emitted != [] && ItemPath(job, item) in fs.files
    ensures r.verdict == Skipped ==> r.fs.files == fs.files
    // a download is a delivered body written to a fresh path
    ensures r.verdict == Downloaded <==>
      r.emitted != [] && ItemPath(job, item) !in fs.files && ItemPath(job, item) !in r.fs.dirs
      && transfer == Delivered
    // the filesystem only grows: at most the year directory and the target file
    ensures fs.files <= r.fs.files && fs.dirs <= r.fs.dirs
    ensures WellFormed(item) ==> r.fs.files <= fs.files + {ItemPath(job, item)}
    ensures WellFormed(item) ==> r.fs.dirs <= fs.dirs + {ItemYearDir(job, item)}
    ensures !job.organizeByYear ==> r.fs.dirs == fs.dirs
    ensures r.emitted != [] && job.organizeByYear ==> ItemYearDir(job, item) in r.fs.dirs
    ensures transfer == FetchFailed ==> r.fs.files == fs.files
    ensures r.verdict != Failed ==> ItemPath(job, item) in r.fs.files
  {
  }

  /** Whether an asset's file is on disk, with its year directory when organising by year. */
  predicate Settled(job: Job, item: Asset, fs: FileSys)
  {
    && WellFormed(item)
    && ItemPath(job, item) in fs.files
    && (job.organizeByYear ==> ItemYearDir(job, item) in fs.dirs)
  }

  /** An asset whose file is already there is skipped: no fetch, no write, whatever
      the transfer would have been. */
  lemma SettledItemIsSkipped(job: Job, blocked: set<Path>, item: Asset, current: nat, total: nat,
                             fs: FileSys, transfer: Transfer)
    requires Settled(job, item, fs)
    ensures ProcessItem(job, blocked, item, current, total, fs, transfer)
         == ItemOutcome(Skipped, fs, [Progress(current, total, ItemName(item))])
  {
  }

  // ---------------------------------------------------------------------------
  // The loop

  /** The loop's variables: downloaded_count, skipped_count, the filesystem and
      the progress calls so far. */
  datatype Tally = Tally(downloaded: nat, skipped: nat, fs: FileSys, trace: seq<Progress>)

  datatype LoopEnd = LoopEnd(cancelled: bool, tally: Tally)

  function Record(t: Tally, o: ItemOutcome): Tally
  {
    Tally(t.downloaded + (if o.verdict == Downloaded then 1 else 0),
          t.skipped + (if o.verdict == Skipped then 1 else 0),
          o.fs, t.trace + o.emitted)
  }

  /** The loop from iteration i on: a true poll at the top of an iteration stops
      it before that asset is touched; any other failure only fails the asset. */
  function RunLoop(job: Job, world: World, assets: seq<Asset>, i: nat, t: Tally): LoopEnd
    requires i <= |assets|
    decreases |assets| - i
  {
    if i == |assets| then LoopEnd(false, t)
    else if Cancelled(world, i) then LoopEnd(true, t)
    else
      var o := ProcessItem(job, world.blocked, assets[i], i + 1, |assets|, t.fs, TransferAt(world, i));
      RunLoop(job, world, assets, i + 1, Record(t, o))
  }

  /** One iteration of the loop that was not cancelled. */
  lemma RunLoopStep(job: Job, world: World, assets: seq<Asset>, i: nat, t: Tally)
    requires i < |assets| && !Cancelled(world, i)
    ensures RunLoop(job, world, assets, i, t)
         == RunLoop(job, world, assets, i + 1,
                    Record(t, ProcessItem(job, world.blocked, assets[i], i + 1, |assets|, t.fs, TransferAt(world, i))))
  {
  }

  /** What a run returns or raises, and the filesystem and progress calls it leaves. */
  datatype RunResult = RunResult(outcome: Result<Summary>, fs: FileSys, trace: seq<Progress>)

  /** The loop only adds: the counters and the trace grow, files and directories are
      never removed, and each remaining asset adds at most one to one counter, and
      only after a progress call. */
  lemma {:induction false} LoopGrows(job: Job, world: World, assets: seq<Asset>, i: nat, t: Tally)
    requires i <= |assets|
    ensures var e := RunLoop(job, world, assets, i, t).tally;
      && t.downloaded <= e.downloaded && t.skipped <= e.skipped
      && e.downloaded + e.skipped <= t.downloaded + t.skipped + (|assets| - i)
      && |t.trace| <= |e.trace| <= |t.trace| + (|assets| - i)
      && (e.downloaded - t.downloaded) + (e.skipped - t.skipped) <= |e.trace| - |t.trace|
      && e.trace[..|t.trace|] == t.trace
      && t.fs.files <= e.fs.files && t.fs.dirs <= e.fs.dirs
    decreases |assets| - i
  {
    if i < |assets| && !Cancelled(world, i) {
      var o := ProcessItem(job, world.blocked, assets[i], i + 1, |assets|, t.fs, TransferAt(world, i));
      ProcessItemFacts(job, world.blocked, assets[i], i + 1, |assets|, t.fs, TransferAt(world, i), o);
      var t' := Record(t, o);
      LoopGrows(job, world, assets, i + 1, t');
      var e := RunLoop(job, world, assets, i + 1, t').tally;
      assert e.trace[..|t.trace|] == e.trace[..|t'.trace|][..|t.trace|];
    }
  }

  /** Progress calls from iteration i on name assets i+1 .. len(assets) by their
      1-based index, in increasing order, each with total = len(assets). */
  lemma {:induction false} LoopProgress(job: Job, world: World, assets: seq<Asset>, i: nat, t: Tally)
    requires i <= |assets|
    ensures var e := RunLoop(job, world, assets, i, t).tally;
      && |t.trace| <= |e.trace|
      && (forall k :: |t.trace| <= k < |e.trace| ==>
            i < e.trace[k].current <= |assets| && e.trace[k].total == |assets|)
      && (forall k, l :: |t.trace| <= k < l < |e.trace| ==> e.trace[k].current < e.trace[l].current)
    decreases |assets| - i
  {
    if i < |assets| && !Cancelled(world, i) {
      var o := ProcessItem(job, world.blocked, assets[i], i + 1, |assets|, t.fs, TransferAt(world, i));
      ProcessItemFacts(job, world.blocked, assets[i], i + 1, |assets|, t.fs, TransferAt(world, i), o);
      var t' := Record(t, o);
      LoopProgress(job, world, assets, i + 1, t');
      LoopGrows(job, world, assets, i + 1, t');
      var e := RunLoop(job, world, assets, i + 1, t').tally;
      if o.emitted != [] {
        assert e.trace[|t.trace|] == t'.trace[|t.trace|] == Progress(i + 1, |assets|, ItemName(assets[i]));
      }
    }
  }

  /** The loop is cancelled exactly when some poll from iteration i on answers true,
      and no asset at or after a true poll is announced. */
  lemma {:induction false} LoopCancels(job: Job, world: World, assets: seq<Asset>, i: nat, t: Tally)
    requires i <= |assets|
    ensures RunLoop(job, world, assets, i, t).cancelled <==> exists k :: i <= k < |assets| && Cancelled(world, k)
    ensures var e := RunLoop(job, world, assets, i, t).tally;
      forall k :: i <= k < |assets| && Cancelled(world, k) ==>
        forall j :: |t.trace| <= j < |e.trace| ==> e.trace[j].current <= k
    decreases |assets| - i
  {
    if i < |assets| && !Cancelled(world, i) {
      var o := ProcessItem(job, world.blocked, assets[i], i + 1, |assets|, t.fs, TransferAt(world, i));
      ProcessItemFacts(job, world.blocked, assets[i], i + 1, |assets|, t.fs, TransferAt(world, i), o);
      var t' := Record(t, o);
      LoopCancels(job, world, assets, i + 1, t');
      LoopGrows(job, world, assets, i + 1, t');
      var e := RunLoop(job, world, assets, i + 1, t').tally;
      if o.emitted != [] {
        assert e.trace[|t.trace|] == t'.trace[|t.trace|];
      }
    }
  }

  /** A loop cancelled at poll k has done exactly the file and directory work, and
      counted exactly the assets, of a loop over the assets before k alone. The
      two tallies may differ in their traces, whose totals differ. */
  lemma {:induction false} CancelledLoopMatchesPrefix(job: Job, world: World, assets: seq<Asset>, k: nat,
                                                       i: nat, t1: Tally, t2: Tally)
    requires i <= k < |assets| && Cancelled(world, k)
    requires forall j :: i <= j < k ==> !Cancelled(world, j)
    requires t1.fs == t2.fs && t1.downloaded == t2.downloaded && t1.skipped == t2.skipped
    ensures var e1 := RunLoop(job, world, assets, i, t1);
      var e2 := RunLoop(job, world, assets[..k], i, t2);
      && e1.cancelled && !e2.cancelled
      && e1.tally.fs == e2.tally.fs
      && e1.tally.downloaded == e2.tally.downloaded && e1.tally.skipped == e2.tally.skipped
    decreases k - i
  {
    if i < k {
      assert assets[..k][i] == assets[i];
      var o1 := ProcessItem(job, world.blocked, assets[i], i + 1, |assets|, t1.fs, TransferAt(world, i));
      var o2 := ProcessItem(job, world.blocked, assets[..k][i], i + 1, k, t2.fs, TransferAt(world, i));
      assert o1.fs == o2.fs && o1.verdict == o2.verdict;
      RunLoopStep(job, world, assets, i, t1);
      RunLoopStep(job, world, assets[..k], i, t2);
      CancelledLoopMatchesPrefix(job, world, assets, k, i + 1, Record(t1, o1), Record(t2, o2));
    }
  }

  /** When every remaining asset was counted, each one's file (and year directory)
      is on disk at the end of the loop. */
  lemma {:induction false} FullCountSettlesAll(job: Job, world: World, assets: seq<Asset>, i: nat, t: Tally)
    requires i <= |assets|
    requires var e := RunLoop(job, world, assets, i, t);
      !e.cancelled && e.tally.downloaded + e.tally.skipped == t.downloaded + t.skipped + (|assets| - i)
    ensures var e := RunLoop(job, world, assets, i, t).tally;
      forall k :: i <= k < |assets| ==> Settled(job, assets[k], e.fs)
    decreases |assets| - i
  {
    if i < |assets| {
      assert !Cancelled(world, i);
      var o := ProcessItem(job, world.blocked, assets[i], i + 1, |assets|, t.fs, TransferAt(world, i));
      ProcessItemFacts(job, world.blocked, assets[i], i + 1, |assets|, t.fs, TransferAt(world, i), o);
      var t' := Record(t, o);
      RunLoopStep(job, world, assets, i, t);
      LoopGrows(job, world, assets, i + 1, t');
      var e := RunLoop(job, world, assets, i + 1, t');
      assert o.verdict != Failed;
      assert e.tally.downloaded + e.tally.skipped == t'.downloaded + t'.skipped + (|assets| - (i + 1));
      FullCountSettlesAll(job, world, assets, i + 1, t');
      assert Settled(job, assets[i], e.tally.fs) by {
        assert Settled(job, assets[i], o.fs);
        assert o.fs.files <= e.tally.fs.files && o.fs.dirs <= e.tally.fs.dirs;
      }
      assert RunLoop(job, world, assets, i, t) == e;
      SettledFrom(job, assets, i, e.tally.fs);
    }
  }

  lemma SettledFrom(job: Job, assets: seq<Asset>, i: nat, fs: FileSys)
    requires i < |assets| && Settled(job, assets[i], fs)
    requires forall k :: i + 1 <= k < |assets| ==> Settled(job, assets[k], fs)
    ensures forall k :: i <= k < |assets| ==> Settled(job, assets[k], fs)
  {
  }

  /** When every remaining asset is settled and nobody cancels, the loop skips them
      all and leaves the filesystem as it was. */
  lemma {:induction false} SettledLoopSkipsAll(job: Job, world: World, assets: seq<Asset>, i: nat, t: Tally)
    requires i <= |assets|
    requires forall k :: i <= k < |assets| ==> Settled(job, assets[k], t.fs)
    requires forall k :: i <= k < |assets| ==> !Cancelled(world, k)
    ensures var e := RunLoop(job, world, assets, i, t);
      && !e.cancelled && e.tally.fs == t.fs
      && e.tally.downloaded == t.downloaded && e.tally.skipped == t.skipped + (|assets| - i)
    decreases |assets| - i
  {
    if i < |assets| {
      SettledItemIsSkipped(job, world.blocked, assets[i], i + 1, |assets|, t.fs, TransferAt(world, i));
      var o := ProcessItem(job, world.blocked, assets[i], i + 1, |assets|, t.fs, TransferAt(world, i));
      SettledLoopSkipsAll(job, world, assets, i + 1, Record(t, o));
    }
  }

  /** A malformed asset is passed over: the loop goes on with the next one as if it
      had not been listed, with both counters, the files and the trace unchanged. */
  lemma MalformedAssetIsPassedOver(job: Job, world: World, assets: seq<Asset>, i: nat, t: Tally)
    requires i < |assets| && !WellFormed(assets[i]) && !Cancelled(world, i)
    ensures RunLoop(job, world, assets, i, t) == RunLoop(job, world, assets, i + 1, t)
  {
    var o := ProcessItem(job, world.blocked, assets[i], i + 1, |assets|, t.fs, TransferAt(world, i));
    assert Record(t, o) == t;
  }

  /** The summary a finished loop returns, or the cancellation it raises. */
  function Finish(e: LoopEnd, total: nat): RunResult
  {
    if e.cancelled then RunResult(Err(Aura(DownloadCancelledError)), e.tally.fs, e.tally.trace)
    else RunResult(Ok(Summary(e.tally.downloaded, e.tally.skipped, total)), e.tally.fs, e.tally.trace)
  }

  /** The filesystem once the base directory exists. */
  function WithBase(fs: FileSys, base: Path): FileSys
  {
    if base in fs.dirs then fs else FileSys(fs.files, fs.dirs + {base})
  }

  /** download_photos_from_aura, as a function of its inputs and the world. */
  function Run(job: Job, world: World, reply: LoginReply, listing: Listing, fs: FileSys): RunResult
  {
    match CreateSession(reply)
    case Err(f) => RunResult(Err(f), fs, [])
    case Ok(_) =>
      match GetFrameAssets(listing)
      case Err(f) => RunResult(Err(f), fs, [])
      case Ok(assets) =>
        if job.countOnly then RunResult(Ok(Summary(0, 0, |assets|)), fs, [])
        else if !DirReady(fs, world.blocked, job.filePath) then RunResult(Err(Builtin(OSError)), fs, [])
        else Finish(RunLoop(job, world, assets, 0, Tally(0, 0, WithBase(fs, job.filePath), [])), |assets|)
  }

  /** A run that gets past login, listing, count_only and the base directory is its loop. */
  lemma RunIsLoop(job: Job, world: World, reply: LoginReply, listing: Listing, fs: FileSys)
    requires CreateSession(reply).Ok? && listing.assets.Some?
    requires !job.countOnly && DirReady(fs, world.blocked, job.filePath)
    ensures Run(job, world, reply, listing, fs)
         == Finish(RunLoop(job, world, listing.assets.value, 0, Tally(0, 0, WithBase(fs, job.filePath), [])),
                   |listing.assets.value|)
  {
  }

  /** Login and listing failures end the run before any directory or file work. */
  lemma FatalErrorsComeFirst(job: Job, world: World, reply: LoginReply, listing: Listing, fs: FileSys)
    ensures reply.status != HttpOk ==>
      Run(job, world, reply, listing, fs) == RunResult(Err(Aura(LoginError)), fs, [])
    ensures reply.status == HttpOk && (reply.userId.None? || reply.authToken.None?) ==>
      Run(job, world, reply, listing, fs) == RunResult(Err(Builtin(KeyError)), fs, [])
    ensures CreateSession(reply).Err? ==>
      Run(job, world, reply, listing, fs) == RunResult(Err(CreateSession(reply).failure), fs, [])
    ensures CreateSession(reply).Ok? && listing.assets.None? ==>
      Run(job, world, reply, listing, fs) == RunResult(Err(Aura(NoAssetsError)), fs, [])
  {
  }

  /** count_only returns (0, 0, len(assets)) and touches neither directories nor files. */
  lemma CountOnlyTouchesNothing(job: Job, world: World, reply: LoginReply, listing: Listing, fs: FileSys)
    requires job.countOnly && CreateSession(reply).Ok? && listing.assets.Some?
    ensures Run(job, world, reply, listing, fs)
         == RunResult(Ok(Summary(0, 0, |listing.assets.value|)), fs, [])
  {
  }

  /** An empty listing is a normal run with nothing to do: (0, 0, 0), no files, at
      most the base directory created. */
  lemma EmptyListingDownloadsNothing(job: Job, world: World, reply: LoginReply, listing: Listing, fs: FileSys)
    requires CreateSession(reply).Ok? && listing.assets == Some([]) && DirReady(fs, world.blocked, job.filePath)
    ensures var r := Run(job, world, reply, listing, fs);
      && r.outcome == Ok(Summary(0, 0, 0)) && r.trace == []
      && r.fs.files == fs.files && r.fs.dirs <= fs.dirs + {job.filePath}
  {
  }

  /** A returned summary has total = len(assets) and downloaded + skipped <= total,
      and every counted asset was announced by a progress call. */
  lemma RunSummaryBounds(job: Job, world: World, reply: LoginReply, listing: Listing, fs: FileSys)
    ensures var r := Run(job, world, reply, listing, fs);
      r.outcome.Ok? ==>
        && listing.assets.Some?
        && r.outcome.value.total == |listing.assets.value|
        && r.outcome.value.downloaded + r.outcome.value.skipped <= |r.trace| <= r.outcome.value.total
  {
    if CreateSession(reply).Ok? && listing.assets.Some? && !job.countOnly
       && DirReady(fs, world.blocked, job.filePath) {
      LoopGrows(job, world, listing.assets.value, 0, Tally(0, 0, WithBase(fs, job.filePath), []));
    }
  }

  /** Every progress call of a run, finished or cancelled, carries a 1-based index
      no larger than total = len(assets), and the indices increase strictly. */
  lemma RunProgress(job: Job, world: World, reply: LoginReply, listing: Listing, fs: FileSys)
    ensures var r := Run(job, world, reply, listing, fs);
      r.trace != [] ==>
        && listing.assets.Some?
        && (forall k :: 0 <= k < |r.trace| ==>
              1 <= r.trace[k].current <= |listing.assets.value| && r.trace[k].total == |listing.assets.value|)
        && (forall k, l :: 0 <= k < l < |r.trace| ==> r.trace[k].current < r.trace[l].current)
  {
    if CreateSession(reply).Ok? && listing.assets.Some? && !job.countOnly
       && DirReady(fs, world.blocked, job.filePath) {
      LoopProgress(job, world, listing.assets.value, 0, Tally(0, 0, WithBase(fs, job.filePath), []));
    }
  }

  /** Once the loop starts, a run raises exactly when a poll answers true, and then
      raises DownloadCancelledError; no asset from the first true poll on is announced. */
  lemma CancellationIsTheOnlyLoopError(job: Job, world: World, reply: LoginReply, listing: Listing, fs: FileSys)
    requires CreateSession(reply).Ok? && listing.assets.Some?
    requires !job.countOnly && DirReady(fs, world.blocked, job.filePath)
    ensures var r := Run(job, world, reply, listing, fs);
      && (r.outcome.Err? <==> exists k :: 0 <= k < |listing.assets.value| && Cancelled(world, k))
      && (r.outcome.Err? ==> r.outcome == Err(Aura(DownloadCancelledError)))
      && (forall k :: 0 <= k < |listing.assets.value| && Cancelled(world, k) ==>
            forall j :: 0 <= j < |r.trace| ==> r.trace[j].current <= k)
  {
    LoopCancels(job, world, listing.assets.value, 0, Tally(0, 0, WithBase(fs, job.filePath), []));
  }

  /** Cancelling at the first asset raises before any progress call or file write. */
  lemma CancelAtFirstAsset(job: Job, world: World, reply: LoginReply, listing: Listing, fs: FileSys)
    requires CreateSession(reply).Ok? && listing.assets.Some? && |listing.assets.value| > 0
    requires !job.countOnly && DirReady(fs, world.blocked, job.filePath) && Cancelled(world, 0)
    ensures var r := Run(job, world, reply, listing, fs);
      && r.outcome == Err(Aura(DownloadCancelledError)) && r.trace == []
      && r.fs.files == fs.files && r.fs.dirs <= fs.dirs + {job.filePath}
  {
  }

  /** A run cancelled at its first true poll k raises DownloadCancelledError and
      leaves exactly the filesystem a run over only the assets before k leaves:
      nothing is fetched, written or created from that poll on. */
  lemma CancelledRunKeepsEarlierWorkOnly(job: Job, world: World, reply: LoginReply, listing: Listing,
                                         fs: FileSys, k: nat)
    requires CreateSession(reply).Ok? && listing.assets.Some? && k < |listing.assets.value|
    requires !job.countOnly && DirReady(fs, world.blocked, job.filePath)
    requires Cancelled(world, k) && forall j :: 0 <= j < k ==> !Cancelled(world, j)
    ensures var r := Run(job, world, reply, listing, fs);
      var before := Run(job, world, reply, Listing(Some(listing.assets.value[..k])), fs);
      && r.outcome == Err(Aura(DownloadCancelledError))
      && before.outcome.Ok?
      && r.fs == before.fs
  {
    var assets := listing.assets.value;
    var start := Tally(0, 0, WithBase(fs, job.filePath), []);
    CancelledLoopMatchesPrefix(job, world, assets, k, 0, start, start);
    RunIsLoop(job, world, reply, listing, fs);
    RunIsLoop(job, world, reply, Listing(Some(assets[..k])), fs);
  }

  /** Idempotence: after a run that downloaded or skipped every asset, a second run
      with the same replies over the filesystem it left downloads nothing, skips
      every asset and changes nothing, whatever its transfers would have been. */
  lemma RerunSkipsEverything(job: Job, first: World, second: World, reply: LoginReply, listing: Listing, fs: FileSys)
    requires !job.countOnly
    requires var r := Run(job, first, reply, listing, fs);
      r.outcome.Ok? && r.outcome.value.downloaded + r.outcome.value.skipped == r.outcome.value.total
    requires listing.assets.Some? ==> forall k :: 0 <= k < |listing.assets.value| ==> !Cancelled(second, k)
    ensures var r1 := Run(job, first, reply, listing, fs);
      var r2 := Run(job, second, reply, listing, r1.fs);
      r2.outcome == Ok(Summary(0, r1.outcome.value.total, r1.outcome.value.total)) && r2.fs == r1.fs
  {
    var assets := listing.assets.value;
    var fs1 := WithBase(fs, job.filePath);
    var start := Tally(0, 0, fs1, []);
    var e1 := RunLoop(job, first, assets, 0, start);
    LoopGrows(job, first, assets, 0, start);
    FullCountSettlesAll(job, first, assets, 0, start);
    var after := e1.tally.fs;
    assert job.filePath in after.dirs;
    assert WithBase(after, job.filePath) == after;
    SettledLoopSkipsAll(job, second, assets, 0, Tally(0, 0, after, []));
  }

  /** The try block for one asset: what it reports, writes and counts. */
  method DownloadItem(job: Job, blocked: set<Path>, item: Asset, current: nat, totalCount: nat,
                      fs0: FileSys, transfer: Transfer)
    returns (verdict: Verdict, fs: FileSys, emitted: seq<Progress>)
    ensures ItemOutcome(verdict, fs, emitted) == ProcessItem(job, blocked, item, current, totalCount, fs0, transfer)
  {
    verdict, fs, emitted := Failed, fs0, [];
    if !WellFormed(item) {
      return;
    }
    var cleanTime := CleanTime(item.takenAt.value);
    var newFilename := cleanTime + "_" + item.id.value + Extension(item.fileName.value);
    var fileToWrite;
    if job.organizeByYear {
      var yearDir := Join(job.filePath, SliceTo(cleanTime, 4));
      if yearDir !in fs.dirs {
        if yearDir in fs.files || yearDir in blocked {
          return;
        }
        fs := FileSys(fs.files, fs.dirs + {yearDir});
      }
      fileToWrite := Join(yearDir, newFilename);
    } else {
      fileToWrite := Join(job.filePath, newFilename);
    }
    emitted := [Progress(current, totalCount, newFilename)];
    if fileToWrite in fs.files {
      verdict := Skipped;
      return;
    }
    if transfer == FetchFailed || fileToWrite in fs.dirs {
      return;
    }
    fs := FileSys(fs.files + {fileToWrite}, fs.dirs);
    if transfer == Delivered {
      verdict := Downloaded;
    }
  }

  /** The for loop of download_photos_from_aura: polls for cancellation at the top
      of every iteration, then runs the try block and keeps the two counters. */
  method DownloadLoop(job: Job, world: World, assets: seq<Asset>, fs0: FileSys)
    returns (cancelled: bool, downloadedCount: nat, skippedCount: nat, fs: FileSys, trace: seq<Progress>)
    ensures LoopEnd(cancelled, Tally(downloadedCount, skippedCount, fs, trace))
         == RunLoop(job, world, assets, 0, Tally(0, 0, fs0, []))
  {
    var totalCount := |assets|;
    cancelled, downloadedCount, skippedCount, fs, trace := false, 0, 0, fs0, [];
    var i := 0;
    while i < totalCount
      invariant 0 <= i <= totalCount
      invariant RunLoop(job, world, assets, 0, Tally(0, 0, fs0, []))
             == RunLoop(job, world, assets, i, Tally(downloadedCount, skippedCount, fs, trace))
    {
      var current := i + 1;
      if Cancelled(world, i) {
        cancelled := true;
        return;
      }
      ghost var before := Tally(downloadedCount, skippedCount, fs, trace);
      var verdict, emitted;
      verdict, fs, emitted := DownloadItem(job, world.blocked, assets[i], current, totalCount, fs, TransferAt(world, i));
      trace := trace + emitted;
      if verdict == Downloaded {
        downloadedCount := downloadedCount + 1;
      } else if verdict == Skipped {
        skippedCount := skippedCount + 1;
      }
      assert Tally(downloadedCount, skippedCount, fs, trace) == Record(before, ItemOutcome(verdict, fs, emitted));
      RunLoopStep(job, world, assets, i, before);
      i := i + 1;
    }
  }

  /** download_photos_from_aura: log in, list the assets, stop early for count_only,
      create the base directory, then run the loop. */
  method DownloadPhotos(job: Job, world: World, reply: LoginReply, listing: Listing, fs0: FileSys)
    returns (outcome: Result<Summary>, fs: FileSys, trace: seq<Progress>)
    ensures RunResult(outcome, fs, trace) == Run(job, world, reply, listing, fs0)
  {
    fs, trace := fs0, [];
    var session := CreateSession(reply);
    if session.Err? {
      outcome := Err(session.failure);
      return;
    }
    var listed := GetFrameAssets(listing);
    if listed.Err? {
      outcome := Err(listed.failure);
      return;
    }
    var assets := listed.value;
    var totalCount := |assets|;
    if job.countOnly {
      outcome := Ok(Summary(0, 0, totalCount));
      return;
    }
    if job.filePath !in fs.dirs {
      if job.filePath in fs.files || job.filePath in world.blocked {
        outcome := Err(Builtin(OSError));
        return;
      }
      fs := FileSys(fs.files, fs.dirs + {job.filePath});
    }
    RunIsLoop(job, world, reply, listing, fs0);
    var cancelled, downloadedCount, skippedCount;
    cancelled, downloadedCount, skippedCount, fs, trace := DownloadLoop(job, world, assets, fs);
    if cancelled {
      outcome := Err(Aura(DownloadCancelledError));
      return;
    }
    outcome := Ok(Summary(downloadedCount, skippedCount, totalCount));
  }
}
