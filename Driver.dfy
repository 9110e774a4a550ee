/**
 * The control flow of `downloadManga`: load the ledger, then for each entry
 * of the volume mapping in order, skip it if the ledger lists it as
 * completed, otherwise acquire each of its chapters that is neither in the
 * ledger nor missing from the catalog, and then assemble the volume whatever
 * the chapters' outcomes were.  The run ends early when the process does:
 * at a chapter archive that the volume assembly cannot open.
 *
 * What the outside world does is a `World` value: each I/O call becomes a
 * lookup of its outcome, keyed by what the call is about.
 */
module Driver {
  import opened Wrappers
  import opened Retry
  import opened Archives
  import opened Ledger
  import opened Metadata
  import opened Acquisition
  import opened Assembly

  /** `i` is the first index of `catalog` whose entry is called `name`. */
  predicate IsFirstMatch(catalog: seq<CatalogEntry>, name: string, i: int)
  {
    0 <= i < |catalog| && catalog[i].name == name && forall j :: 0 <= j < i ==> catalog[j].name != name
  }

  /** `chapters.find((ch) => ch.name === name)`. */
  function FindChapter(catalog: seq<CatalogEntry>, name: string): (r: Option<CatalogEntry>)
    ensures r.None? <==> forall i :: 0 <= i < |catalog| ==> catalog[i].name != name
    ensures r.Some? ==> exists i :: IsFirstMatch(catalog, name, i) && catalog[i] == r.value
  {
    if catalog == [] then None
    else if catalog[0].name == name then (assert IsFirstMatch(catalog, name, 0); Some(catalog[0]))
    else
      var r := FindChapter(catalog[1..], name);
      assert r.None? ==> forall i :: 1 <= i < |catalog| ==> catalog[i].name != name by {
        if r.None? {
          forall i | 1 <= i < |catalog| ensures catalog[i].name != name { assert catalog[1..][i - 1] == catalog[i]; }
        }
      }
      assert r.Some? ==> exists i :: IsFirstMatch(catalog, name, i) && catalog[i] == r.value by {
        if r.Some? {
          var i :| IsFirstMatch(catalog[1..], name, i) && catalog[1..][i] == r.value;
          forall j | 0 <= j < i + 1 ensures catalog[j].name != name {
            if j > 0 { assert catalog[1..][j - 1] == catalog[j]; }
          }
          assert IsFirstMatch(catalog, name, i + 1) && catalog[i + 1] == r.value;
        }
      }
      r
  }

  /**
   * The outcomes of the I/O calls of a run.  `startOk` is whether the three
   * output directories could be created and the browser for the chapter
   * list launched and closed; a failure there ends the run in the outer
   * `catch` before any volume.
   */
  datatype World = World(
    startOk: bool,
    catalog: seq<CatalogEntry>,                     // getChapterLinks, [] after an error
    images: string -> seq<string>,                  // getChapterImages by chapter URL, [] after the last attempt
    fetches: string -> seq<seq<bool>>,              // by chapter name: per page, per attempt
    chapterPack: string -> seq<bool>,               // by chapter name: createCBZ attempts
    volumeSetup: string -> bool,                    // by volume: its two staging directories
    extractOk: (string, string) -> bool,            // by volume and chapter: unzip and listing
    renameFault: (string, string) -> Option<nat>,   // by volume and chapter: the kept page whose rename throws
    cleanupOk: (string, string) -> bool,            // by volume and chapter: removing the chapter directory
    volumePack: string -> seq<bool>)                // by volume: createCBZ attempts

  /** What the volume loop sees of a chapter archive `a` when it unzips it. */
  function ExtractionOf(world: World, volume: string, chapter: string, a: Archive): Extraction
  {
    if world.extractOk(volume, chapter) then
      Extracted(Entries(a), world.renameFault(volume, chapter), world.cleanupOk(volume, chapter))
    else ExtractFailed
  }

  /**
   * The extraction of each chapter of a volume from the chapter archives on
   * disk.  Opening a missing archive fails in the read stream, which is not
   * the stream the error listener is attached to.  The ensures spell out
   * each element so that callers need not unfold the comprehension.
   */
  function VolumeExtractions(world: World, volume: string, chapters: seq<string>, cbz: map<string, Archive>): (io: seq<Extraction>)
    ensures |io| == |chapters|
    ensures forall k :: 0 <= k < |chapters| ==>
      io[k] == if chapters[k] in cbz then ExtractionOf(world, volume, chapters[k], cbz[chapters[k]]) else ArchiveMissing
  {
    seq(|chapters|, k requires 0 <= k < |chapters| =>
      if chapters[k] in cbz then ExtractionOf(world, volume, chapters[k], cbz[chapters[k]]) else ArchiveMissing)
  }

  // ---------------------------------------------------------------------
  // The chapter loop of one volume.

  datatype ChapterStep =
    | AlreadyDownloaded(name: string)
    | NotInCatalog(name: string)
    | Acquired(name: string, entry: CatalogEntry, outcome: ChapterOutcome)

  /** The chapters a sequence of steps packed, in order. */
  function PackedNames(steps: seq<ChapterStep>): (ns: seq<string>)
    ensures |ns| <= |steps|
  {
    if steps == [] then []
    else
      var n := |steps| - 1;
      PackedNames(steps[..n]) + (if PackedStep(steps[n]) then [steps[n].name] else [])
  }

  /** The outcome of acquiring catalog entry `entry` for volume `volume`. */
  predicate AcquisitionOutcome(world: World, volume: string, mangaTitle: string, entry: CatalogEntry, outcome: ChapterOutcome)
  {
    var images := world.images(entry.url);
    (outcome.NoImages? <==> images == []) &&
    (outcome.DownloadFailed? ==>
      outcome.page < |images| && !PageFetched(world.fetches(entry.name), outcome.page) &&
      forall i :: 0 <= i < outcome.page ==> PageFetched(world.fetches(entry.name), i)) &&
    (outcome.PackFailed? ==>
      images != [] && (forall i :: 0 <= i < |images| ==> PageFetched(world.fetches(entry.name), i)) &&
      !Succeeds(world.chapterPack(entry.name), DefaultRetries)) &&
    (outcome.Packed? <==>
      images != [] && (forall i :: 0 <= i < |images| ==> PageFetched(world.fetches(entry.name), i)) &&
      Succeeds(world.chapterPack(entry.name), DefaultRetries)) &&
    (outcome.Packed? ==> outcome.archive == ChapterArchive(entry.name, volume, mangaTitle, images))
  }

  /**
   * One turn of the chapter loop, given the chapters the ledger lists at
   * its start: a listed chapter is skipped, then one missing from the
   * catalog, and every other chapter is acquired from its first catalog
   * match.
   */
  predicate ChapterTurn(world: World, volume: string, mangaTitle: string, name: string, downloaded: seq<string>, step: ChapterStep)
  {
    var found := FindChapter(world.catalog, name);
    step.name == name &&
    (step.AlreadyDownloaded? <==> name in downloaded) &&
    (step.NotInCatalog? <==> name !in downloaded && found.None?) &&
    (step.Acquired? ==> found.Some? && step.entry == found.value && AcquisitionOutcome(world, volume, mangaTitle, step.entry, step.outcome))
  }

  /** Every turn of a chapter loop, each seeing what the earlier turns packed. */
  predicate ChapterTurns(world: World, volume: string, mangaTitle: string, chapters: seq<string>, downloaded: seq<string>, steps: seq<ChapterStep>)
    decreases |steps|
  {
    |steps| == |chapters| &&
    (steps != [] ==>
      var n := |steps| - 1;
      ChapterTurns(world, volume, mangaTitle, chapters[..n], downloaded, steps[..n]) &&
      ChapterTurn(world, volume, mangaTitle, chapters[n], downloaded + PackedNames(steps[..n]), steps[n]))
  }

  /** Turn `k` of the loop saw the chapters listed at the start and those packed by turns `0 .. k-1`. */
  lemma {:induction false} ChapterTurnAt(world: World, volume: string, mangaTitle: string, chapters: seq<string>, downloaded: seq<string>,
                                         steps: seq<ChapterStep>, k: nat)
    requires ChapterTurns(world, volume, mangaTitle, chapters, downloaded, steps) && k < |steps|
    ensures ChapterTurn(world, volume, mangaTitle, chapters[k], downloaded + PackedNames(steps[..k]), steps[k])
    decreases |steps|
  {
    var n := |steps| - 1;
    if k < n {
      ChapterTurnAt(world, volume, mangaTitle, chapters[..n], downloaded, steps[..n], k);
      assert steps[..n][..k] == steps[..k];
    }
  }

  lemma PackedNamesSnoc(steps: seq<ChapterStep>, s: ChapterStep)
    ensures PackedNames(steps + [s]) == PackedNames(steps) + (if PackedStep(s) then [s.name] else [])
  {
    assert (steps + [s])[..|steps|] == steps;
  }

  lemma {:induction false} PackedNamesMember(steps: seq<ChapterStep>, k: nat)
    requires k < |steps| && PackedStep(steps[k])
    ensures steps[k].name in PackedNames(steps)
    decreases |steps|
  {
    var n := |steps| - 1;
    if k < n {
      PackedNamesMember(steps[..n], k);
    }
  }

  /** The chapter step packed its chapter. */
  predicate PackedStep(s: ChapterStep)
  {
    s.Acquired? && s.outcome.Packed?
  }

  /**
   * The body of the chapter loop for chapter `name`.  `cbz` is the set of
   * chapter archives on disk, by chapter name; acquisition writes (or
   * overwrites) the archive of a chapter it packs.
   */
  method ChapterTurnStep(tracker: ProgressTracker, mangaTitle: string, volume: string, name: string, world: World,
                         cbz: map<string, Archive>)
    returns (step: ChapterStep, cbzOut: map<string, Archive>)
    requires tracker.progress.Some?
    modifies tracker`progress, tracker`saved
    ensures tracker.progress.Some?
    ensures ChapterTurn(world, volume, mangaTitle, name, old(tracker.progress.value.downloadedChapters), step)
    ensures tracker.progress.value == old(tracker.progress.value).(downloadedChapters :=
      old(tracker.progress.value.downloadedChapters) + (if PackedStep(step) then [name] else []))
    ensures tracker.saved == old(tracker.saved) + (if PackedStep(step) then [tracker.progress.value] else [])
    ensures cbzOut == WriteArchive(cbz, step)
  {
    cbzOut := cbz;
    if tracker.IsChapterDownloaded(name) {
      step := AlreadyDownloaded(name);
      return;
    }
    var found := FindChapter(world.catalog, name);
    if found.None? {
      step := NotInCatalog(name);
      return;
    }
    var chapter := found.value;
    ghost var i :| IsFirstMatch(world.catalog, name, i) && world.catalog[i] == chapter;
    var outcome, stagingRemoved := AcquireChapter(tracker, chapter, volume, mangaTitle, world.images(chapter.url),
                                                 world.fetches(chapter.name), world.chapterPack(chapter.name));
    if outcome.Packed? {
      cbzOut := cbzOut[name := outcome.archive];
    }
    step := Acquired(name, chapter, outcome);
  }

  /** What the chapter archives on disk are after the turns `steps`, started from `cbz`. */
  ghost predicate CbzAfter(cbz: map<string, Archive>, steps: seq<ChapterStep>, cbzOut: map<string, Archive>)
  {
    CbzKeys(cbz, steps, cbzOut) && CbzKept(cbz, steps, cbzOut) && CbzWritten(steps, cbzOut)
  }

  /** The archives on disk are those there before and those the turns packed. */
  ghost predicate CbzKeys(cbz: map<string, Archive>, steps: seq<ChapterStep>, cbzOut: map<string, Archive>)
  {
    forall c :: c in cbzOut <==> c in cbz || c in PackedNames(steps)
  }

  /** An archive the turns did not pack is untouched. */
  ghost predicate CbzKept(cbz: map<string, Archive>, steps: seq<ChapterStep>, cbzOut: map<string, Archive>)
  {
    forall c :: c in cbz && c !in PackedNames(steps) ==> c in cbzOut && cbzOut[c] == cbz[c]
  }

  /** Each turn that packed its chapter left the archive it wrote. */
  ghost predicate CbzWritten(steps: seq<ChapterStep>, cbzOut: map<string, Archive>)
  {
    forall k :: 0 <= k < |steps| && PackedStep(steps[k]) ==>
      steps[k].name in cbzOut && cbzOut[steps[k].name] == steps[k].outcome.archive
  }

  /** The chapter archives on disk after `step`: a packed chapter has its archive (re)written. */
  function WriteArchive(cbz: map<string, Archive>, step: ChapterStep): map<string, Archive>
  {
    if PackedStep(step) then cbz[step.name := step.outcome.archive] else cbz
  }

  /** The chapter archives on disk after the turns `steps`, started from `cbz`. */
  function WriteArchives(cbz: map<string, Archive>, steps: seq<ChapterStep>): map<string, Archive>
  {
    if steps == [] then cbz else WriteArchive(WriteArchives(cbz, steps[..|steps| - 1]), steps[|steps| - 1])
  }

  lemma WriteArchivesSnoc(cbz: map<string, Archive>, steps: seq<ChapterStep>, step: ChapterStep)
    ensures WriteArchives(cbz, steps + [step]) == WriteArchive(WriteArchives(cbz, steps), step)
  {
    assert (steps + [step])[..|steps|] == steps;
  }

  /** The archives on disk after some turns are those there before and those the turns packed. */
  lemma {:induction false} WriteArchivesKeys(cbz: map<string, Archive>, steps: seq<ChapterStep>)
    ensures CbzKeys(cbz, steps, WriteArchives(cbz, steps))
    decreases |steps|
  {
    if steps != [] {
      var n := |steps| - 1;
      WriteArchivesKeys(cbz, steps[..n]);
      CbzKeysSnoc(cbz, steps[..n], WriteArchives(cbz, steps[..n]), steps[n]);
      assert steps[..n] + [steps[n]] == steps;
    }
  }

  /** An archive no turn packed is left as it was. */
  lemma {:induction false} WriteArchivesKept(cbz: map<string, Archive>, steps: seq<ChapterStep>)
    ensures CbzKept(cbz, steps, WriteArchives(cbz, steps))
    decreases |steps|
  {
    if steps != [] {
      var n := |steps| - 1;
      WriteArchivesKept(cbz, steps[..n]);
      CbzKeptSnoc(cbz, steps[..n], WriteArchives(cbz, steps[..n]), steps[n]);
      assert steps[..n] + [steps[n]] == steps;
    }
  }

  /**
   * Over the turns of a chapter loop, every archive is written at most once,
   * so each packed chapter's archive is on disk as it was packed.
   */
  lemma {:induction false} WriteArchivesSpec(world: World, volume: string, mangaTitle: string, chapters: seq<string>,
                                             downloaded: seq<string>, cbz: map<string, Archive>, steps: seq<ChapterStep>)
    requires ChapterTurns(world, volume, mangaTitle, chapters, downloaded, steps)
    ensures CbzAfter(cbz, steps, WriteArchives(cbz, steps))
    decreases |steps|
  {
    if steps != [] {
      var n := |steps| - 1;
      WriteArchivesSpec(world, volume, mangaTitle, chapters[..n], downloaded, cbz, steps[..n]);
      TurnPacksUnlisted(world, volume, mangaTitle, chapters[n], downloaded + PackedNames(steps[..n]), steps[n]);
      CbzAfterLast(cbz, steps, WriteArchives(cbz, steps[..n]));
    }
  }

  lemma CbzAfterLast(cbz: map<string, Archive>, steps: seq<ChapterStep>, cbzOut: map<string, Archive>)
    requires steps != [] && CbzAfter(cbz, steps[..|steps| - 1], cbzOut)
    requires PackedStep(steps[|steps| - 1]) ==> steps[|steps| - 1].name !in PackedNames(steps[..|steps| - 1])
    ensures CbzAfter(cbz, steps, WriteArchive(cbzOut, steps[|steps| - 1]))
  {
    var n := |steps| - 1;
    CbzAfterSnoc(cbz, steps[..n], cbzOut, steps[n]);
    assert steps[..n] + [steps[n]] == steps;
  }

  lemma CbzKeysSnoc(cbz: map<string, Archive>, steps: seq<ChapterStep>, cbzOut: map<string, Archive>, step: ChapterStep)
    requires CbzKeys(cbz, steps, cbzOut)
    ensures CbzKeys(cbz, steps + [step], WriteArchive(cbzOut, step))
  {
    PackedNamesSnoc(steps, step);
  }

  lemma CbzKeptSnoc(cbz: map<string, Archive>, steps: seq<ChapterStep>, cbzOut: map<string, Archive>, step: ChapterStep)
    requires CbzKept(cbz, steps, cbzOut)
    ensures CbzKept(cbz, steps + [step], WriteArchive(cbzOut, step))
  {
    PackedNamesSnoc(steps, step);
  }

  lemma CbzWrittenSnoc(steps: seq<ChapterStep>, cbzOut: map<string, Archive>, step: ChapterStep)
    requires CbzWritten(steps, cbzOut)
    requires PackedStep(step) ==> step.name !in PackedNames(steps)
    ensures CbzWritten(steps + [step], WriteArchive(cbzOut, step))
  {
    if PackedStep(step) {
      forall k | 0 <= k < |steps| && PackedStep(steps[k]) ensures steps[k].name != step.name {
        PackedNamesMember(steps, k);
      }
    }
  }

  /** A turn packs only a chapter no earlier turn packed, so it overwrites no archive of this loop. */
  lemma CbzAfterSnoc(cbz: map<string, Archive>, steps: seq<ChapterStep>, cbzOut: map<string, Archive>, step: ChapterStep)
    requires CbzAfter(cbz, steps, cbzOut)
    requires PackedStep(step) ==> step.name !in PackedNames(steps)
    ensures CbzAfter(cbz, steps + [step], WriteArchive(cbzOut, step))
  {
    CbzKeysSnoc(cbz, steps, cbzOut, step);
    CbzKeptSnoc(cbz, steps, cbzOut, step);
    CbzWrittenSnoc(steps, cbzOut, step);
  }

  /** A turn packs only a chapter the ledger did not list at its start. */
  lemma TurnPacksUnlisted(world: World, volume: string, mangaTitle: string, name: string, downloaded: seq<string>, step: ChapterStep)
    requires ChapterTurn(world, volume, mangaTitle, name, downloaded, step)
    ensures PackedStep(step) ==> step.name !in downloaded
  {
  }

  lemma ChapterTurnsSnoc(world: World, volume: string, mangaTitle: string, chapters: seq<string>, downloaded: seq<string>,
                         steps: seq<ChapterStep>, step: ChapterStep, j: nat)
    requires j == |steps| < |chapters|
    requires ChapterTurns(world, volume, mangaTitle, chapters[..j], downloaded, steps)
    requires ChapterTurn(world, volume, mangaTitle, chapters[j], downloaded + PackedNames(steps), step)
    ensures ChapterTurns(world, volume, mangaTitle, chapters[..j + 1], downloaded, steps + [step])
  {
    assert chapters[..j + 1][..j] == chapters[..j] && (steps + [step])[..j] == steps;
  }

  /** The ledger after the chapter turns `steps`, started from `start`. */
  function ChapterLedger(start: Progress, steps: seq<ChapterStep>): Progress
  {
    start.(downloadedChapters := start.downloadedChapters + PackedNames(steps))
  }

  lemma ChapterLedgerSnoc(start: Progress, steps: seq<ChapterStep>, step: ChapterStep)
    ensures ChapterLedger(start, steps + [step]) == ChapterLedger(start, steps).(downloadedChapters :=
      ChapterLedger(start, steps).downloadedChapters + (if PackedStep(step) then [step.name] else []))
  {
    PackedAfterSnoc(start.downloadedChapters, steps, step);
  }

  /**
   * The ledger snapshots the chapter turns `steps` hand to `saveProgress`,
   * started from `start`: one after each chapter they pack.
   */
  function ChapterSnapshots(start: Progress, steps: seq<ChapterStep>): seq<Progress>
  {
    if steps == [] then []
    else
      var n := |steps| - 1;
      ChapterSnapshots(start, steps[..n]) + (if PackedStep(steps[n]) then [ChapterLedger(start, steps)] else [])
  }

  lemma ChapterSnapshotsSnoc(start: Progress, steps: seq<ChapterStep>, step: ChapterStep)
    ensures ChapterSnapshots(start, steps + [step]) ==
      ChapterSnapshots(start, steps) + (if PackedStep(step) then [ChapterLedger(start, steps + [step])] else [])
  {
    assert (steps + [step])[..|steps|] == steps;
  }

  /**
   * The chapter turns save once per chapter they pack, and the last
   * snapshot saved is the ledger they leave; without a save the ledger is
   * unchanged.
   */
  lemma {:induction false} ChapterSnapshotsLast(start: Progress, steps: seq<ChapterStep>)
    ensures |ChapterSnapshots(start, steps)| == |PackedNames(steps)|
    ensures ChapterSnapshots(start, steps) == [] ==> ChapterLedger(start, steps) == start
    ensures ChapterSnapshots(start, steps) != [] ==>
      ChapterSnapshots(start, steps)[|ChapterSnapshots(start, steps)| - 1] == ChapterLedger(start, steps)
    decreases |steps|
  {
    if steps == [] {
      assert start.downloadedChapters + [] == start.downloadedChapters;
    } else {
      var n := |steps| - 1;
      ChapterSnapshotsLast(start, steps[..n]);
      if !PackedStep(steps[n]) {
        assert PackedNames(steps) == PackedNames(steps[..n]) + [] == PackedNames(steps[..n]);
      }
    }
  }

  lemma PackedAfterSnoc(downloaded: seq<string>, steps: seq<ChapterStep>, step: ChapterStep)
    ensures downloaded + PackedNames(steps + [step]) ==
      downloaded + PackedNames(steps) + (if PackedStep(step) then [step.name] else [])
  {
    PackedNamesSnoc(steps, step);
    AppendAssoc(downloaded, PackedNames(steps), if PackedStep(step) then [step.name] else []);
  }

  lemma AppendAssoc<T>(a: seq<T>, b: seq<T>, c: seq<T>)
    ensures a + (b + c) == a + b + c
  {
  }

  /** The chapter loop of one volume. */
  method ChapterLoop(tracker: ProgressTracker, mangaTitle: string, volume: string, chapters: seq<string>, world: World,
                     cbz: map<string, Archive>)
    returns (steps: seq<ChapterStep>, cbzOut: map<string, Archive>)
    requires tracker.progress.Some?
    modifies tracker`progress, tracker`saved
    ensures tracker.progress.Some?
    ensures ChapterTurns(world, volume, mangaTitle, chapters, old(tracker.progress.value.downloadedChapters), steps)
    ensures tracker.progress.value ==
      old(tracker.progress.value).(downloadedChapters := old(tracker.progress.value.downloadedChapters) + PackedNames(steps))
    ensures tracker.saved == old(tracker.saved) + ChapterSnapshots(old(tracker.progress.value), steps)
    ensures cbzOut == WriteArchives(cbz, steps)
    ensures CbzAfter(cbz, steps, cbzOut)
  {
    ghost var start := tracker.progress.value;
    ghost var saved0 := tracker.saved;
    steps, cbzOut := [], cbz;
    var j := 0;
    while j < |chapters|
      invariant 0 <= j <= |chapters| && |steps| == j
      invariant tracker.progress.Some?
      invariant tracker.progress.value == ChapterLedger(start, steps)
      invariant tracker.saved == saved0 + ChapterSnapshots(start, steps)
      invariant ChapterTurns(world, volume, mangaTitle, chapters[..j], start.downloadedChapters, steps)
      invariant cbzOut == WriteArchives(cbz, steps)
    {
      var step;
      step, cbzOut := ChapterTurnStep(tracker, mangaTitle, volume, chapters[j], world, cbzOut);
      WriteArchivesSnoc(cbz, steps, step);
      ChapterTurnsSnoc(world, volume, mangaTitle, chapters, start.downloadedChapters, steps, step, j);
      ChapterLedgerSnoc(start, steps, step);
      ChapterSnapshotsSnoc(start, steps, step);
      AppendAssoc(saved0, ChapterSnapshots(start, steps), if PackedStep(step) then [ChapterLedger(start, steps + [step])] else []);
      steps := steps + [step];
      j := j + 1;
    }
    assert chapters[..j] == chapters;
    WriteArchivesSpec(world, volume, mangaTitle, chapters, start.downloadedChapters, cbz, steps);
  }

  // ---------------------------------------------------------------------
  // The volume loop.

  datatype VolumeRun =
    | Skipped(volume: string)
    | Processed(volume: string, steps: seq<ChapterStep>, extractions: seq<Extraction>, renames: seq<Rename>, ok: bool, crashed: bool)

  function RunSteps(run: VolumeRun): seq<ChapterStep>
  {
    if run.Processed? then run.steps else []
  }

  /** The chapters the runs packed, in order. */
  function RunsPacked(runs: seq<VolumeRun>): seq<string>
  {
    if runs == [] then [] else RunsPacked(runs[..|runs| - 1]) + PackedNames(RunSteps(runs[|runs| - 1]))
  }

  /** The volumes the runs packed, in order. */
  function OkVolumes(runs: seq<VolumeRun>): seq<string>
  {
    if runs == [] then []
    else
      var last := runs[|runs| - 1];
      OkVolumes(runs[..|runs| - 1]) + (if last.Processed? && last.ok then [last.volume] else [])
  }

  /** The process ended during this turn. */
  predicate Crashed(run: VolumeRun)
  {
    run.Processed? && run.crashed
  }

  /**
   * One turn of the volume loop for the mapping entry (`volume`,
   * `chapters`), given the ledger and the chapter archives `disk` at its
   * start.  A volume the ledger lists is skipped outright; any other runs
   * its chapter loop and is then assembled from the chapter archives on disk
   * after that loop, which are those of `disk` and those the loop just
   * wrote.  Assembly ends the process at the first chapter without an
   * archive once the staging directories exist.
   */
  predicate VolumeTurn(world: World, mangaTitle: string, volume: string, chapters: seq<string>, before: Progress,
                       disk: map<string, Archive>, run: VolumeRun)
  {
    run.volume == volume &&
    (run.Skipped? <==> volume in before.completedVolumes) &&
    (run.Processed? ==>
      ChapterTurns(world, volume, mangaTitle, chapters, before.downloadedChapters, run.steps) &&
      run.extractions == VolumeExtractions(world, volume, chapters, WriteArchives(disk, run.steps)) &&
      (run.crashed <==> world.volumeSetup(volume) && FirstMissing(run.extractions) < |chapters|) &&
      (run.ok <==>
        world.volumeSetup(volume) && AllChaptersOk(run.extractions) &&
        Succeeds(world.volumePack(volume), DefaultRetries)) &&
      (world.volumeSetup(volume) ==> Numbered(run.renames) && Sources(run.renames) == MovesBefore(chapters, run.extractions)) &&
      (run.ok ==> Sources(run.renames) == AllPages(chapters, run.extractions)))
  }

  /**
   * What a processed turn unpacks: a chapter it packed is read back from the
   * archive it just wrote, any chapter it did not pack from the archive that
   * was on disk before, and a chapter without an archive cannot be opened.
   */
  lemma TurnExtractions(world: World, mangaTitle: string, volume: string, chapters: seq<string>, before: Progress,
                        disk: map<string, Archive>, run: VolumeRun)
    requires VolumeTurn(world, mangaTitle, volume, chapters, before, disk, run) && run.Processed?
    ensures |run.steps| == |run.extractions| == |chapters|
    ensures forall k :: 0 <= k < |chapters| && PackedStep(run.steps[k]) ==>
      run.extractions[k] == ExtractionOf(world, volume, chapters[k], run.steps[k].outcome.archive)
    ensures forall k :: 0 <= k < |chapters| && chapters[k] !in PackedNames(run.steps) ==>
      run.extractions[k] == if chapters[k] in disk then ExtractionOf(world, volume, chapters[k], disk[chapters[k]]) else ArchiveMissing
  {
    WriteArchivesSpec(world, volume, mangaTitle, chapters, before.downloadedChapters, disk, run.steps);
    forall k | 0 <= k < |chapters| && PackedStep(run.steps[k])
      ensures run.extractions[k] == ExtractionOf(world, volume, chapters[k], run.steps[k].outcome.archive)
    {
      ChapterTurnAt(world, volume, mangaTitle, chapters, before.downloadedChapters, run.steps, k);
    }
  }

  /**
   * Once its staging directories exist, a volume ends the process if one of
   * its chapters has no archive on disk and was not packed by the turn (one
   * missing from the catalog, without images, or whose download failed):
   * the volume is not packed and no later volume is reached.
   */
  lemma MissingArchiveEndsRun(world: World, mangaTitle: string, volume: string, chapters: seq<string>, before: Progress,
                              disk: map<string, Archive>, run: VolumeRun, k: nat)
    requires VolumeTurn(world, mangaTitle, volume, chapters, before, disk, run) && run.Processed? && world.volumeSetup(volume)
    requires k < |chapters| && chapters[k] !in disk && chapters[k] !in PackedNames(run.steps)
    ensures Crashed(run) && !run.ok
  {
    TurnExtractions(world, mangaTitle, volume, chapters, before, disk, run);
    assert run.extractions[k] == ArchiveMissing;
    assert !ChapterOk(run.extractions[k]);
  }

  /**
   * The pages a volume renames from a chapter its turn packed are the
   * chapter's downloaded pages in download order, when the chapter has fewer
   * than 1000 pages whose URLs carry image extensions and its extraction
   * succeeds.
   */
  lemma PackedChapterPages(world: World, mangaTitle: string, volume: string, chapters: seq<string>, before: Progress,
                           disk: map<string, Archive>, run: VolumeRun, k: nat)
    requires VolumeTurn(world, mangaTitle, volume, chapters, before, disk, run) && run.Processed?
    requires k < |chapters| && k < |run.steps| && PackedStep(run.steps[k]) && world.extractOk(volume, chapters[k])
    requires |world.images(run.steps[k].entry.url)| < 1000
    requires forall i :: 0 <= i < |world.images(run.steps[k].entry.url)| ==>
      HasImageExtension(PageExtension(world.images(run.steps[k].entry.url)[i]))
    ensures run.extractions[k].Extracted?
    ensures KeptFiles(run.extractions[k].files) == PageNames(world.images(run.steps[k].entry.url))
  {
    TurnExtractions(world, mangaTitle, volume, chapters, before, disk, run);
    ChapterTurnAt(world, volume, mangaTitle, chapters, before.downloadedChapters, run.steps, k);
    AcquiredPagesKept(run.steps[k].outcome.archive, world.images(run.steps[k].entry.url));
  }

  /** The ledger after turns `runs`, started from `start`. */
  function LedgerAfter(start: Progress, runs: seq<VolumeRun>): Progress
  {
    Progress(start.downloadedChapters + RunsPacked(runs), start.completedVolumes + OkVolumes(runs), start.lastAttempt)
  }

  /** The ledger after one turn: the chapters it packed, then its volume if it was packed. */
  function LedgerStep(before: Progress, run: VolumeRun): Progress
  {
    Progress(before.downloadedChapters + PackedNames(RunSteps(run)),
             before.completedVolumes + (if run.Processed? && run.ok then [run.volume] else []),
             before.lastAttempt)
  }

  /** The snapshots one volume turn saves: one per chapter it packs, then one when it packs the volume. */
  function TurnSnapshots(before: Progress, run: VolumeRun): seq<Progress>
  {
    ChapterSnapshots(before, RunSteps(run)) + (if run.Processed? && run.ok then [LedgerStep(before, run)] else [])
  }

  /** The snapshots the turns `runs` save, each turn starting from the ledger the earlier ones left. */
  function RunsSnapshots(start: Progress, runs: seq<VolumeRun>): seq<Progress>
  {
    if runs == [] then []
    else
      var n := |runs| - 1;
      RunsSnapshots(start, runs[..n]) + TurnSnapshots(LedgerAfter(start, runs[..n]), runs[n])
  }

  lemma RunsSnapshotsSnoc(saved0: seq<Progress>, start: Progress, runs: seq<VolumeRun>, run: VolumeRun,
                          saved: seq<Progress>, savedOut: seq<Progress>)
    requires saved == saved0 + RunsSnapshots(start, runs)
    requires savedOut == saved + TurnSnapshots(LedgerAfter(start, runs), run)
    ensures savedOut == saved0 + RunsSnapshots(start, runs + [run])
  {
    assert (runs + [run])[..|runs|] == runs;
    AppendAssoc(saved0, RunsSnapshots(start, runs), TurnSnapshots(LedgerAfter(start, runs), run));
  }

  /** One volume turn saves once per chapter and volume it packs, and its last snapshot is the ledger it leaves. */
  lemma TurnSnapshotsLast(before: Progress, run: VolumeRun)
    ensures |TurnSnapshots(before, run)| == |PackedNames(RunSteps(run))| + (if run.Processed? && run.ok then 1 else 0)
    ensures TurnSnapshots(before, run) == [] ==> LedgerStep(before, run) == before
    ensures TurnSnapshots(before, run) != [] ==>
      TurnSnapshots(before, run)[|TurnSnapshots(before, run)| - 1] == LedgerStep(before, run)
  {
    ChapterSnapshotsLast(before, RunSteps(run));
    if !(run.Processed? && run.ok) {
      assert before.completedVolumes + [] == before.completedVolumes;
      assert LedgerStep(before, run) == ChapterLedger(before, RunSteps(run));
    }
  }

  /**
   * A run saves once per chapter and once per volume it packs, and the
   * last snapshot saved is the ledger the run leaves in memory; when it
   * saves nothing that ledger is the one it started from.
   */
  lemma {:induction false} RunsSnapshotsLast(start: Progress, runs: seq<VolumeRun>)
    ensures |RunsSnapshots(start, runs)| == |RunsPacked(runs)| + |OkVolumes(runs)|
    ensures RunsSnapshots(start, runs) == [] ==> LedgerAfter(start, runs) == start
    ensures RunsSnapshots(start, runs) != [] ==>
      RunsSnapshots(start, runs)[|RunsSnapshots(start, runs)| - 1] == LedgerAfter(start, runs)
    decreases |runs|
  {
    if runs == [] {
      assert start.downloadedChapters + [] == start.downloadedChapters;
      assert start.completedVolumes + [] == start.completedVolumes;
    } else {
      var n := |runs| - 1;
      RunsSnapshotsLast(start, runs[..n]);
      TurnSnapshotsLast(LedgerAfter(start, runs[..n]), runs[n]);
      LedgerAfterLast(start, runs);
    }
  }

  /** The chapter archives on disk after turns `runs`, started from `cbzIn`. */
  function DiskAfter(cbzIn: map<string, Archive>, runs: seq<VolumeRun>): map<string, Archive>
  {
    if runs == [] then cbzIn else WriteArchives(DiskAfter(cbzIn, runs[..|runs| - 1]), RunSteps(runs[|runs| - 1]))
  }

  lemma DiskAfterSnoc(cbzIn: map<string, Archive>, runs: seq<VolumeRun>, run: VolumeRun)
    ensures DiskAfter(cbzIn, runs + [run]) == WriteArchives(DiskAfter(cbzIn, runs), RunSteps(run))
  {
    assert (runs + [run])[..|runs|] == runs;
  }

  /** After some turns, the archives on disk are those there before and those the turns packed. */
  lemma {:induction false} DiskAfterKeys(cbzIn: map<string, Archive>, runs: seq<VolumeRun>)
    ensures forall ch :: ch in DiskAfter(cbzIn, runs) <==> ch in cbzIn || ch in RunsPacked(runs)
    decreases |runs|
  {
    if runs != [] {
      var n := |runs| - 1;
      DiskAfterKeys(cbzIn, runs[..n]);
      WriteArchivesKeys(DiskAfter(cbzIn, runs[..n]), RunSteps(runs[n]));
    }
  }

  /** An archive that was on disk and that no turn packed is left as it was. */
  lemma {:induction false} DiskAfterKept(cbzIn: map<string, Archive>, runs: seq<VolumeRun>)
    ensures forall ch :: ch in cbzIn && ch !in RunsPacked(runs) ==>
      ch in DiskAfter(cbzIn, runs) && DiskAfter(cbzIn, runs)[ch] == cbzIn[ch]
    decreases |runs|
  {
    if runs != [] {
      var n := |runs| - 1;
      DiskAfterKept(cbzIn, runs[..n]);
      WriteArchivesKept(DiskAfter(cbzIn, runs[..n]), RunSteps(runs[n]));
    }
  }

  /** Every turn of the volume loop over `mapping`, each seeing the ledger and the archives the earlier turns left. */
  predicate VolumeTurns(world: World, mangaTitle: string, mapping: seq<(string, seq<string>)>, start: Progress,
                        cbzIn: map<string, Archive>, runs: seq<VolumeRun>)
  {
    |runs| == |mapping| &&
    forall n :: 0 <= n < |runs| ==>
      VolumeTurn(world, mangaTitle, mapping[n].0, mapping[n].1, LedgerAfter(start, runs[..n]), DiskAfter(cbzIn, runs[..n]), runs[n])
  }

  lemma VolumeTurnsSnoc(world: World, mangaTitle: string, mapping: seq<(string, seq<string>)>, start: Progress,
                        cbzIn: map<string, Archive>, runs: seq<VolumeRun>, run: VolumeRun)
    requires |runs| < |mapping|
    requires VolumeTurns(world, mangaTitle, mapping[..|runs|], start, cbzIn, runs)
    requires VolumeTurn(world, mangaTitle, mapping[|runs|].0, mapping[|runs|].1, LedgerAfter(start, runs), DiskAfter(cbzIn, runs), run)
    ensures VolumeTurns(world, mangaTitle, mapping[..|runs| + 1], start, cbzIn, runs + [run])
  {
    var m, rs := mapping[..|runs| + 1], runs + [run];
    forall n | 0 <= n < |rs|
      ensures VolumeTurn(world, mangaTitle, m[n].0, m[n].1, LedgerAfter(start, rs[..n]), DiskAfter(cbzIn, rs[..n]), rs[n])
    {
      if n < |runs| {
        assert rs[..n] == runs[..n] && rs[n] == runs[n] && m[n] == mapping[..|runs|][n];
      } else {
        assert rs[..n] == runs;
      }
    }
  }

  /** The first `k` turns are the turns of the first `k` mapping entries. */
  lemma VolumeTurnsPrefix(world: World, mangaTitle: string, mapping: seq<(string, seq<string>)>, start: Progress,
                          cbzIn: map<string, Archive>, runs: seq<VolumeRun>, k: nat)
    requires VolumeTurns(world, mangaTitle, mapping, start, cbzIn, runs) && k <= |runs|
    ensures VolumeTurns(world, mangaTitle, mapping[..k], start, cbzIn, runs[..k])
  {
    var m, rs := mapping[..k], runs[..k];
    forall n | 0 <= n < |rs|
      ensures VolumeTurn(world, mangaTitle, m[n].0, m[n].1, LedgerAfter(start, rs[..n]), DiskAfter(cbzIn, rs[..n]), rs[n])
    {
      assert rs[..n] == runs[..n] && rs[n] == runs[n] && m[n] == mapping[n];
    }
  }

  lemma DistinctSnoc(s: seq<string>, x: string)
    requires Distinct(s) && x !in s
    ensures Distinct(s + [x])
  {
  }

  /**
   * A chapter loop never packs a chapter twice, nor one the ledger already
   * lists: starting from a ledger without duplicates, it leaves none.
   */
  lemma {:induction false} ChapterTurnsKeepDistinct(world: World, volume: string, mangaTitle: string, chapters: seq<string>,
                                                    downloaded: seq<string>, steps: seq<ChapterStep>)
    requires ChapterTurns(world, volume, mangaTitle, chapters, downloaded, steps)
    requires Distinct(downloaded)
    ensures Distinct(downloaded + PackedNames(steps))
    decreases |steps|
  {
    if steps == [] {
      assert downloaded + PackedNames(steps) == downloaded;
    } else {
      var n := |steps| - 1;
      ChapterTurnsKeepDistinct(world, volume, mangaTitle, chapters[..n], downloaded, steps[..n]);
      var before := downloaded + PackedNames(steps[..n]);
      TurnPacksUnlisted(world, volume, mangaTitle, chapters[n], before, steps[n]);
      PackedAfterSnoc(downloaded, steps[..n], steps[n]);
      assert steps[..n] + [steps[n]] == steps;
      if PackedStep(steps[n]) {
        DistinctSnoc(before, steps[n].name);
      } else {
        assert before + [] == before;
      }
    }
  }

  /**
   * However the run goes, a ledger without duplicates stays without
   * duplicates in both of its lists.
   */
  lemma {:induction false} VolumeTurnsKeepDistinct(world: World, mangaTitle: string, mapping: seq<(string, seq<string>)>,
                                                   start: Progress, cbzIn: map<string, Archive>, runs: seq<VolumeRun>)
    requires VolumeTurns(world, mangaTitle, mapping, start, cbzIn, runs)
    requires Distinct(start.downloadedChapters) && Distinct(start.completedVolumes)
    ensures Distinct(LedgerAfter(start, runs).downloadedChapters) && Distinct(LedgerAfter(start, runs).completedVolumes)
    decreases |runs|
  {
    if runs == [] {
      assert LedgerAfter(start, runs).downloadedChapters == start.downloadedChapters;
      assert LedgerAfter(start, runs).completedVolumes == start.completedVolumes;
    } else {
      var n := |runs| - 1;
      VolumeTurnsPrefix(world, mangaTitle, mapping, start, cbzIn, runs, n);
      VolumeTurnsKeepDistinct(world, mangaTitle, mapping[..n], start, cbzIn, runs[..n]);
      LedgerAfterLast(start, runs);
      TurnKeepsDistinct(world, mangaTitle, mapping[n].0, mapping[n].1, LedgerAfter(start, runs[..n]), DiskAfter(cbzIn, runs[..n]), runs[n]);
    }
  }

  /** One turn of the volume loop keeps both lists of the ledger without duplicates. */
  lemma TurnKeepsDistinct(world: World, mangaTitle: string, volume: string, chapters: seq<string>, before: Progress,
                          disk: map<string, Archive>, run: VolumeRun)
    requires VolumeTurn(world, mangaTitle, volume, chapters, before, disk, run)
    requires Distinct(before.downloadedChapters) && Distinct(before.completedVolumes)
    ensures Distinct(LedgerStep(before, run).downloadedChapters) && Distinct(LedgerStep(before, run).completedVolumes)
  {
    if run.Processed? {
      ChapterTurnsKeepDistinct(world, volume, mangaTitle, chapters, before.downloadedChapters, run.steps);
      if run.ok {
        DistinctSnoc(before.completedVolumes, run.volume);
      } else {
        assert before.completedVolumes + [] == before.completedVolumes;
      }
    } else {
      assert before.downloadedChapters + PackedNames(RunSteps(run)) == before.downloadedChapters;
      assert before.completedVolumes + [] == before.completedVolumes;
    }
  }

  /** The body of the volume loop. */
  method VolumeTurnStep(tracker: ProgressTracker, mangaTitle: string, volume: string, chapters: seq<string>, world: World,
                        cbz: map<string, Archive>)
    returns (run: VolumeRun, cbzOut: map<string, Archive>, volumeArchive: Option<Archive>)
    requires tracker.progress.Some?
    modifies tracker`progress, tracker`saved
    ensures tracker.progress.Some?
    ensures VolumeTurn(world, mangaTitle, volume, chapters, old(tracker.progress.value), cbz, run)
    ensures tracker.progress.value == LedgerStep(old(tracker.progress.value), run)
    ensures tracker.saved == old(tracker.saved) + TurnSnapshots(old(tracker.progress.value), run)
    ensures cbzOut == WriteArchives(cbz, RunSteps(run))
    ensures volumeArchive.Some? <==> run.Processed? && run.ok
    ensures volumeArchive.Some? ==> volumeArchive.value == Archive(Some(VolumeComicInfo(mangaTitle, volume)), Targets(run.renames))
  {
    ghost var before := tracker.progress.value;
    ghost var saved0 := tracker.saved;
    if tracker.IsVolumeCompleted(volume) {
      assert TurnSnapshots(before, Skipped(volume)) == [];
      return Skipped(volume), cbz, None;
    }
    var steps;
    steps, cbzOut := ChapterLoop(tracker, mangaTitle, volume, chapters, world, cbz);
    var io := VolumeExtractions(world, volume, chapters, cbzOut);
    var ok, archive, renames, crashed := CreateVolumeCBZ(tracker, volume, chapters, mangaTitle, world.volumeSetup(volume), io, world.volumePack(volume));
    run := Processed(volume, steps, io, renames, ok, crashed);
    volumeArchive := archive;
    AppendAssoc(saved0, ChapterSnapshots(before, steps), if ok then [tracker.progress.value] else []);
  }

  function StartProgress(stored: Option<Progress>): Progress
  {
    if stored.Some? then stored.value else EmptyProgress
  }

  /** The keys of a JavaScript object are distinct. */
  predicate DistinctKeys(mapping: seq<(string, seq<string>)>)
  {
    forall i, j :: 0 <= i < j < |mapping| ==> mapping[i].0 != mapping[j].0
  }

  lemma LedgerAfterSnoc(start: Progress, runs: seq<VolumeRun>, run: VolumeRun)
    ensures LedgerAfter(start, runs + [run]) == LedgerStep(LedgerAfter(start, runs), run)
  {
    RunsPackedSnoc(runs, run);
    OkVolumesSnoc(runs, run);
    var packed := PackedNames(RunSteps(run));
    var ok := if run.Processed? && run.ok then [run.volume] else [];
    AppendAssoc(start.downloadedChapters, RunsPacked(runs), packed);
    AppendAssoc(start.completedVolumes, OkVolumes(runs), ok);
  }

  lemma RunsPackedSnoc(runs: seq<VolumeRun>, run: VolumeRun)
    ensures RunsPacked(runs + [run]) == RunsPacked(runs) + PackedNames(RunSteps(run))
  {
    assert (runs + [run])[..|runs|] == runs;
  }

  lemma OkVolumesSnoc(runs: seq<VolumeRun>, run: VolumeRun)
    ensures OkVolumes(runs + [run]) == OkVolumes(runs) + (if run.Processed? && run.ok then [run.volume] else [])
  {
    assert (runs + [run])[..|runs|] == runs;
  }

  /** The ledger after a non-empty run of turns is the step of its last turn. */
  lemma LedgerAfterLast(start: Progress, runs: seq<VolumeRun>)
    requires runs != []
    ensures LedgerAfter(start, runs) == LedgerStep(LedgerAfter(start, runs[..|runs| - 1]), runs[|runs| - 1])
  {
    var n := |runs| - 1;
    LedgerAfterSnoc(start, runs[..n], runs[n]);
    assert runs[..n] + [runs[n]] == runs;
  }

  /** Turn `i` is about mapping entry `i`, and is skipped exactly when the starting ledger lists that volume. */
  predicate RunsFollowMapping(mapping: seq<(string, seq<string>)>, start: Progress, runs: seq<VolumeRun>)
  {
    |runs| <= |mapping| &&
    forall i :: 0 <= i < |runs| ==> runs[i].volume == mapping[i].0 && (runs[i].Skipped? <==> mapping[i].0 in start.completedVolumes)
  }

  /** Each volume archive on disk is the one its successful turn packed. */
  predicate VolumesPacked(mangaTitle: string, runs: seq<VolumeRun>, volumes: map<string, Archive>)
  {
    forall i :: 0 <= i < |runs| && runs[i].Processed? && runs[i].ok ==>
      runs[i].volume in volumes && volumes[runs[i].volume] == Archive(Some(VolumeComicInfo(mangaTitle, runs[i].volume)), Targets(runs[i].renames))
  }

  lemma RunsFollowMappingSnoc(mapping: seq<(string, seq<string>)>, start: Progress, runs: seq<VolumeRun>, run: VolumeRun)
    requires RunsFollowMapping(mapping, start, runs) && |runs| < |mapping|
    requires run.volume == mapping[|runs|].0 && (run.Skipped? <==> mapping[|runs|].0 in start.completedVolumes)
    ensures RunsFollowMapping(mapping, start, runs + [run])
  {
  }

  lemma VolumesPackedSnoc(mangaTitle: string, runs: seq<VolumeRun>, volumes: map<string, Archive>, run: VolumeRun, a: Option<Archive>)
    requires VolumesPacked(mangaTitle, runs, volumes)
    requires forall i :: 0 <= i < |runs| ==> runs[i].volume != run.volume
    requires a.Some? <==> run.Processed? && run.ok
    requires a.Some? ==> a.value == Archive(Some(VolumeComicInfo(mangaTitle, run.volume)), Targets(run.renames))
    ensures VolumesPacked(mangaTitle, runs + [run], if a.Some? then volumes[run.volume := a.value] else volumes)
  {
  }

  lemma {:induction false} OkVolumesMember(runs: seq<VolumeRun>, v: string)
    requires v in OkVolumes(runs)
    ensures exists i :: 0 <= i < |runs| && runs[i].volume == v
    decreases |runs|
  {
    var n := |runs| - 1;
    if v in OkVolumes(runs[..n]) {
      OkVolumesMember(runs[..n], v);
      var i :| 0 <= i < n && runs[..n][i].volume == v;
      assert runs[i].volume == v;
    } else {
      assert runs[n].volume == v;
    }
  }

  /** What the volume loop has established after the turns `runs`. */
  ghost predicate Reached(world: World, mangaTitle: string, mapping: seq<(string, seq<string>)>, start: Progress,
                          cbzIn: map<string, Archive>, runs: seq<VolumeRun>, cbz: map<string, Archive>, volumes: map<string, Archive>)
  {
    |runs| <= |mapping| &&
    VolumeTurns(world, mangaTitle, mapping[..|runs|], start, cbzIn, runs) &&
    RunsFollowMapping(mapping, start, runs) &&
    (forall v :: v in volumes <==> v in OkVolumes(runs)) &&
    VolumesPacked(mangaTitle, runs, volumes) &&
    cbz == DiskAfter(cbzIn, runs)
  }

  /** The volume of the next turn is none an earlier turn was about, so none they packed. */
  lemma FreshVolume(mapping: seq<(string, seq<string>)>, start: Progress, runs: seq<VolumeRun>)
    requires DistinctKeys(mapping) && |runs| < |mapping|
    requires RunsFollowMapping(mapping, start, runs)
    ensures forall i :: 0 <= i < |runs| ==> runs[i].volume != mapping[|runs|].0
    ensures mapping[|runs|].0 !in OkVolumes(runs)
    ensures mapping[|runs|].0 in LedgerAfter(start, runs).completedVolumes <==> mapping[|runs|].0 in start.completedVolumes
  {
    var c := |runs|;
    forall i | 0 <= i < c ensures runs[i].volume != mapping[c].0 {
      assert mapping[i].0 != mapping[c].0;
    }
    if mapping[c].0 in OkVolumes(runs) {
      OkVolumesMember(runs, mapping[c].0);
    }
  }

  lemma VolumeKeysSnoc(runs: seq<VolumeRun>, volumes: map<string, Archive>, run: VolumeRun, a: Option<Archive>)
    requires forall v :: v in volumes <==> v in OkVolumes(runs)
    requires a.Some? <==> run.Processed? && run.ok
    ensures var volumesOut := if a.Some? then volumes[run.volume := a.value] else volumes;
      forall v :: v in volumesOut <==> v in OkVolumes(runs + [run])
  {
    OkVolumesSnoc(runs, run);
  }

  lemma ReachedSnoc(world: World, mangaTitle: string, mapping: seq<(string, seq<string>)>, start: Progress,
                    cbzIn: map<string, Archive>, runs: seq<VolumeRun>, cbz: map<string, Archive>, volumes: map<string, Archive>,
                    run: VolumeRun, volumeArchive: Option<Archive>)
    requires DistinctKeys(mapping) && |runs| < |mapping|
    requires Reached(world, mangaTitle, mapping, start, cbzIn, runs, cbz, volumes)
    requires VolumeTurn(world, mangaTitle, mapping[|runs|].0, mapping[|runs|].1, LedgerAfter(start, runs), cbz, run)
    requires volumeArchive.Some? <==> run.Processed? && run.ok
    requires volumeArchive.Some? ==> volumeArchive.value == Archive(Some(VolumeComicInfo(mangaTitle, run.volume)), Targets(run.renames))
    ensures Reached(world, mangaTitle, mapping, start, cbzIn, runs + [run], WriteArchives(cbz, RunSteps(run)),
                    if volumeArchive.Some? then volumes[run.volume := volumeArchive.value] else volumes)
  {
    FreshVolume(mapping, start, runs);
    RunsFollowMappingSnoc(mapping, start, runs, run);
    VolumesPackedSnoc(mangaTitle, runs, volumes, run, volumeArchive);
    VolumeTurnsSnoc(world, mangaTitle, mapping, start, cbzIn, runs, run);
    VolumeKeysSnoc(runs, volumes, run, volumeArchive);
    DiskAfterSnoc(cbzIn, runs, run);
  }

  /** No turn but perhaps the last ended the process. */
  predicate NoCrashBefore(runs: seq<VolumeRun>)
  {
    forall i :: 0 <= i < |runs| - 1 ==> !Crashed(runs[i])
  }

  lemma NoCrashSnoc(runs: seq<VolumeRun>, run: VolumeRun)
    requires NoCrashBefore(runs) && (runs != [] ==> !Crashed(runs[|runs| - 1]))
    ensures NoCrashBefore(runs + [run])
  {
    assert forall i :: 0 <= i < |runs| ==> (runs + [run])[i] == runs[i];
  }

  /**
   * The state of the volume loop after the turns `runs`: the ledger in
   * memory, the snapshots saved since `saved0`, the archives on disk, and
   * whether the last turn ended the process.
   */
  ghost predicate VolumeLoopState(world: World, mangaTitle: string, mapping: seq<(string, seq<string>)>, start: Progress,
                                  cbzIn: map<string, Archive>, saved0: seq<Progress>, runs: seq<VolumeRun>,
                                  cbz: map<string, Archive>, volumes: map<string, Archive>, crashed: bool,
                                  progress: Option<Progress>, saved: seq<Progress>)
  {
    progress == Some(LedgerAfter(start, runs)) &&
    saved == saved0 + RunsSnapshots(start, runs) &&
    Reached(world, mangaTitle, mapping, start, cbzIn, runs, cbz, volumes) &&
    (crashed <==> runs != [] && Crashed(runs[|runs| - 1])) &&
    NoCrashBefore(runs)
  }

  /** One more turn, after a turn that did not end the process, keeps the state of the volume loop. */
  lemma VolumeLoopStateSnoc(world: World, mangaTitle: string, mapping: seq<(string, seq<string>)>, start: Progress,
                            cbzIn: map<string, Archive>, saved0: seq<Progress>, runs: seq<VolumeRun>,
                            cbz: map<string, Archive>, volumes: map<string, Archive>,
                            progress: Option<Progress>, saved: seq<Progress>,
                            run: VolumeRun, volumeArchive: Option<Archive>, savedOut: seq<Progress>)
    requires DistinctKeys(mapping) && |runs| < |mapping|
    requires VolumeLoopState(world, mangaTitle, mapping, start, cbzIn, saved0, runs, cbz, volumes, false, progress, saved)
    requires VolumeTurn(world, mangaTitle, mapping[|runs|].0, mapping[|runs|].1, progress.value, cbz, run)
    requires savedOut == saved + TurnSnapshots(progress.value, run)
    requires volumeArchive.Some? <==> run.Processed? && run.ok
    requires volumeArchive.Some? ==> volumeArchive.value == Archive(Some(VolumeComicInfo(mangaTitle, run.volume)), Targets(run.renames))
    ensures VolumeLoopState(world, mangaTitle, mapping, start, cbzIn, saved0, runs + [run], WriteArchives(cbz, RunSteps(run)),
                            if volumeArchive.Some? then volumes[run.volume := volumeArchive.value] else volumes,
                            Crashed(run), Some(LedgerStep(progress.value, run)), savedOut)
  {
    RunsSnapshotsSnoc(saved0, start, runs, run, saved, savedOut);
    ReachedSnoc(world, mangaTitle, mapping, start, cbzIn, runs, cbz, volumes, run, volumeArchive);
    LedgerAfterSnoc(start, runs, run);
    NoCrashSnoc(runs, run);
  }

  /** The body of the volume loop for entry `|runs|` of `mapping`: one turn and its bookkeeping. */
  method VolumeLoopStep(tracker: ProgressTracker, mangaTitle: string, mapping: seq<(string, seq<string>)>, world: World,
                        start: Progress, cbzIn: map<string, Archive>, ghost saved0: seq<Progress>,
                        runs: seq<VolumeRun>, cbz: map<string, Archive>, volumes: map<string, Archive>)
    returns (runsOut: seq<VolumeRun>, cbzOut: map<string, Archive>, volumesOut: map<string, Archive>, crashed: bool)
    requires DistinctKeys(mapping) && |runs| < |mapping|
    requires VolumeLoopState(world, mangaTitle, mapping, start, cbzIn, saved0, runs, cbz, volumes, false, tracker.progress, tracker.saved)
    modifies tracker`progress, tracker`saved
    ensures |runsOut| == |runs| + 1
    ensures VolumeLoopState(world, mangaTitle, mapping, start, cbzIn, saved0, runsOut, cbzOut, volumesOut, crashed,
                            tracker.progress, tracker.saved)
  {
    var volume, chapters := mapping[|runs|].0, mapping[|runs|].1;
    ghost var progress, saved := tracker.progress, tracker.saved;
    var run, volumeArchive;
    run, cbzOut, volumeArchive := VolumeTurnStep(tracker, mangaTitle, volume, chapters, world, cbz);
    VolumeLoopStateSnoc(world, mangaTitle, mapping, start, cbzIn, saved0, runs, cbz, volumes, progress, saved,
                        run, volumeArchive, tracker.saved);
    volumesOut := if volumeArchive.Some? then volumes[run.volume := volumeArchive.value] else volumes;
    runsOut := runs + [run];
    crashed := Crashed(run);
  }

  /**
   * The volume loop of `downloadManga` over `mapping`, from the ledger
   * `start` and the chapter archives `cbzIn`, until every entry has had its
   * turn or the process ends.
   */
  method VolumeLoop(tracker: ProgressTracker, mangaTitle: string, mapping: seq<(string, seq<string>)>, world: World,
                    start: Progress, cbzIn: map<string, Archive>)
    returns (runs: seq<VolumeRun>, cbz: map<string, Archive>, volumes: map<string, Archive>, crashed: bool)
    requires DistinctKeys(mapping) && tracker.progress == Some(start)
    modifies tracker`progress, tracker`saved
    ensures tracker.progress == Some(LedgerAfter(start, runs))
    ensures tracker.saved == old(tracker.saved) + RunsSnapshots(start, runs)
    ensures Reached(world, mangaTitle, mapping, start, cbzIn, runs, cbz, volumes)
    ensures crashed <==> runs != [] && Crashed(runs[|runs| - 1])
    ensures NoCrashBefore(runs)
    ensures !crashed ==> |runs| == |mapping|
  {
    runs, cbz, volumes, crashed := [], cbzIn, map[], false;
    assert LedgerAfter(start, runs) == start by {
      assert start.downloadedChapters + [] == start.downloadedChapters;
      assert start.completedVolumes + [] == start.completedVolumes;
    }
    ghost var saved0 := tracker.saved;
    while |runs| < |mapping| && !crashed
      invariant |runs| <= |mapping|
      invariant VolumeLoopState(world, mangaTitle, mapping, start, cbzIn, saved0, runs, cbz, volumes, crashed,
                                tracker.progress, tracker.saved)
      decreases |mapping| - |runs|
    {
      runs, cbz, volumes, crashed := VolumeLoopStep(tracker, mangaTitle, mapping, world, start, cbzIn, saved0, runs, cbz, volumes);
    }
  }

  /**
   * `downloadManga`.  `stored` is the progress file's content (None when it
   * is missing or unreadable), `mapping` the entries of the volume mapping in
   * `Object.entries` order, `cbzIn` the chapter archives already on disk.
   * Returns the turns of the volume loop, the chapter archives and volume
   * archives on disk afterwards, and whether the process ended during the
   * last turn.
   */
  method DownloadManga(mangaTitle: string, mapping: seq<(string, seq<string>)>, stored: Option<Progress>, world: World,
                       cbzIn: map<string, Archive>)
    returns (tracker: ProgressTracker, runs: seq<VolumeRun>, cbz: map<string, Archive>, volumes: map<string, Archive>, crashed: bool)
    requires DistinctKeys(mapping)
    ensures fresh(tracker) && tracker.progressFile == mangaTitle + "_progress.json"
    ensures tracker.progress == Some(LedgerAfter(StartProgress(stored), runs))
    ensures tracker.saved == RunsSnapshots(StartProgress(stored), runs)
    ensures |tracker.saved| == |RunsPacked(runs)| + |OkVolumes(runs)|
    ensures tracker.saved == [] ==> tracker.progress == Some(StartProgress(stored))
    ensures tracker.saved != [] ==> tracker.saved[|tracker.saved| - 1] == tracker.progress.value
    ensures !world.startOk ==> runs == [] && !crashed && cbz == cbzIn && volumes == map[]
    ensures |runs| <= |mapping|
    ensures world.startOk ==> VolumeTurns(world, mangaTitle, mapping[..|runs|], StartProgress(stored), cbzIn, runs)
    ensures world.startOk && !crashed ==> |runs| == |mapping|
    ensures crashed <==> runs != [] && Crashed(runs[|runs| - 1])
    ensures forall i :: 0 <= i < |runs| - 1 ==> !Crashed(runs[i])
    ensures RunsFollowMapping(mapping, StartProgress(stored), runs)
    ensures forall v :: v in volumes <==> v in OkVolumes(runs)
    ensures VolumesPacked(mangaTitle, runs, volumes)
    ensures cbz == DiskAfter(cbzIn, runs)
    ensures forall c :: c in cbz <==> c in cbzIn || c in RunsPacked(runs)
    ensures forall c :: c in cbzIn && c !in RunsPacked(runs) ==> c in cbz && cbz[c] == cbzIn[c]
  {
    tracker := new ProgressTracker(mangaTitle);
    var start := tracker.LoadProgress(stored);
    assert start == StartProgress(stored);
    if world.startOk {
      runs, cbz, volumes, crashed := VolumeLoop(tracker, mangaTitle, mapping, world, start, cbzIn);
      assert [] + RunsSnapshots(start, runs) == RunsSnapshots(start, runs);
      RunEnd(world, mangaTitle, mapping, start, cbzIn, runs, cbz, volumes, tracker.saved, tracker.progress.value);
    } else {
      runs, cbz, volumes, crashed := [], cbzIn, map[], false;
      assert RunsPacked(runs) == [] && OkVolumes(runs) == [] && RunsSnapshots(start, runs) == [];
      assert LedgerAfter(start, runs) == start by {
        assert start.downloadedChapters + [] == start.downloadedChapters;
        assert start.completedVolumes + [] == start.completedVolumes;
      }
    }
  }

  /** What the state the volume loop reaches says about the ledger file, the archives and the turns. */
  lemma RunEnd(world: World, mangaTitle: string, mapping: seq<(string, seq<string>)>, start: Progress,
               cbzIn: map<string, Archive>, runs: seq<VolumeRun>, cbz: map<string, Archive>, volumes: map<string, Archive>,
               saved: seq<Progress>, progress: Progress)
    requires Reached(world, mangaTitle, mapping, start, cbzIn, runs, cbz, volumes)
    requires saved == RunsSnapshots(start, runs) && progress == LedgerAfter(start, runs)
    ensures |saved| == |RunsPacked(runs)| + |OkVolumes(runs)|
    ensures saved == [] ==> progress == start
    ensures saved != [] ==> saved[|saved| - 1] == progress
    ensures |runs| <= |mapping|
    ensures VolumeTurns(world, mangaTitle, mapping[..|runs|], start, cbzIn, runs)
    ensures RunsFollowMapping(mapping, start, runs)
    ensures forall v :: v in volumes <==> v in OkVolumes(runs)
    ensures VolumesPacked(mangaTitle, runs, volumes)
    ensures cbz == DiskAfter(cbzIn, runs)
    ensures forall c :: c in cbz <==> c in cbzIn || c in RunsPacked(runs)
    ensures forall c :: c in cbzIn && c !in RunsPacked(runs) ==> c in cbz && cbz[c] == cbzIn[c]
  {
    DiskAfterKeys(cbzIn, runs);
    DiskAfterKept(cbzIn, runs);
    RunsSnapshotsLast(start, runs);
  }
}
