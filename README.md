# A verified model of a resumable manga downloader

The downloader in `main.js` works through a series in three stages:

- It reads the series' chapter list from the site.
- It downloads each chapter's pages and packs them into a chapter archive (`.cbz`, a zip with a `ComicInfo.xml` metadata document).
- For every volume of a configured volume mapping, it unpacks that volume's chapter archives and renumbers their pages into one running sequence. It then packs them into a volume archive.

A JSON progress ledger records which chapters and volumes are done, so a later run skips them.

This project models that core in Dafny and proves what it promises.

- **`Ledger`** holds the ledger as a class (`ProgressTracker`) with its guarded, append-only adds. Each add is idempotent.
- **`Retry`** holds the bounded retry loop shared by `downloadImage` and `createCBZ`. It also records the back-off waits the loop asks for.
- **`Archives`** holds the archive a `createCBZ` call writes.
- **`Acquisition`** holds the page names, the all-or-nothing download loop and the acquisition of one chapter.
- **`Assembly`** holds `createVolumeCBZ`:
  - the sorted and filtered listing of each chapter;
  - the renumbering loop with its `pageCounter` and `success` variables;
  - the gate that decides whether the volume is packed and marked.
- **`Metadata`** holds the two `ComicInfo.xml` builders, plus a line-based reader that reads each element back.
- **`Driver`** holds `downloadManga`: the volume loop, the chapter loop and their skip rules.

The helper modules are:

- `Lex`: JavaScript's default string order, and the sort that `files.sort()` performs;
- `Numbering`: `String(n).padStart(k, "0")`;
- `Paths`: POSIX `path.extname`;
- `Wrappers`: `Option`.

What the outside world does is an input to the model. This covers the browser, HTTP, the zip library and the file system. Each reaches the model as a value:

- every download or packing attempt is a sequence of attempt outcomes;
- the image list of a chapter is a sequence of URLs;
- an unpacked archive is its list of entry names;
- each directory operation is a success flag, except the few the model treats as always succeeding (listed under "## Left out").

In `Driver`, a `World` value gathers these outcomes, keyed by the volume or chapter they concern.

One outcome ends the whole process rather than one chapter. Volume assembly reads each chapter archive with `createReadStream(...).pipe(Extract(...))` and listens for errors only on the `Extract` stream (main.js:255-260). `pipe` does not forward the read stream's errors, so a missing chapter archive raises an `error` event nobody listens for, which Node turns into an uncaught exception. The process ends on the spot: no `catch` or `finally` runs, the volume is neither packed nor marked, and no later volume is reached. A chapter has no archive when none is on disk from an earlier run and its own turn did not pack one: for example when it is missing from the catalog, when it had no images, or when its download failed. (In the source a failed packing attempt still leaves a file behind; see "## Left out" for how the model differs there.) The model carries this as `Assembly.Extraction.ArchiveMissing` and a `crashed` result from `Assembly.CreateVolumeCBZ` up to `Driver.DownloadManga`, which stops at the first such volume.

## Model

| member | source | states |
|---|---|---|
| Ledger.ProgressTracker.constructor | main.js:23-26 | The ledger file name is the series title followed by `_progress.json`; nothing is loaded and nothing has been persisted. |
| Ledger.ProgressTracker.LoadProgress | main.js:28-40 | The ledger becomes the stored contents when the file could be read and parsed; otherwise it becomes empty lists with no timestamp. The loaded ledger is returned. |
| Ledger.ProgressTracker.SaveProgress | main.js:42-51 | Persisting hands the current ledger to the writer; the snapshot log grows by exactly that ledger. |
| Ledger.ProgressTracker.MarkChapterComplete | main.js:53-58 | The chapter list becomes `AddOnce(old, name)`; the volume list and the timestamp are unchanged. The ledger is persisted only when the name was new, and afterwards `IsChapterDownloaded(name)` holds. |
| Ledger.ProgressTracker.MarkVolumeComplete | main.js:60-65 | The same for the volume list: guarded add, the chapter list untouched, persisted only when new, and afterwards `IsVolumeCompleted(volume)` holds. |
| Ledger.ProgressTracker.IsChapterDownloaded | main.js:67-69 | A chapter counts as downloaded iff the ledger's chapter list holds its name; `MarkChapterComplete` makes it hold. |
| Ledger.ProgressTracker.IsVolumeCompleted | main.js:71-73 | A volume counts as completed iff the ledger's volume list holds its key; `MarkVolumeComplete` makes it hold. |
| Ledger.AddOnce | main.js:53-65 | The guarded push shared by both marks: add the name only when the list does not hold it. Its properties are `Ledger.AddOnceSpec`. |
| Ledger.AddOnceSpec | main.js:53-65 | A guarded add is append-only: the old list is a prefix of the new one. The members become exactly the old members plus the name. It is a no-op when the name is present and puts the name last otherwise. It is idempotent and never creates a duplicate. |
| Retry.WithRetries | main.js:125-145 | The loop succeeds iff one of the first `retries` attempts succeeds. On success it stops at the first successful attempt; on failure it makes exactly `retries` attempts. Every earlier attempt failed. The waits are `1000 * attempt` for every attempt except the last one made. |
| Archives.Entries | main.js:201-206 | An archive's listing has one entry per packed file plus `ComicInfo.xml` when metadata was given. `ComicInfo.xml` is listed iff metadata was given or a packed file has that name. |
| Archives.CreateCBZ | main.js:186-221 | Packing succeeds iff the retry loop succeeds and yields an archive exactly then. The archive holds the source files, and it holds the metadata document iff the document was given and is non-empty. |
| Lex.LexLeTotal | main.js:263 | The default sort order compares any two strings. |
| Lex.LexLeAntisym | main.js:263 | Two strings that sort before each other are equal. |
| Lex.LexLeTrans | main.js:263 | The order is transitive. |
| Lex.SortSpec | main.js:263 | `files.sort()` yields a sorted permutation of its input. |
| Lex.SortedUnique | main.js:263 | Two sorted permutations of the same strings are equal, so any correct default sort gives the same listing. |
| Lex.SortOfSorted | main.js:263 | Sorting an already sorted listing leaves it unchanged. |
| Numbering.NatToStringLength | main.js:271 | `String(n)` has at most `k` digits iff `n < 10^k`. |
| Numbering.PadNumIsFixedDigits | main.js:271 | Below `10^k`, padding gives exactly the `k`-digit decimal numeral of `n`. |
| Numbering.PadNumOrder | main.js:271 | Below `10^k`, padded numbers have `k` characters and sort in numeric order. |
| Numbering.PadNumNoTruncation | main.js:271 | From `10^k` upward, `padStart` leaves `String(n)` unchanged, so the numeral is longer than `k`. |
| Numbering.PadNumValue | main.js:271 | A padded numeral reads back as its number. |
| Numbering.PadNumInjective | main.js:271 | Different numbers never pad to the same numeral, whatever their size. |
| Numbering.DecimalValueOfNatToString | main.js:271 | `String(n)` reads back as `n`. |
| Numbering.PadNum | main.js:271 | `String(n).padStart(k, "0")`; the lemmas above state what it yields. |
| Lex.Sort | main.js:263 | The sort `files.sort()` performs; `Lex.SortSpec` states that it sorts and permutes. |
| Paths.Extname | main.js:268 | The extension is empty, or else a dot followed by no other dot and no slash. |
| Paths.ExtnameAfterStem | main.js:270 | Appending an extension to a stem without dots or slashes gives a name whose extension is that extension. |
| Metadata.ChapterNumber | main.js:355 | The chapter number is a non-empty string of digits. |
| Metadata.ChapterNumberIsFirstRun | main.js:355 | The chapter number is the first maximal run of digits in the chapter name. |
| Metadata.ChapterNumberCases | main.js:355 | A name without digits gets `"0"`; a name with digits gets the maximal digit run beginning at its first digit. |
| Metadata.LinesOfJoin | main.js:357-365 | Joining lines without newlines and splitting again gives back the lines: the partner of the reader. |
| Metadata.ReadRendered | main.js:354-378 | Reading a tag back from a rendered document yields the first field with that tag, or nothing. |
| Metadata.ReadAt | main.js:354-378 | A tag's first field is read back as its value. |
| Metadata.ReadAbsent | main.js:354-378 | A tag present in no field is not found. |
| Metadata.RenderNotEmpty | main.js:201-203 | Every rendered document is non-empty, so `createCBZ` always embeds it. |
| Metadata.ChapterComicInfoFields | main.js:354-366 | The chapter document's elements read back as follows: Series is the series title; Number is the chapter number; Volume is the volume key; Title is the chapter name; Summary is `Chapter <number> of <series>`; Genre is `Manga`. It has no Language element. |
| Metadata.VolumeComicInfoFields | main.js:368-378 | The volume document's elements read back as follows: Series is the series title; Volume is the volume key; Title is `Volume <key>`; Summary is `Volume <key> of <series>`; Genre is `Manga`; Language is `en`. It has no Number element. |
| Metadata.ChapterComicInfo | main.js:354-366 | The chapter document is the rendering of the chapter fields; what it says is `Metadata.ChapterComicInfoFields`. |
| Metadata.VolumeComicInfo | main.js:368-378 | The volume document is the rendering of the volume fields; what it says is `Metadata.VolumeComicInfoFields`. |
| Acquisition.PageExtension | main.js:452 | A page's extension is never empty. It is a dot followed by no other dot and no slash: the URL's extension, or `.png` when the URL has none. |
| Acquisition.PageNameParts | main.js:452-456 | Below page 1000, a page name is three digits reading back as the page number, followed by the page extension, and `path.extname` finds that extension again. |
| Acquisition.PageNamesSorted | main.js:451-456 | Below 1000 pages, the names are pairwise distinct and already in sorted order: download order is listing order. |
| Acquisition.DownloadPages | main.js:450-464 | The loop succeeds iff every page is fetched within its retries. The staged files are a prefix of the page names, all fetched. On success the staged files are all the names; on failure the loop stopped at the first page that failed. |
| Acquisition.AcquireChapter | main.js:434-478 | The outcome is one of four cases: no images iff the image list is empty; a download failing at the first page that failed; a pack failure after every page arrived; or packed iff every page arrived and packing succeeded. A packed chapter's archive holds its page names and its chapter document, and only a packed chapter is added to the ledger. A packed chapter new to the ledger appends the new ledger to the snapshot log, and a packed chapter already listed appends nothing. Otherwise the ledger and its snapshot log are unchanged. The staging directory is removed in every case except the no-images one. |
| Assembly.Lower | main.js:266 | Lower-casing keeps the length. |
| Assembly.HasImageExtension | main.js:266 | A name passes the image test iff it ends, ignoring case, in a dot and one of `jpg`, `jpeg`, `png`, `webp`. |
| Assembly.IsPage | main.js:264-267 | A listed file is a page iff it is not `ComicInfo.xml` and passes the image test. |
| Assembly.Pages | main.js:263-267 | Filtering a listing keeps at most its entries, each of them a page. |
| Assembly.KeptFiles | main.js:263-267 | The files a chapter contributes are sorted and are exactly (as a multiset) the pages of its listing. |
| Assembly.PagesSorted | main.js:263-267 | Filtering a sorted listing keeps it sorted. |
| Assembly.PagesPerm | main.js:263-267 | Filtering commutes with permutation: permuted listings keep permuted pages. |
| Assembly.PagesOfPages | main.js:264-267 | Filtering a listing of pages changes nothing. |
| Assembly.ImageExtensionAfterStem | main.js:266 | A stem without dots does not change whether a name ends in an image extension. |
| Assembly.PageNamesArePages | main.js:264-267 | Below 1000 pages whose URLs carry image extensions, every page name survives the image filter. |
| Assembly.EntriesPages | main.js:201-206 | The chapter document never survives the filter, so an archive's kept pages are its packed files' kept pages. |
| Assembly.AcquiredPagesKept | main.js:254-267 | Consider a chapter of fewer than 1000 pages, all with image extensions. When the volume unpacks the chapter's archive, sorts the listing and filters it, the result is exactly the chapter's pages in download order. |
| Assembly.MovePages | main.js:268-276 | The inner loop moves the kept pages of the sorted listing in order. Each gets the next number. It stops at the page whose rename throws, or moves them all. |
| Assembly.MoveChapter | main.js:250-286 | One chapter's turn moves what `ChapterMoves` says. The numbering stays consecutive, and the turn is ok iff the listing, every rename and the cleanup succeeded. It ends the process exactly when the chapter archive is missing, and then renames nothing. |
| Assembly.RenameFailedAt | main.js:263-276 | When the rename of a page in the sorted listing throws, the pages moved before it are a proper prefix of the chapter's kept pages. |
| Assembly.Renumber | main.js:246-287 | The renames are numbered 1, 2, 3… in order; the counter is one past the last. The process ends iff some chapter archive is missing, and the sources are then the moved pages of the chapters before the first missing one; otherwise they are every chapter's moved pages in chapter-list order. Without a crash, `success` holds iff every chapter was ok, and then the sources are every kept page of every chapter and the counter is 1 plus their total. |
| Assembly.AdvanceChapter | main.js:246-287 | A chapter whose archive was read extends the chapter loop's moves by exactly that chapter's moves, keeps `success` true iff every chapter so far was ok, and is not the first chapter without an archive. |
| Assembly.MovesWhenAllOk | main.js:249-287 | When every chapter is ok, the moves are all the kept pages. |
| Assembly.AllPagesLength | main.js:246-276 | The kept pages number `TotalKept` in all. |
| Assembly.NumberedTargetsSorted | main.js:268-274 | Below 9999 pages, the volume's page names sort in renaming order, which is chapter-list order and then sorted order within each chapter. |
| Assembly.PageTarget | main.js:268-271 | The new name of a page is its number padded to four digits followed by the original file's extension; `Assembly.TargetOrder` and `Assembly.TargetInjective` say what that gives. |
| Assembly.TargetOrder | main.js:271 | Below 10000, page names sort in the order of their numbers, whatever their extensions. |
| Assembly.TargetInjective | main.js:268-272 | Two different numbers give different page names, whatever the extensions. |
| Assembly.NumberedTargetsDistinct | main.js:268-274 | However many pages there are, no two renames of a volume target the same name. |
| Assembly.CreateVolumeCBZ | main.js:224-321 | A completed volume returns true with nothing changed and nothing renamed. Any other volume:<br>• ends the process iff its setup succeeded and one of its chapter archives is missing;<br>• returns true iff its setup, every chapter and packing succeeded;<br>• returns true iff it yields an archive;<br>• whenever setup succeeded, has renumbered the chapters up to the first missing archive, or all of them, even after failures.<br>A packed volume holds the renumbered pages and the volume document. The volume is marked iff the result is true; the chapter list and timestamp are unchanged, and a false result changes nothing. A true result on a volume new to the ledger appends the new ledger to the snapshot log. |
| Assembly.FirstMissing | main.js:255-260 | The chapter at which assembly ends the process is the first one whose archive is missing: none before it is missing, and it is missing unless it is past the end. |
| Assembly.MovesBeforeAt | main.js:249-260 | When the first `c` chapters have archives and chapter `c` has none, the process ends at `c` and the moves are those of the first `c` chapters. |
| Driver.FindChapter | main.js:419-421 | The lookup finds nothing iff no catalog entry has the name. Otherwise it finds the first entry with that name. |
| Driver.ChapterTurnAt | main.js:409-480 | Each turn of the chapter loop sees the ledger plus the chapters packed by the earlier turns. |
| Driver.ChapterTurnStep | main.js:411-480 | One chapter turn follows a fixed order. A chapter in the ledger is skipped first. A chapter missing from the catalog is skipped next. Any other chapter is acquired from its first catalog match with that chapter's world outcomes. The ledger gains exactly a packed chapter, and exactly a packed chapter's archive is written. The snapshot log gains the new ledger exactly when the chapter was packed. |
| Driver.ChapterLoop | main.js:409-481 | The loop runs every chapter turn in list order. The ledger gains the packed chapters in order. The archives on disk are the fold of the turns' writes over those at the start: they gain exactly the packed chapters' archives, and the others are kept. The snapshot log gains `Driver.ChapterSnapshots`: one ledger per packed chapter, the one just after it was added. |
| Driver.ChapterTurnsKeepDistinct | main.js:409-481 | A chapter loop never lists a chapter twice in a duplicate-free ledger. |
| Driver.WriteArchivesSpec | main.js:409-481 | Folding a chapter loop's writes over the archives on disk keeps the archives it did not pack and adds exactly those it packed, each holding its packed archive. |
| Driver.VolumeTurnStep | main.js:399-490 | One volume turn skips a volume the ledger lists, without assembling it. Any other volume runs its chapter loop and is then assembled from the archives on disk after that loop, those it found plus those it wrote, whatever the chapter outcomes; it ends the process at the first chapter without an archive. The ledger gains the packed chapters, then the volume if it was packed; a volume archive is produced exactly then. The archives on disk after the turn are those at its start with the turn's writes applied. The snapshot log gains `Driver.TurnSnapshots`: the chapter snapshots, then the ledger with the volume added if it was packed. |
| Driver.TurnExtractions | main.js:250-260 | A volume unpacks a chapter its turn packed from the archive the turn just wrote; a chapter the turn did not pack from the archive on disk at the start of the turn; and a chapter with neither is missing. |
| Driver.MissingArchiveEndsRun | main.js:255-260 | Once its staging directories exist, a volume with a chapter that has no archive on disk and was not packed in its turn ends the process and is not packed. |
| Driver.PackedChapterPages | main.js:254-267 | A chapter packed in the turn, of fewer than 1000 pages whose URLs carry image extensions, contributes exactly its downloaded pages in download order when its extraction succeeds. |
| Driver.DiskAfterKeys | main.js:398-491 | After any number of volume turns the chapter archives on disk are those at the start plus those the turns packed. |
| Driver.DiskAfterKept | main.js:398-491 | An archive present at the start that no turn packed is left unchanged. |
| Driver.VolumeTurnsKeepDistinct | main.js:398-491 | The whole run keeps both ledger lists duplicate-free. |
| Driver.LedgerAfterSnoc | main.js:398-491 | The ledger after one more volume turn is the ledger after that turn applied to the ledger before it. |
| Driver.ReachedSnoc | main.js:398-491 | One more volume turn keeps the volume loop's invariant. That invariant covers: the turns follow the mapping in order, each seeing the ledger and the archives the earlier ones left; a turn skips iff its volume was completed at the start; the volume archives are exactly those of the packed volumes; and the chapter archives are those the turns' writes leave. |
| Driver.VolumeLoop | main.js:398-491 | The volume loop runs the mapping's entries in order until all have had their turn or one ends the process; it keeps the loop invariant of `Driver.ReachedSnoc`, and the ledger is the start with every turn's additions. The snapshot log gains `Driver.RunsSnapshots`, every turn's snapshots in order. |
| Driver.ChapterSnapshotsLast | main.js:53-58 | Over a chapter loop, the snapshot log has one entry per packed chapter; with none the ledger is unchanged, and otherwise the last entry is the ledger after the loop, so the file on disk matches memory. |
| Driver.TurnSnapshotsLast | main.js:53-65 | Over a volume turn, the snapshot log has one entry per packed chapter plus one if the volume was packed; with none the ledger is unchanged, and otherwise the last entry is the ledger after the turn. |
| Driver.RunsSnapshotsLast | main.js:53-65 | Over all volume turns, the snapshot log has one entry per packed chapter and per packed volume; with none the ledger is the start, and otherwise the last entry is the final ledger. |
| Driver.RunEnd | main.js:381-498 | The state the volume loop reaches fixes the ledger file's writes (one per packed chapter and volume, the last equal to the final ledger, none when the ledger is unchanged), the turns, the volume archives and the chapter archives, including that an archive on disk that no turn packed is left as it was. |
| Driver.VolumeTurnsPrefix | main.js:398-491 | The first `k` turns of the volume loop are the turns of the first `k` mapping entries. |
| Driver.VolumeLoopStep | main.js:399-490 | One iteration of the volume loop adds exactly one turn and keeps the loop invariant: the ledger, the disk, the volume archives, the snapshot log and the crash flag all agree with the turns so far. |
| Driver.DownloadManga | main.js:381-498 | The run creates a fresh ledger for the title and loads it. If the output directories or the catalog's browser fail, nothing else happens. Otherwise the volumes are processed in mapping order, each seeing the ledger and the chapter archives the earlier ones left; a volume skips iff it was completed at the start. The run stops after the first turn that ends the process, and only there; without one every entry has its turn. The final ledger is the start plus the packed chapters and packed volumes in order. The volume archives are exactly those of the packed volumes. The chapter archives are the initial ones plus the packed chapters, and an initial archive no turn packed is unchanged. The ledger file is written once per packed chapter and once per packed volume, in order; each write is the ledger of that moment, the last write is the final ledger, and with no write the ledger is the start. |

## Left out

- The browser work of `getChapterLinks` (main.js:323-352) and `getChapterImages` (main.js:148-183) is DOM scraping in an external engine. Only its results are modelled: the catalog and each chapter's image URLs, empty when scraping gave up.
- HTTP, the zip writer and reader, and the file system are foreign I/O. Each call is an outcome in `World`, or an attempt-outcome sequence, or an entry listing.
- `ensureDir` (main.js:112-123) is a success flag per directory operation. It is not modelled as a function on paths.
- The `setTimeout` waits are timing only. `Retry.WithRetries` returns the requested delays instead of waiting.
- Logging, `Date.now()` and console output have no logic to model, and `lastAttempt` is never written by the core.
- JSON parsing and serialisation of the progress file are library behaviour. A file that is missing or malformed arrives as `None`. A failed write is only logged by the source, so it is not represented.
- `path.join` and the configuration constants (main.js:10-20) are left out. File system locations are keys such as the chapter name.
- The top-level invocation (main.js:501) is left out.
- A missing `VOLUME_MAPPING` entry for the series is left out. The mapping is given as its `Object.entries` list, whose keys are distinct (`Driver.DownloadManga` requires this); an empty list stands for no volumes.
- Lex.LexLe: compares Unicode code points, while JavaScript compares UTF-16 code units. The two orders differ only between characters above U+FFFF and characters from U+E000 to U+FFFF.
- Each I/O outcome in `World` is a fixed function of what it concerns. The unpacking outcomes (`extractOk`, `renameFault`, `cleanupOk`) are keyed by volume and chapter, so a chapter listed twice in one volume unpacks alike both times, while the same chapter in two volumes may unpack differently. A chapter's download and packing attempts are keyed by its name (`fetches`, `chapterPack`) and its image list by its URL, so they are the same in every volume that lists it.
- Launching or closing the browser can throw. For the chapter list, `chromium.launch()` (main.js:324) sits outside the `try` and `browser.close()` (main.js:350) in the `finally`; a throw from either reaches the outer `catch` of `downloadManga` (main.js:495-497) before any volume is processed. `World.startOk` covers this together with the three output directories. For a chapter's images, `chromium.launch()` (main.js:150) sits outside the `try`, and the `catch` begins with `browser.close()` (main.js:173); a throw from either leaves `getChapterImages` and ends the run through the same outer `catch`. The model does not represent that case: the image list is an input.
- A progress file that parses as JSON of the wrong shape, such as `{}`, becomes the ledger (main.js:31) and then throws at the first `includes` (main.js:72, called at main.js:400), which ends the run through the outer `catch`. The model's stored ledger always has both lists.
- Any other failure to open a chapter archive for reading, such as a permissions error, raises the same unhandled `error` event as a missing one. The model derives the extraction only from whether the archive exists.
- A failing `ensureDir` of a chapter staging directory (main.js:431) or `fs.rm` of it (main.js:478) throws out of the loop into the outer `catch` (main.js:495-497) and ends the run. The model treats those two calls as succeeding.
- Volume assembly creates each chapter's unpack directory with `ensureDir` (main.js:254) inside the per-chapter `try`. The model treats that call as succeeding. A failure there would be caught (main.js:279-286) before the archive is opened, so a chapter with a missing archive would count as a caught chapter failure instead of ending the process.
- The file a failed chapter packing attempt leaves on disk is not modelled. Each attempt of `createCBZ` opens the output with `createWriteStream` (main.js:190), which creates or truncates `cbz/<name>.cbz`, so a failed pack normally leaves a damaged file there. In the model a pack failure writes nothing. The next two lines give the consequences. A failed volume packing attempt (main.js:288-303) likewise leaves a damaged `<title> Volume <n>.cbz` (main.js:290-293), which the model does not record either.
- Driver.MissingArchiveEndsRun and Driver.DownloadManga state the crash for a chapter whose pack failed and which had no earlier archive. In the source that chapter's damaged file is opened, its `Extract` error is caught as a chapter failure (main.js:279-286), and the run goes on to later volumes.
- Driver.WriteArchivesSpec, Driver.ChapterLoop and Driver.DiskAfterKept keep a chapter's earlier archive when its pack fails. In the source that failed pack truncates the earlier archive.
- Acquisition.AcquireChapter: assumes the chapter staging directory starts empty at `ensureDir(tempDir)` (main.js:430-431). `createCBZ` packs the whole directory (main.js:205), so files left there by an earlier interrupted run would be packed too, while the model's archive holds exactly the pages of this download.
- Leftover staging files are only recorded in `Acquisition.AcquireChapter`'s `stagingRemoved` result. That result is false in the no-images case, because that branch skips the `fs.rm`. The model does not track staging directories as a whole.
- The order in which the zip writer stores entries is not modelled. `Archives.Entries` lists `ComicInfo.xml` first, and every use of a listing sorts it first (main.js:263).
- A URL whose last segment is a dot-file name such as `.png` has an empty `path.extname`, so its page gets the default `.png`; the model follows that rule exactly.
- Metadata.ChapterComicInfoFields and Metadata.VolumeComicInfoFields are proved only for names without line breaks. The reader splits documents into lines, and a value containing a newline would be split with it.
