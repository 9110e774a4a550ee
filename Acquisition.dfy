/**
 * Chapter acquisition, the per-chapter body of `downloadManga`: name the
 * pages, download them in order with the retry loop, stop at the first page
 * that cannot be fetched, and only when every page arrived pack the chapter
 * archive and mark the chapter in the ledger.  The rendering engine's image
 * list, each fetch attempt and each packing attempt are given as inputs.
 */
module Acquisition {
  import opened Wrappers
  import opened Lex
  import opened Numbering
  import opened Paths
  import opened Retry
  import opened Archives
  import opened Ledger
  import opened Metadata

  /** One entry of the series' chapter list; the release date is never read by the core. */
  datatype CatalogEntry = CatalogEntry(name: string, url: string, date: Option<string>)

  const DefaultExtension: string := ".png"
  const PageNumberWidth: nat := 3

  /** `path.extname(imageUrl) || ".png"`. */
  function PageExtension(url: string): (e: string)
    ensures |e| > 0 && e[0] == '.' && '.' !in e[1..] && '/' !in e
  {
    var e := Extname(url);
    if e == "" then DefaultExtension else e
  }

  /** The file name of page `index` (0-based): the 1-based number on three places, then the extension. */
  function PageName(index: nat, url: string): string
  {
    PadNum(index + 1, PageNumberWidth) + PageExtension(url)
  }

  // The ensures spell out each element so that callers need not unfold the
  // sequence comprehension; what the names mean is proved in the lemmas below.
  function PageNames(urls: seq<string>): (names: seq<string>)
    ensures |names| == |urls|
    ensures forall i :: 0 <= i < |urls| ==> names[i] == PageName(i, urls[i])
  {
    seq(|urls|, i requires 0 <= i < |urls| => PageName(i, urls[i]))
  }

  /**
   * Below page 1000 a page name is three digits that read back as the page
   * number, followed by the extension, which `path.extname` finds again.
   */
  lemma PageNameParts(index: nat, url: string)
    requires index + 1 < 1000
    ensures var name := PageName(index, url);
      && |name| > 3
      && name[..3] == PadNum(index + 1, PageNumberWidth)
      && (forall k :: 0 <= k < 3 ==> IsDigit(name[k]))
      && DecimalValue(name[..3]) == index + 1
      && name[3..] == PageExtension(url)
      && Extname(name) == PageExtension(url)
  {
    var d := PadNum(index + 1, PageNumberWidth);
    assert Pow10(3) == 1000;
    PadNumIsFixedDigits(index + 1, 3);
    PadNumValue(index + 1, 3);
    var name := d + PageExtension(url);
    assert name[..3] == d && name[3..] == PageExtension(url);
    assert '.' !in d && '/' !in d;
    ExtnameAfterStem(d, PageExtension(url));
  }

  /** Below 1000 pages the names are pairwise distinct and already in sorted order. */
  lemma PageNamesSorted(urls: seq<string>)
    requires |urls| < 1000
    ensures Sorted(PageNames(urls))
    ensures forall i, j :: 0 <= i < j < |urls| ==> LexLess(PageNames(urls)[i], PageNames(urls)[j])
  {
    var names := PageNames(urls);
    forall i, j | 0 <= i < j < |urls| ensures LexLess(names[i], names[j]) {
      PageNameOrder(i, j, urls[i], urls[j]);
    }
  }

  lemma PageNameOrder(i: nat, j: nat, u: string, v: string)
    requires i < j < 999
    ensures LexLess(PageName(i, u), PageName(j, v))
  {
    assert Pow10(3) == 1000;
    PadNumOrder(i + 1, j + 1, 3);
    LexLessAppend(PadNum(i + 1, 3), PadNum(j + 1, 3), PageExtension(u), PageExtension(v));
  }

  /** The attempt outcomes of page `i`'s download; a page without any fails every attempt. */
  function FetchOutcomes(fetches: seq<seq<bool>>, i: nat): seq<bool>
  {
    if i < |fetches| then fetches[i] else []
  }

  predicate PageFetched(fetches: seq<seq<bool>>, i: nat)
  {
    Succeeds(FetchOutcomes(fetches, i), DefaultRetries)
  }

  lemma PageNamesPrefix(urls: seq<string>, i: nat)
    requires i < |urls|
    ensures PageNames(urls)[..i] + [PageName(i, urls[i])] == PageNames(urls)[..i + 1]
  {
    assert PageNames(urls)[..i + 1] == PageNames(urls)[..i] + [PageNames(urls)[i]];
  }

  /**
   * The download loop: pages in order, each through `downloadImage`, stop at
   * the first failure.  `staged` lists the files written to the staging
   * directory.
   */
  method DownloadPages(images: seq<string>, fetches: seq<seq<bool>>) returns (downloadSuccess: bool, staged: seq<string>)
    ensures downloadSuccess <==> forall i :: 0 <= i < |images| ==> PageFetched(fetches, i)
    ensures |staged| <= |images| && staged == PageNames(images)[..|staged|]
    ensures forall i :: 0 <= i < |staged| ==> PageFetched(fetches, i)
    ensures downloadSuccess ==> staged == PageNames(images)
    ensures !downloadSuccess ==> |staged| < |images| && !PageFetched(fetches, |staged|)
  {
    downloadSuccess, staged := true, [];
    var i := 0;
    while i < |images|
      invariant 0 <= i <= |images|
      invariant staged == PageNames(images)[..i]
      invariant forall k :: 0 <= k < i ==> PageFetched(fetches, k)
    {
      var filename := PageName(i, images[i]);
      var ok, attempts, delays := WithRetries(FetchOutcomes(fetches, i), DefaultRetries);
      if !ok {
        assert !PageFetched(fetches, i) && |staged| == i;
        downloadSuccess := false;
        break;
      }
      PageNamesPrefix(images, i);
      staged := staged + [filename];
      i := i + 1;
    }
    assert downloadSuccess ==> staged == PageNames(images)[..|images|];
  }

  datatype ChapterOutcome =
    | NoImages                    // the rendering engine returned no image URLs
    | DownloadFailed(page: nat)   // this page (0-based) failed all its attempts
    | PackFailed                  // every page arrived, packing failed all its attempts
    | Packed(archive: Archive)    // the chapter archive was written

  /** The archive a successful acquisition writes for a chapter. */
  function ChapterArchive(chapterName: string, volumeNumber: string, mangaTitle: string, images: seq<string>): Archive
  {
    Archive(Some(ChapterComicInfo(chapterName, volumeNumber, mangaTitle)), PageNames(images))
  }

  /**
   * One chapter of the driver's chapter loop, after the skip checks.  The
   * chapter is all-or-nothing: the ledger is marked exactly when every page
   * was fetched and the archive was packed.  `stagingRemoved` says whether
   * the chapter's staging directory was deleted: the no-images branch leaves
   * before the deletion.
   */
  method AcquireChapter(tracker: ProgressTracker, chapter: CatalogEntry, volumeNumber: string, mangaTitle: string,
                        images: seq<string>, fetches: seq<seq<bool>>, packOutcomes: seq<bool>)
    returns (outcome: ChapterOutcome, stagingRemoved: bool)
    requires tracker.progress.Some?
    modifies tracker`progress, tracker`saved
    ensures tracker.progress.Some?
    ensures outcome.NoImages? <==> images == []
    ensures stagingRemoved <==> !outcome.NoImages?
    ensures outcome.DownloadFailed? ==>
      outcome.page < |images| && !PageFetched(fetches, outcome.page) &&
      forall i :: 0 <= i < outcome.page ==> PageFetched(fetches, i)
    ensures outcome.Packed? <==>
      images != [] && (forall i :: 0 <= i < |images| ==> PageFetched(fetches, i)) && Succeeds(packOutcomes, DefaultRetries)
    ensures outcome.PackFailed? ==>
      images != [] && (forall i :: 0 <= i < |images| ==> PageFetched(fetches, i)) && !Succeeds(packOutcomes, DefaultRetries)
    ensures outcome.Packed? ==> outcome.archive == ChapterArchive(chapter.name, volumeNumber, mangaTitle, images)
    ensures tracker.progress.value.downloadedChapters ==
      if outcome.Packed? then AddOnce(old(tracker.progress.value.downloadedChapters), chapter.name)
      else old(tracker.progress.value.downloadedChapters)
    ensures tracker.progress.value.completedVolumes == old(tracker.progress.value.completedVolumes)
    ensures tracker.progress.value.lastAttempt == old(tracker.progress.value.lastAttempt)
    ensures !outcome.Packed? ==> tracker.progress == old(tracker.progress) && tracker.saved == old(tracker.saved)
    ensures outcome.Packed? ==>
      tracker.saved == old(tracker.saved) +
      (if chapter.name in old(tracker.progress.value.downloadedChapters) then [] else [tracker.progress.value])
  {
    if images == [] {
      return NoImages, false;
    }
    var downloadSuccess, staged := DownloadPages(images, fetches);
    if downloadSuccess {
      var comicInfo := ChapterComicInfo(chapter.name, volumeNumber, mangaTitle);
      RenderNotEmpty(ChapterFields(chapter.name, volumeNumber, mangaTitle));
      var ok, archive := CreateCBZ(staged, Some(comicInfo), packOutcomes, DefaultRetries);
      if ok {
        tracker.MarkChapterComplete(chapter.name);
        outcome := Packed(archive.value);
      } else {
        outcome := PackFailed;
      }
    } else {
      outcome := DownloadFailed(|staged|);
    }
    stagingRemoved := true;
  }
}
