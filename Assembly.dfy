/**
 * Volume assembly (`createVolumeCBZ`): for each chapter of the volume, in
 * list order, extract its archive, sort the extracted names, keep the page
 * images, and move each to the volume staging root under the next number of
 * one running counter, on four places, keeping its extension.  A chapter
 * that fails clears `success` and the loop goes on with the next chapter;
 * the volume is packed, and marked, only when every chapter succeeded.
 * Extraction, each rename and the clean-up of a chapter's directory are
 * given as outcomes.  A chapter archive that cannot be opened is not a
 * chapter failure: the read stream's error has no listener (only the
 * extractor's has), so it ends the process in the middle of the loop.
 */
module Assembly {
  import opened Wrappers
  import opened Lex
  import opened Numbering
  import opened Paths
  import opened Retry
  import opened Archives
  import opened Ledger
  import opened Metadata
  import opened Acquisition

  const VolumePageWidth: nat := 4

  // ---------------------------------------------------------------------
  // Which extracted files are pages.

  function LowerAscii(c: char): char
  {
    if 'A' <= c <= 'Z' then (c as int + 32) as char else c
  }

  function Lower(s: string): (r: string)
    ensures |r| == |s|
  {
    seq(|s|, i requires 0 <= i < |s| => LowerAscii(s[i]))
  }

  /** `f` ends with a dot and then `ext` in any letter case. */
  predicate EndsWithDotExt(f: string, ext: string)
  {
    |f| > |ext| && f[|f| - |ext| - 1] == '.' && Lower(f[|f| - |ext|..]) == ext
  }

  /** `/\.(jpg|jpeg|png|webp)$/i.test(f)`. */
  predicate HasImageExtension(f: string)
  {
    EndsWithDotExt(f, "jpg") || EndsWithDotExt(f, "jpeg") || EndsWithDotExt(f, "png") || EndsWithDotExt(f, "webp")
  }

  predicate IsPage(f: string)
  {
    f != ComicInfoName && HasImageExtension(f)
  }

  /** The pages among `s`, in the order of `s`. */
  function Pages(s: seq<string>): (ps: seq<string>)
    ensures |ps| <= |s|
    ensures forall i :: 0 <= i < |ps| ==> IsPage(ps[i])
  {
    if s == [] then [] else Pages(s[..|s| - 1]) + (if IsPage(s[|s| - 1]) then [s[|s| - 1]] else [])
  }

  /**
   * What the inner loop renames, in order: the pages of the sorted listing,
   * which are sorted and are the pages of the listing in any order.
   */
  function KeptFiles(files: seq<string>): (kept: seq<string>)
    ensures Sorted(kept)
    ensures multiset(kept) == multiset(Pages(files))
  {
    SortSpec(files);
    PagesSorted(Sort(files));
    PagesPerm(Sort(files), files);
    Pages(Sort(files))
  }

  lemma {:induction false} PagesAppend(a: seq<string>, b: seq<string>)
    ensures Pages(a + b) == Pages(a) + Pages(b)
    decreases |b|
  {
    if b == [] {
      assert a + b == a;
    } else {
      var b' := b[..|b| - 1];
      assert (a + b)[..|a + b| - 1] == a + b';
      PagesAppend(a, b');
    }
  }

  lemma {:induction false} PagesMember(s: seq<string>, x: string)
    requires x in Pages(s)
    ensures x in s && IsPage(x)
    decreases |s|
  {
    var s' := s[..|s| - 1];
    if x in Pages(s') { PagesMember(s', x); }
  }

  lemma {:induction false} PagesSorted(s: seq<string>)
    requires Sorted(s)
    ensures Sorted(Pages(s))
    decreases |s|
  {
    if s != [] {
      var s', last := s[..|s| - 1], s[|s| - 1];
      assert Sorted(s') by {
        forall i, j | 0 <= i < j < |s'| ensures LexLe(s'[i], s'[j]) {
          assert s'[i] == s[i] && s'[j] == s[j];
        }
      }
      PagesSorted(s');
      if IsPage(last) {
        var p := Pages(s');
        forall i | 0 <= i < |p| ensures LexLe(p[i], last) {
          PagesMember(s', p[i]);
          var k :| 0 <= k < |s'| && s'[k] == p[i];
          assert s[k] == p[i] && k < |s| - 1;
        }
        SortedSnoc(p, last);
      }
    }
  }

  /** A sorted list followed by an element no smaller than any of its own is sorted. */
  lemma SortedSnoc(p: seq<string>, x: string)
    requires Sorted(p)
    requires forall i :: 0 <= i < |p| ==> LexLe(p[i], x)
    ensures Sorted(p + [x])
  {
    var q := p + [x];
    forall i, j | 0 <= i < j < |q| ensures LexLe(q[i], q[j]) {
      if j < |p| {
        assert q[i] == p[i] && q[j] == p[j];
      } else {
        assert q[i] == p[i] && q[j] == x;
      }
    }
  }

  /** Each string occurs in the pages as often as in `s` if it is a page, and never otherwise. */
  lemma {:induction false} PagesCount(s: seq<string>, x: string)
    ensures multiset(Pages(s))[x] == if IsPage(x) then multiset(s)[x] else 0
    decreases |s|
  {
    if s != [] {
      var s', last := s[..|s| - 1], s[|s| - 1];
      PagesCount(s', x);
      assert s == s' + [last];
      assert multiset(s) == multiset(s') + multiset{last};
    }
  }

  /** Filtering respects permutations: equal multisets in, equal multisets out. */
  lemma PagesPerm(a: seq<string>, b: seq<string>)
    requires multiset(a) == multiset(b)
    ensures multiset(Pages(a)) == multiset(Pages(b))
  {
    forall x ensures multiset(Pages(a))[x] == multiset(Pages(b))[x] {
      PagesCount(a, x);
      PagesCount(b, x);
    }
  }

  lemma {:induction false} PagesOfPages(s: seq<string>)
    requires forall i :: 0 <= i < |s| ==> IsPage(s[i])
    ensures Pages(s) == s
    decreases |s|
  {
    if s != [] {
      PagesOfPages(s[..|s| - 1]);
      assert s == s[..|s| - 1] + [s[|s| - 1]];
    }
  }

  /** What the regular expression sees of a page name is the extension alone. */
  lemma ImageExtensionAfterStem(stem: string, e: string)
    requires '.' !in stem
    requires |e| > 0 && e[0] == '.' && '.' !in e[1..]
    ensures HasImageExtension(stem + e) <==> HasImageExtension(e)
  {
    DotExtAfterStem(stem, e, "jpg");
    DotExtAfterStem(stem, e, "jpeg");
    DotExtAfterStem(stem, e, "png");
    DotExtAfterStem(stem, e, "webp");
  }

  lemma DotExtAfterStem(stem: string, e: string, ext: string)
    requires '.' !in stem
    requires |e| > 0 && e[0] == '.' && '.' !in e[1..]
    ensures EndsWithDotExt(stem + e, ext) <==> EndsWithDotExt(e, ext)
  {
    var f := stem + e;
    if |e| >= |ext| + 1 {
      assert f[|f| - |ext| - 1] == e[|e| - |ext| - 1];
      assert f[|f| - |ext|..] == e[|e| - |ext|..];
    } else if |f| > |ext| {
      assert f[|f| - |ext| - 1] in stem;
    }
  }

  /**
   * The page names of a chapter of fewer than 1000 pages, whose URLs all
   * carry an image extension, all pass the volume's page filter.
   */
  lemma PageNamesArePages(images: seq<string>)
    requires |images| < 1000
    requires forall i :: 0 <= i < |images| ==> HasImageExtension(PageExtension(images[i]))
    ensures Pages(PageNames(images)) == PageNames(images)
  {
    var names := PageNames(images);
    forall i | 0 <= i < |names| ensures IsPage(names[i]) {
      PageNameParts(i, images[i]);
      var d := PadNum(i + 1, PageNumberWidth);
      PadNumDigits(i + 1, PageNumberWidth);
      assert '.' !in d;
      ImageExtensionAfterStem(d, PageExtension(images[i]));
      assert names[i][0] != ComicInfoName[0];
    }
    PagesOfPages(names);
  }

  /** The metadata entry of a chapter archive is never taken for a page. */
  lemma EntriesPages(a: Archive)
    ensures Pages(Entries(a)) == Pages(a.files)
  {
    var head := if a.comicInfo.Some? then [ComicInfoName] else [];
    assert Entries(a) == head + a.files;
    PagesAppend(head, a.files);
    assert Pages(head) == [] by {
      if head != [] {
        assert head[..0] == [];
        var n := |ComicInfoName|;
        forall ext | ext in ["jpg", "jpeg", "png", "webp"] ensures !EndsWithDotExt(ComicInfoName, ext) {
          assert Lower(ComicInfoName[n - |ext|..])[|ext| - 1] == LowerAscii(ComicInfoName[n - 1]) == 'l';
        }
      }
    }
  }

  /**
   * The archive acquisition writes for a chapter of fewer than 1000 pages,
   * whose URLs all carry an image extension, gives back exactly its pages,
   * in download order, when the volume sorts and filters its listing.
   */
  lemma AcquiredPagesKept(a: Archive, images: seq<string>)
    requires a.files == PageNames(images)
    requires |images| < 1000
    requires forall i :: 0 <= i < |images| ==> HasImageExtension(PageExtension(images[i]))
    ensures KeptFiles(Entries(a)) == PageNames(images)
  {
    var entries := Entries(a);
    PageNamesArePages(images);
    EntriesPages(a);
    SortSpec(entries);
    PagesPerm(Sort(entries), entries);
    PagesSorted(Sort(entries));
    PageNamesSorted(images);
    SortedUnique(Pages(Sort(entries)), PageNames(images));
  }

  // ---------------------------------------------------------------------
  // Renumbering.

  /**
   * How one chapter's turn went: the archive could not be read at all, which
   * ends the process; or it could not be extracted or listed, which the
   * chapter's `catch` handles; or it was listed, the rename of the
   * `renameFailsAt`-th kept page (if any) threw, and removing the chapter's
   * directory succeeded or not.
   */
  datatype Extraction =
    | ArchiveMissing
    | ExtractFailed
    | Extracted(files: seq<string>, renameFailsAt: Option<nat>, cleanupOk: bool)

  datatype Move = Move(chapter: string, file: string)
  /** The rename of `source` to the volume page numbered `number`. */
  datatype Rename = Rename(source: Move, number: nat)

  /** How many of the chapter's kept pages were moved before its turn ended. */
  function RenamedCount(x: Extraction): nat
  {
    match x
    case ArchiveMissing => 0
    case ExtractFailed => 0
    case Extracted(files, failAt, _) =>
      if failAt.Some? && failAt.value < |KeptFiles(files)| then failAt.value else |KeptFiles(files)|
  }

  /** The chapter's turn raised nothing. */
  predicate ChapterOk(x: Extraction)
  {
    x.Extracted? && RenamedCount(x) == |KeptFiles(x.files)| && x.cleanupOk
  }

  function MovesOf(chapter: string, files: seq<string>): (ms: seq<Move>)
    ensures |ms| == |files|
    ensures forall k :: 0 <= k < |files| ==> ms[k] == Move(chapter, files[k])
  {
    seq(|files|, k requires 0 <= k < |files| => Move(chapter, files[k]))
  }

  function ChapterMoves(chapter: string, x: Extraction): seq<Move>
  {
    if !x.Extracted? then [] else MovesOf(chapter, KeptFiles(x.files)[..RenamedCount(x)])
  }

  /** The moves made, chapter by chapter in list order. */
  function Moves(chapters: seq<string>, io: seq<Extraction>): seq<Move>
    requires |chapters| == |io|
  {
    if chapters == [] then []
    else Moves(chapters[..|chapters| - 1], io[..|io| - 1]) + ChapterMoves(chapters[|chapters| - 1], io[|io| - 1])
  }

  /** Every kept page of every listed chapter, chapter by chapter in list order. */
  function AllPages(chapters: seq<string>, io: seq<Extraction>): seq<Move>
    requires |chapters| == |io|
  {
    if chapters == [] then []
    else
      var x := io[|io| - 1];
      AllPages(chapters[..|chapters| - 1], io[..|io| - 1]) + (if x.Extracted? then MovesOf(chapters[|chapters| - 1], KeptFiles(x.files)) else [])
  }

  /** The number of kept pages over all listed chapters. */
  function TotalKept(io: seq<Extraction>): nat
  {
    if io == [] then 0
    else TotalKept(io[..|io| - 1]) + (if io[|io| - 1].Extracted? then |KeptFiles(io[|io| - 1].files)| else 0)
  }

  /** The first chapter whose archive cannot be read, or the number of chapters when there is none. */
  function FirstMissing(io: seq<Extraction>): (m: nat)
    ensures m <= |io|
    ensures forall k :: 0 <= k < m ==> !io[k].ArchiveMissing?
    ensures m < |io| ==> io[m].ArchiveMissing?
  {
    if io == [] || io[0].ArchiveMissing? then 0
    else
      var m := FirstMissing(io[1..]);
      assert forall k :: 1 <= k < m + 1 ==> io[k] == io[1..][k - 1];
      m + 1
  }

  /** The moves made by the chapters before the process ends, or by all of them. */
  function MovesBefore(chapters: seq<string>, io: seq<Extraction>): seq<Move>
    requires |chapters| == |io|
  {
    var m := FirstMissing(io);
    Moves(chapters[..m], io[..m])
  }

  /** The first missing archive is the one at `c` (or there is none, when `c` is the number of chapters). */
  lemma MovesBeforeAt(chapters: seq<string>, io: seq<Extraction>, c: nat)
    requires |chapters| == |io| && c <= FirstMissing(io)
    requires c < |io| ==> io[c].ArchiveMissing?
    ensures FirstMissing(io) == c
    ensures MovesBefore(chapters, io) == Moves(chapters[..c], io[..c])
  {
  }

  function Sources(renames: seq<Rename>): (ms: seq<Move>)
    ensures |ms| == |renames|
    ensures forall k :: 0 <= k < |renames| ==> ms[k] == renames[k].source
  {
    seq(|renames|, k requires 0 <= k < |renames| => renames[k].source)
  }

  function Targets(renames: seq<Rename>): (ts: seq<string>)
    ensures |ts| == |renames|
    ensures forall k :: 0 <= k < |renames| ==> ts[k] == Target(renames[k])
  {
    seq(|renames|, k requires 0 <= k < |renames| => Target(renames[k]))
  }

  /** `String(n).padStart(4, "0") + path.extname(file)`. */
  function PageTarget(n: nat, file: string): string
  {
    PadNum(n, VolumePageWidth) + Extname(file)
  }

  /** The name a rename gives its file in the volume staging root. */
  function Target(r: Rename): string
  {
    PageTarget(r.number, r.source.file)
  }

  /** The `k`-th rename (0-based) of the volume gets number `k + 1`, whatever failed before it. */
  predicate Numbered(renames: seq<Rename>)
  {
    forall k :: 0 <= k < |renames| ==> renames[k].number == k + 1
  }

  lemma SourcesSnoc(renames: seq<Rename>, r: Rename)
    ensures Sources(renames + [r]) == Sources(renames) + [r.source]
  {
  }

  lemma PagesSnoc(s: seq<string>, j: nat)
    requires j < |s|
    ensures Pages(s[..j + 1]) == Pages(s[..j]) + (if IsPage(s[j]) then [s[j]] else [])
  {
    assert s[..j + 1][..j] == s[..j];
  }

  lemma MovesStep(chapters: seq<string>, io: seq<Extraction>, c: nat)
    requires |chapters| == |io| && c < |chapters|
    ensures Moves(chapters[..c + 1], io[..c + 1]) == Moves(chapters[..c], io[..c]) + ChapterMoves(chapters[c], io[c])
  {
    assert chapters[..c + 1][..c] == chapters[..c] && io[..c + 1][..c] == io[..c];
  }

  /**
   * Where the inner loop stops tells what the chapter moved: the first
   * `failAt` kept pages when that rename throws, all of them otherwise.
   */
  lemma ChapterEnd(chapter: string, files: seq<string>, failAt: Option<nat>, cleanupOk: bool, j: nat, renameFailed: bool)
    requires j <= |Sort(files)|
    requires failAt.None? || |Pages(Sort(files)[..j])| <= failAt.value
    requires renameFailed ==> failAt == Some(|Pages(Sort(files)[..j])|) && j < |Sort(files)| && IsPage(Sort(files)[j])
    requires !renameFailed ==> j == |Sort(files)|
    ensures MovesOf(chapter, Pages(Sort(files)[..j])) == ChapterMoves(chapter, Extracted(files, failAt, cleanupOk))
    ensures ChapterOk(Extracted(files, failAt, cleanupOk)) <==> !renameFailed && cleanupOk
  {
    KeptFilesAre(files);
    if renameFailed {
      RenameFailedAt(files, j);
    } else {
      assert Sort(files)[..j] == Sort(files);
    }
  }

  lemma KeptFilesAre(files: seq<string>)
    ensures KeptFiles(files) == Pages(Sort(files))
  {
  }

  /** The inner loop stopping at page `j` of the sorted listing has moved a proper prefix of the kept pages. */
  lemma RenameFailedAt(files: seq<string>, j: nat)
    requires j < |Sort(files)| && IsPage(Sort(files)[j])
    ensures |Pages(Sort(files)[..j])| < |Pages(Sort(files))|
    ensures Pages(Sort(files))[..|Pages(Sort(files)[..j])|] == Pages(Sort(files)[..j])
  {
    var sorted := Sort(files);
    assert sorted == sorted[..j] + sorted[j..];
    PagesAppend(sorted[..j], sorted[j..]);
    assert sorted[j..] == [sorted[j]] + sorted[j + 1..];
    PagesAppend([sorted[j]], sorted[j + 1..]);
    assert [sorted[j]][..0] == [];
  }

  /** Moving one more kept page keeps the inner loop's invariants. */
  lemma RenameStep(renames: seq<Rename>, start: seq<Move>, chapterName: string, sorted: seq<string>, j: nat)
    requires j < |sorted| && IsPage(sorted[j])
    requires Numbered(renames)
    requires Sources(renames) == start + MovesOf(chapterName, Pages(sorted[..j]))
    ensures Numbered(renames + [Rename(Move(chapterName, sorted[j]), |renames| + 1)])
    ensures Sources(renames + [Rename(Move(chapterName, sorted[j]), |renames| + 1)]) ==
      start + MovesOf(chapterName, Pages(sorted[..j + 1]))
  {
    var r := Rename(Move(chapterName, sorted[j]), |renames| + 1);
    PagesSnoc(sorted, j);
    SourcesSnoc(renames, r);
    assert MovesOf(chapterName, Pages(sorted[..j]) + [sorted[j]]) == MovesOf(chapterName, Pages(sorted[..j])) + [r.source];
  }

  /**
   * The inner `for` loop over a chapter's sorted listing: move each kept page
   * under the next number until the rename of kept page `renameFailsAt`
   * throws.  `j` is where the loop stopped.
   */
  method MovePages(chapterName: string, sorted: seq<string>, renameFailsAt: Option<nat>, renames: seq<Rename>, pageCounter: nat)
    returns (renamesOut: seq<Rename>, pageCounterOut: nat, renameFailed: bool, j: nat)
    requires pageCounter == |renames| + 1 && Numbered(renames)
    ensures pageCounterOut == |renamesOut| + 1 && Numbered(renamesOut)
    ensures j <= |sorted|
    ensures Sources(renamesOut) == Sources(renames) + MovesOf(chapterName, Pages(sorted[..j]))
    ensures renameFailsAt.None? || |Pages(sorted[..j])| <= renameFailsAt.value
    ensures renameFailed ==> renameFailsAt == Some(|Pages(sorted[..j])|) && j < |sorted| && IsPage(sorted[j])
    ensures !renameFailed ==> j == |sorted|
  {
    renamesOut, pageCounterOut := renames, pageCounter;
    j := 0;
    var index := 0;
    renameFailed := false;
    while j < |sorted|
      invariant 0 <= j <= |sorted|
      invariant index == |Pages(sorted[..j])|
      invariant pageCounterOut == |renamesOut| + 1
      invariant Numbered(renamesOut)
      invariant Sources(renamesOut) == Sources(renames) + MovesOf(chapterName, Pages(sorted[..j]))
      invariant renameFailsAt.None? || index <= renameFailsAt.value
      invariant !renameFailed
    {
      var file := sorted[j];
      PagesSnoc(sorted, j);
      if IsPage(file) {
        if renameFailsAt == Some(index) {
          renameFailed := true;
          break;
        }
        RenameStep(renamesOut, Sources(renames), chapterName, sorted, j);
        renamesOut := renamesOut + [Rename(Move(chapterName, file), pageCounterOut)];
        pageCounterOut := pageCounterOut + 1;
        index := index + 1;
      }
      j := j + 1;
    }
  }

  /**
   * One chapter's turn of the chapter loop: list it, then move its kept pages
   * in sorted order, numbering on from `pageCounter`.  `chapterOk` is false
   * when the turn ended in the `catch`; `crashed` is true when the process
   * ended during the turn.
   */
  method MoveChapter(chapterName: string, x: Extraction, renames: seq<Rename>, pageCounter: nat)
    returns (renamesOut: seq<Rename>, pageCounterOut: nat, chapterOk: bool, crashed: bool)
    requires pageCounter == |renames| + 1 && Numbered(renames)
    ensures pageCounterOut == |renamesOut| + 1 && Numbered(renamesOut)
    ensures Sources(renamesOut) == Sources(renames) + ChapterMoves(chapterName, x)
    ensures chapterOk <==> ChapterOk(x)
    ensures crashed <==> x.ArchiveMissing?
    ensures crashed ==> renamesOut == renames
  {
    crashed := false;
    match x {
      case ArchiveMissing =>
        renamesOut, pageCounterOut, chapterOk, crashed := renames, pageCounter, false, true;
      case ExtractFailed =>
        renamesOut, pageCounterOut, chapterOk := renames, pageCounter, false;
      case Extracted(files, renameFailsAt, cleanupOk) =>
        var renameFailed;
        var j;
        renamesOut, pageCounterOut, renameFailed, j := MovePages(chapterName, Sort(files), renameFailsAt, renames, pageCounter);
        ChapterEnd(chapterName, files, renameFailsAt, cleanupOk, j, renameFailed);
        chapterOk := !renameFailed && cleanupOk;
    }
  }

  /** No chapter's turn raised anything. */
  predicate AllChaptersOk(io: seq<Extraction>)
  {
    forall i :: 0 <= i < |io| ==> ChapterOk(io[i])
  }

  lemma AllChaptersOkSnoc(io: seq<Extraction>, c: nat)
    requires c < |io|
    ensures AllChaptersOk(io[..c + 1]) <==> AllChaptersOk(io[..c]) && ChapterOk(io[c])
  {
    assert io[..c + 1] == io[..c] + [io[c]];
  }

  /**
   * The chapter loop with its `pageCounter` and `success` variables.  It
   * returns the renames performed, in order, and whether the process ended
   * at a chapter whose archive could not be read.
   */
  method Renumber(chapters: seq<string>, io: seq<Extraction>)
    returns (renames: seq<Rename>, pageCounter: nat, success: bool, crashed: bool)
    requires |io| == |chapters|
    ensures crashed <==> FirstMissing(io) < |io|
    ensures pageCounter == |renames| + 1
    ensures Numbered(renames)
    ensures Sources(renames) == MovesBefore(chapters, io)
    ensures !crashed ==> (success <==> AllChaptersOk(io))
    ensures !crashed && success ==> Sources(renames) == AllPages(chapters, io) && pageCounter == 1 + TotalKept(io)
  {
    renames, pageCounter, success, crashed := [], 1, true, false;
    var c := 0;
    while c < |chapters|
      invariant 0 <= c <= |chapters|
      invariant pageCounter == |renames| + 1
      invariant Numbered(renames)
      invariant Sources(renames) == Moves(chapters[..c], io[..c])
      invariant success <==> AllChaptersOk(io[..c])
      invariant c <= FirstMissing(io)
      invariant !crashed
    {
      var chapterOk, chapterCrashed;
      ghost var renames0 := renames;
      renames, pageCounter, chapterOk, chapterCrashed := MoveChapter(chapters[c], io[c], renames, pageCounter);
      if chapterCrashed {
        crashed := true;
        break;
      }
      AdvanceChapter(chapters, io, c, renames0, renames, success, chapterOk);
      if !chapterOk {
        success := false;
      }
      c := c + 1;
    }
    RenumberEnd(chapters, io, renames, c, success, crashed);
  }

  /** One more chapter whose archive was read keeps the invariants of the chapter loop of `Renumber`. */
  lemma AdvanceChapter(chapters: seq<string>, io: seq<Extraction>, c: nat, renames: seq<Rename>, renamesOut: seq<Rename>,
                       success: bool, chapterOk: bool)
    requires |chapters| == |io| && c < |io| && c <= FirstMissing(io) && !io[c].ArchiveMissing?
    requires Sources(renames) == Moves(chapters[..c], io[..c])
    requires Sources(renamesOut) == Sources(renames) + ChapterMoves(chapters[c], io[c])
    requires success <==> AllChaptersOk(io[..c])
    requires chapterOk <==> ChapterOk(io[c])
    ensures Sources(renamesOut) == Moves(chapters[..c + 1], io[..c + 1])
    ensures success && chapterOk <==> AllChaptersOk(io[..c + 1])
    ensures c + 1 <= FirstMissing(io)
  {
    MovesStep(chapters, io, c);
    AllChaptersOkSnoc(io, c);
    FirstMissingStep(io, c);
  }

  /** A chapter whose archive was read is not the first missing one. */
  lemma FirstMissingStep(io: seq<Extraction>, c: nat)
    requires c < |io| && c <= FirstMissing(io) && !io[c].ArchiveMissing?
    ensures c + 1 <= FirstMissing(io)
  {
  }

  /** Where the chapter loop of `Renumber` stopped, and what it moved by then. */
  lemma RenumberEnd(chapters: seq<string>, io: seq<Extraction>, renames: seq<Rename>, c: nat, success: bool, crashed: bool)
    requires |io| == |chapters| && c <= |chapters|
    requires Sources(renames) == Moves(chapters[..c], io[..c])
    requires c <= FirstMissing(io)
    requires crashed ==> c < |io| && io[c].ArchiveMissing?
    requires !crashed ==> c == |chapters| && (success <==> AllChaptersOk(io[..c]))
    ensures crashed <==> FirstMissing(io) < |io|
    ensures Sources(renames) == MovesBefore(chapters, io)
    ensures !crashed ==> (success <==> AllChaptersOk(io))
    ensures !crashed && success ==> Sources(renames) == AllPages(chapters, io) && |renames| == TotalKept(io)
  {
    MovesBeforeAt(chapters, io, c);
    if !crashed {
      assert chapters[..c] == chapters && io[..c] == io;
      if success {
        MovesWhenAllOk(chapters, io);
        AllPagesLength(chapters, io);
      }
    }
  }

  lemma {:induction false} MovesWhenAllOk(chapters: seq<string>, io: seq<Extraction>)
    requires |chapters| == |io|
    requires AllChaptersOk(io)
    ensures Moves(chapters, io) == AllPages(chapters, io)
    decreases |chapters|
  {
    if chapters != [] {
      var n := |chapters| - 1;
      MovesWhenAllOk(chapters[..n], io[..n]);
      assert KeptFiles(io[n].files)[..RenamedCount(io[n])] == KeptFiles(io[n].files);
    }
  }

  lemma {:induction false} AllPagesLength(chapters: seq<string>, io: seq<Extraction>)
    requires |chapters| == |io|
    ensures |AllPages(chapters, io)| == TotalKept(io)
    decreases |chapters|
  {
    if chapters != [] {
      var n := |chapters| - 1;
      AllPagesLength(chapters[..n], io[..n]);
    }
  }

  /** Below 10000 the names of two pages sort in the order of their numbers, whatever their extensions. */
  lemma TargetOrder(n: nat, m: nat, f1: string, f2: string)
    requires 1 <= n < m < 10000
    ensures LexLess(PageTarget(n, f1), PageTarget(m, f2))
  {
    assert Pow10(4) == 10000;
    PadNumOrder(n, m, VolumePageWidth);
    LexLessAppend(PadNum(n, VolumePageWidth), PadNum(m, VolumePageWidth), Extname(f1), Extname(f2));
  }

  /**
   * Below 10000 pages the volume's names have four digits and sort in the
   * order the pages were renamed, which is chapter-list order and then
   * sorted order within each chapter.
   */
  lemma NumberedTargetsSorted(renames: seq<Rename>)
    requires Numbered(renames) && |renames| < 9999
    ensures forall k, l :: 0 <= k < l < |renames| ==> LexLess(Target(renames[k]), Target(renames[l]))
    ensures Sorted(Targets(renames))
  {
    forall k, l | 0 <= k < l < |renames| ensures LexLess(Target(renames[k]), Target(renames[l])) {
      var rk, rl := renames[k], renames[l];
      assert rk.number == k + 1 && rl.number == l + 1;
      TargetOrder(rk.number, rl.number, rk.source.file, rl.source.file);
      assert Target(rk) == PageTarget(rk.number, rk.source.file) && Target(rl) == PageTarget(rl.number, rl.source.file);
    }
    TargetsSorted(renames);
  }

  lemma TargetsSorted(renames: seq<Rename>)
    requires forall k, l :: 0 <= k < l < |renames| ==> LexLess(Target(renames[k]), Target(renames[l]))
    ensures Sorted(Targets(renames))
  {
    var ts := Targets(renames);
    forall k, l | 0 <= k < l < |ts| ensures LexLe(ts[k], ts[l]) {
      assert ts[k] == Target(renames[k]) && ts[l] == Target(renames[l]);
    }
  }

  lemma DigitsThenExtension(d1: string, e1: string, d2: string, e2: string)
    requires forall i :: 0 <= i < |d1| ==> IsDigit(d1[i])
    requires forall i :: 0 <= i < |d2| ==> IsDigit(d2[i])
    requires e1 == [] || e1[0] == '.'
    requires e2 == [] || e2[0] == '.'
    requires d1 + e1 == d2 + e2
    ensures d1 == d2
  {
    var s := d1 + e1;
    assert forall i :: 0 <= i < |d1| ==> IsDigit(s[i]);
    assert forall i :: 0 <= i < |d2| ==> IsDigit(s[i]);
    assert |e1| > 0 ==> s[|d1|] == '.';
    assert |e2| > 0 ==> s[|d2|] == '.';
    assert !IsDigit('.');
    assert |d1| == |d2|;
    assert d1 == s[..|d1|] == d2;
  }

  /** Two different numbers never give the same name, whatever the extensions and however large the numbers. */
  lemma TargetInjective(n: nat, m: nat, f1: string, f2: string)
    requires n != m
    ensures PageTarget(n, f1) != PageTarget(m, f2)
  {
    PadNumDigits(n, VolumePageWidth);
    PadNumDigits(m, VolumePageWidth);
    PadNumInjective(n, m, VolumePageWidth);
    if PageTarget(n, f1) == PageTarget(m, f2) {
      DigitsThenExtension(PadNum(n, VolumePageWidth), Extname(f1), PadNum(m, VolumePageWidth), Extname(f2));
    }
  }

  /** However many pages there are, no two renames of a volume share a target. */
  lemma NumberedTargetsDistinct(renames: seq<Rename>)
    requires Numbered(renames)
    ensures forall k, l :: 0 <= k < l < |renames| ==> Target(renames[k]) != Target(renames[l])
  {
    forall k, l | 0 <= k < l < |renames| ensures Target(renames[k]) != Target(renames[l]) {
      TargetInjective(k + 1, l + 1, renames[k].source.file, renames[l].source.file);
    }
  }

  // ---------------------------------------------------------------------
  // The volume operation.

  /**
   * `createVolumeCBZ`.  `setupOk` is whether both staging directories could
   * be created (otherwise the outer `catch` returns false).  `crashed` is
   * true when the process ended at a chapter archive that could not be
   * read; nothing after that point runs, not even the `finally` block.
   * Otherwise the staging directory is removed by the `finally` block.
   */
  method CreateVolumeCBZ(tracker: ProgressTracker, volumeNumber: string, chapters: seq<string>, mangaTitle: string,
                         setupOk: bool, io: seq<Extraction>, packOutcomes: seq<bool>)
    returns (ok: bool, archive: Option<Archive>, renames: seq<Rename>, crashed: bool)
    requires tracker.progress.Some? && |io| == |chapters|
    modifies tracker`progress, tracker`saved
    ensures tracker.progress.Some?
    ensures old(tracker.IsVolumeCompleted(volumeNumber)) ==>
      ok && !crashed && archive.None? && renames == [] && tracker.progress == old(tracker.progress) && tracker.saved == old(tracker.saved)
    ensures !old(tracker.IsVolumeCompleted(volumeNumber)) ==> (crashed <==> setupOk && FirstMissing(io) < |io|)
    ensures !old(tracker.IsVolumeCompleted(volumeNumber)) ==>
      (ok <==> setupOk && AllChaptersOk(io) && Succeeds(packOutcomes, DefaultRetries))
    ensures !old(tracker.IsVolumeCompleted(volumeNumber)) ==> (ok <==> archive.Some?)
    ensures setupOk && !old(tracker.IsVolumeCompleted(volumeNumber)) ==> Numbered(renames) && Sources(renames) == MovesBefore(chapters, io)
    ensures ok && archive.Some? ==>
      archive.value == Archive(Some(VolumeComicInfo(mangaTitle, volumeNumber)), Targets(renames)) &&
      Sources(renames) == AllPages(chapters, io) && |renames| == TotalKept(io)
    ensures tracker.progress.value.completedVolumes ==
      if ok then AddOnce(old(tracker.progress.value.completedVolumes), volumeNumber) else old(tracker.progress.value.completedVolumes)
    ensures tracker.progress.value.downloadedChapters == old(tracker.progress.value.downloadedChapters)
    ensures tracker.progress.value.lastAttempt == old(tracker.progress.value.lastAttempt)
    ensures !ok ==> tracker.progress == old(tracker.progress) && tracker.saved == old(tracker.saved)
    ensures ok ==>
      tracker.saved == old(tracker.saved) +
      (if volumeNumber in old(tracker.progress.value.completedVolumes) then [] else [tracker.progress.value])
  {
    archive, renames, crashed := None, [], false;
    if tracker.IsVolumeCompleted(volumeNumber) {
      return true, None, [], false;
    }
    if !setupOk {
      return false, None, renames, false;
    }
    var pageCounter, success;
    renames, pageCounter, success, crashed := Renumber(chapters, io);
    if crashed {
      return false, None, renames, true;
    }
    if success {
      var comicInfo := VolumeComicInfo(mangaTitle, volumeNumber);
      RenderNotEmpty(VolumeFields(mangaTitle, volumeNumber));
      success, archive := CreateCBZ(Targets(renames), Some(comicInfo), packOutcomes, DefaultRetries);
      if success {
        tracker.MarkVolumeComplete(volumeNumber);
      }
    }
    ok := success;
  }
}
