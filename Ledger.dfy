/**
 * The progress ledger (`ProgressTracker`): which chapters have been packed
 * into a chapter archive and which volumes into a volume archive.  Both
 * lists only grow, and each add is guarded by a membership test, so adding
 * twice is the same as adding once.  Reading and writing the JSON file are
 * replaced by the parsed contents (on load) and by a log of the snapshots
 * handed to the writer (on save); a failed write is only logged by the
 * source, so it never reaches the caller and is not represented.
 */
module Ledger {
  import opened Wrappers

  datatype Progress = Progress(downloadedChapters: seq<string>, completedVolumes: seq<string>, lastAttempt: Option<string>)

  /** The ledger a run starts from when the progress file is missing or unreadable. */
  const EmptyProgress: Progress := Progress([], [], None)

  /** The guarded push of `markChapterComplete` and `markVolumeComplete`. */
  function AddOnce(s: seq<string>, x: string): seq<string>
  {
    if x in s then s else s + [x]
  }

  predicate Distinct(s: seq<string>)
  {
    forall i, j :: 0 <= i < j < |s| ==> s[i] != s[j]
  }

  /**
   * Adding is append-only (the old list is a prefix of the new one), adds
   * exactly `x` to the members, is a no-op when `x` is present, is
   * idempotent, and never introduces a duplicate.
   */
  lemma AddOnceSpec(s: seq<string>, x: string)
    ensures s <= AddOnce(s, x) && |AddOnce(s, x)| <= |s| + 1
    ensures forall y :: y in AddOnce(s, x) <==> y in s || y == x
    ensures x in s ==> AddOnce(s, x) == s
    ensures x !in s ==> AddOnce(s, x)[|s|] == x
    ensures AddOnce(AddOnce(s, x), x) == AddOnce(s, x)
    ensures Distinct(s) ==> Distinct(AddOnce(s, x))
  {
  }

  class ProgressTracker {
    const progressFile: string
    /** `null` until `loadProgress` has run. */
    var progress: Option<Progress>
    /** Every ledger snapshot handed to `saveProgress`, in order. */
    ghost var saved: seq<Progress>

    constructor (mangaTitle: string)
      ensures progressFile == mangaTitle + "_progress.json"
      ensures progress == None && saved == []
    {
      progressFile := mangaTitle + "_progress.json";
      progress := None;
      saved := [];
    }

    /**
     * `stored` is what reading and parsing the progress file produced, or
     * `None` when either step threw; the ledger then starts empty.
     */
    method LoadProgress(stored: Option<Progress>) returns (p: Progress)
      modifies this`progress
      ensures stored.Some? ==> p == stored.value
      ensures stored.None? ==> p == EmptyProgress
      ensures progress == Some(p)
    {
      if stored.Some? {
        progress := stored;
      } else {
        progress := Some(EmptyProgress);
      }
      p := progress.value;
    }

    method SaveProgress()
      requires progress.Some?
      modifies this`saved
      ensures saved == old(saved) + [progress.value]
    {
      saved := saved + [progress.value];
    }

    predicate IsChapterDownloaded(chapterName: string)
      reads this
      requires progress.Some?
    {
      chapterName in progress.value.downloadedChapters
    }

    predicate IsVolumeCompleted(volumeNumber: string)
      reads this
      requires progress.Some?
    {
      volumeNumber in progress.value.completedVolumes
    }

    /**
     * Appends the chapter unless it is already present, and persists only
     * when something was appended; the volume list and timestamp are untouched.
     */
    method MarkChapterComplete(chapterName: string)
      requires progress.Some?
      modifies this`progress, this`saved
      ensures progress.Some?
      ensures progress.value.downloadedChapters == AddOnce(old(progress.value.downloadedChapters), chapterName)
      ensures progress.value.completedVolumes == old(progress.value.completedVolumes)
      ensures progress.value.lastAttempt == old(progress.value.lastAttempt)
      ensures chapterName in old(progress.value.downloadedChapters) ==> saved == old(saved)
      ensures chapterName !in old(progress.value.downloadedChapters) ==> saved == old(saved) + [progress.value]
      ensures IsChapterDownloaded(chapterName)
    {
      if chapterName !in progress.value.downloadedChapters {
        var p := progress.value;
        progress := Some(p.(downloadedChapters := p.downloadedChapters + [chapterName]));
        SaveProgress();
      }
    }

    /** As `MarkChapterComplete`, for the volume list. */
    method MarkVolumeComplete(volumeNumber: string)
      requires progress.Some?
      modifies this`progress, this`saved
      ensures progress.Some?
      ensures progress.value.completedVolumes == AddOnce(old(progress.value.completedVolumes), volumeNumber)
      ensures progress.value.downloadedChapters == old(progress.value.downloadedChapters)
      ensures progress.value.lastAttempt == old(progress.value.lastAttempt)
      ensures volumeNumber in old(progress.value.completedVolumes) ==> saved == old(saved)
      ensures volumeNumber !in old(progress.value.completedVolumes) ==> saved == old(saved) + [progress.value]
      ensures IsVolumeCompleted(volumeNumber)
    {
      if volumeNumber !in progress.value.completedVolumes {
        var p := progress.value;
        progress := Some(p.(completedVolumes := p.completedVolumes + [volumeNumber]));
        SaveProgress();
      }
    }
  }
}
