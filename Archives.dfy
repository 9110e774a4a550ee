/**
 * `createCBZ`: package the files of a staging directory, plus an optional
 * `ComicInfo.xml` entry, into a zip archive, retrying the whole attempt
 * under the policy of `Retry`.  The zip codec is replaced by the outcome of
 * each attempt; an archive is represented by what it holds.
 */
module Archives {
  import opened Wrappers
  import opened Retry

  const ComicInfoName: string := "ComicInfo.xml"

  /** A written archive: its metadata document, if any, and the staged files it packs. */
  datatype Archive = Archive(comicInfo: Option<string>, files: seq<string>)

  /** The file names an extraction of the archive lists. */
  function Entries(a: Archive): (names: seq<string>)
    ensures ComicInfoName in names <==> a.comicInfo.Some? || ComicInfoName in a.files
    ensures |names| == |a.files| + (if a.comicInfo.Some? then 1 else 0)
  {
    (if a.comicInfo.Some? then [ComicInfoName] else []) + a.files
  }

  /**
   * Returns true iff some attempt within `retries` succeeds, never throws,
   * and then yields the archive.  An empty metadata string is falsy in the
   * source, so it adds no entry.
   */
  method CreateCBZ(sourceFiles: seq<string>, comicInfo: Option<string>, outcomes: seq<bool>, retries: int)
    returns (ok: bool, archive: Option<Archive>)
    ensures ok <==> Succeeds(outcomes, retries)
    ensures ok <==> archive.Some?
    ensures ok ==> archive.value.files == sourceFiles
    ensures ok ==> (archive.value.comicInfo.Some? <==> comicInfo.Some? && comicInfo.value != "")
    ensures ok && archive.value.comicInfo.Some? ==> archive.value.comicInfo == comicInfo
  {
    var attempts, delays;
    ok, attempts, delays := WithRetries(outcomes, retries);
    if ok {
      var info := if comicInfo.Some? && comicInfo.value != "" then comicInfo else None;
      archive := Some(Archive(info, sourceFiles));
    } else {
      archive := None;
    }
  }
}
