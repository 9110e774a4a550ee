/**
 * The `ComicInfo.xml` documents embedded in chapter and volume archives
 * (`createChapterComicInfo`, `createVolumeComicInfo`).  Each is a fixed
 * XML declaration and root element around one element per line, joined by
 * newlines.  `ReadTag` is an independent reader of such a document: it
 * returns the text of the first line of the form `  <Tag>text</Tag>`.
 */
module Metadata {
  import opened Wrappers
  import opened Numbering

  // ---------------------------------------------------------------------
  // The chapter number: the first run of digits in the chapter name.

  /** The first index at or after `i` that holds a digit, or `|s|`. */
  function FirstDigitFrom(s: string, i: nat): (j: nat)
    requires i <= |s|
    ensures i <= j <= |s|
    ensures forall k :: i <= k < j ==> !IsDigit(s[k])
    ensures j < |s| ==> IsDigit(s[j])
    decreases |s| - i
  {
    if i == |s| || IsDigit(s[i]) then i else FirstDigitFrom(s, i + 1)
  }

  /** The end of the run of digits that starts at `i`. */
  function DigitRunEnd(s: string, i: nat): (j: nat)
    requires i <= |s|
    ensures i <= j <= |s|
    ensures forall k :: i <= k < j ==> IsDigit(s[k])
    ensures j < |s| ==> !IsDigit(s[j])
    decreases |s| - i
  {
    if i < |s| && IsDigit(s[i]) then DigitRunEnd(s, i + 1) else i
  }

  /** `s[i..j]` is the leftmost maximal run of digits of `s`. */
  predicate IsFirstDigitRun(s: string, i: nat, j: nat)
  {
    && i < j <= |s|
    && (forall k :: 0 <= k < i ==> !IsDigit(s[k]))
    && (forall k :: i <= k < j ==> IsDigit(s[k]))
    && (j == |s| || !IsDigit(s[j]))
  }

  /** `chapterName.match(/\d+/)?.[0] || "0"`. */
  function ChapterNumber(chapterName: string): (num: string)
    ensures |num| > 0 && forall k :: 0 <= k < |num| ==> IsDigit(num[k])
  {
    var i := FirstDigitFrom(chapterName, 0);
    if i == |chapterName| then "0" else chapterName[i..DigitRunEnd(chapterName, i)]
  }

  /**
   * The chapter number is the first maximal run of digits, whichever way
   * that run is found, and `"0"` exactly when the name has no digit.
   */
  lemma ChapterNumberIsFirstRun(chapterName: string, i: nat, j: nat)
    requires IsFirstDigitRun(chapterName, i, j)
    ensures ChapterNumber(chapterName) == chapterName[i..j]
  {
    var i' := FirstDigitFrom(chapterName, 0);
    assert IsDigit(chapterName[i]);
    assert i' <= i;
    assert i <= i';
    var j' := DigitRunEnd(chapterName, i);
    assert j' <= j;
    assert j <= j';
  }

  lemma ChapterNumberCases(chapterName: string)
    ensures (forall k :: 0 <= k < |chapterName| ==> !IsDigit(chapterName[k])) ==> ChapterNumber(chapterName) == "0"
    ensures (exists k :: 0 <= k < |chapterName| && IsDigit(chapterName[k])) ==>
              exists i: nat, j: nat :: IsFirstDigitRun(chapterName, i, j) && ChapterNumber(chapterName) == chapterName[i..j]
  {
    var i := FirstDigitFrom(chapterName, 0);
    if i < |chapterName| {
      var j := DigitRunEnd(chapterName, i);
      assert IsFirstDigitRun(chapterName, i, j);
    }
  }

  // ---------------------------------------------------------------------
  // Documents as lines.

  function Lines(s: string): (ls: seq<string>)
    ensures |ls| >= 1
    decreases |s|
  {
    if s == [] then [""]
    else if s[0] == '\n' then [""] + Lines(s[1..])
    else var r := Lines(s[1..]); [[s[0]] + r[0]] + r[1..]
  }

  function JoinLines(ls: seq<string>): string
    requires |ls| >= 1
  {
    if |ls| == 1 then ls[0] else ls[0] + "\n" + JoinLines(ls[1..])
  }

  lemma {:induction false} LinesOfLine(a: string)
    requires '\n' !in a
    ensures Lines(a) == [a]
    decreases |a|
  {
    if a != [] {
      LinesOfLine(a[1..]);
      assert [a[0]] + a[1..] == a;
    }
  }

  lemma {:induction false} LinesAppend(a: string, b: string)
    requires '\n' !in a
    ensures Lines(a + "\n" + b) == [a] + Lines(b)
    decreases |a|
  {
    var s := a + "\n" + b;
    if a == [] {
      assert s[1..] == b;
    } else {
      assert s[0] == a[0] && s[1..] == a[1..] + "\n" + b;
      LinesAppend(a[1..], b);
      assert [a[0]] + a[1..] == a;
    }
  }

  /** Splitting a join at the newlines gives the lines back. */
  lemma {:induction false} LinesOfJoin(ls: seq<string>)
    requires |ls| >= 1
    requires forall i :: 0 <= i < |ls| ==> '\n' !in ls[i]
    ensures Lines(JoinLines(ls)) == ls
  {
    if |ls| == 1 {
      LinesOfLine(ls[0]);
    } else {
      LinesOfJoin(ls[1..]);
      LinesAppend(ls[0], JoinLines(ls[1..]));
      assert ls == [ls[0]] + ls[1..];
    }
  }

  // ---------------------------------------------------------------------
  // Elements.

  datatype Field = Field(tag: string, value: string)

  const XmlDeclaration: string := "<?xml version=\"1.0\" encoding=\"utf-8\"?>"
  // The root start tag, `<ComicInfo xmlns:xsi="…XMLSchema-instance" xmlns:xsd="…XMLSchema">`, in short pieces.
  const RootOpen1: string := "<ComicInfo xmlns:xsi="
  const RootOpen2: string := "\"http://www.w3.org/2001/"
  const RootOpen3: string := "XMLSchema-instance\""
  const RootOpen4: string := " xmlns:xsd="
  const RootOpen5: string := "\"http://www.w3.org/2001/XMLSchema\">"
  const RootOpen: string := RootOpen1 + RootOpen2 + RootOpen3 + RootOpen4 + RootOpen5
  const RootClose: string := "</ComicInfo>"

  function OpenTag(tag: string): string { "  <" + tag + ">" }
  function CloseTag(tag: string): string { "</" + tag + ">" }
  function Element(f: Field): string { OpenTag(f.tag) + f.value + CloseTag(f.tag) }

  function ElementLines(fields: seq<Field>): (ls: seq<string>)
    ensures |ls| == |fields|
    ensures forall i :: 0 <= i < |fields| ==> ls[i] == Element(fields[i])
  {
    if fields == [] then [] else [Element(fields[0])] + ElementLines(fields[1..])
  }

  /** The document text: declaration, root, one element per line, end of root. */
  function Render(fields: seq<Field>): string
  {
    JoinLines([XmlDeclaration, RootOpen] + ElementLines(fields) + [RootClose])
  }

  lemma RenderNotEmpty(fields: seq<Field>)
    ensures Render(fields) != ""
  {
    var ls := [XmlDeclaration, RootOpen] + ElementLines(fields) + [RootClose];
    assert ls[0] == XmlDeclaration;
    assert JoinLines(ls) == XmlDeclaration + "\n" + JoinLines(ls[1..]);
  }

  predicate IsElementLine(line: string, tag: string)
  {
    |line| >= |OpenTag(tag)| + |CloseTag(tag)| && OpenTag(tag) <= line && line[|line| - |CloseTag(tag)|..] == CloseTag(tag)
  }

  function FindElement(lines: seq<string>, tag: string): Option<string>
  {
    if lines == [] then None
    else if IsElementLine(lines[0], tag) then Some(lines[0][|OpenTag(tag)|..|lines[0]| - |CloseTag(tag)|])
    else FindElement(lines[1..], tag)
  }

  /** The text of the first `tag` element of a document, if there is one. */
  function ReadTag(doc: string, tag: string): Option<string>
  {
    FindElement(Lines(doc), tag)
  }

  /** The value of the first field named `tag`. */
  function Lookup(fields: seq<Field>, tag: string): Option<string>
  {
    if fields == [] then None else if fields[0].tag == tag then Some(fields[0].value) else Lookup(fields[1..], tag)
  }

  lemma {:induction false} LookupAt(fields: seq<Field>, tag: string, k: nat)
    requires k < |fields| && fields[k].tag == tag
    requires forall i :: 0 <= i < k ==> fields[i].tag != tag
    ensures Lookup(fields, tag) == Some(fields[k].value)
  {
    if k > 0 { LookupAt(fields[1..], tag, k - 1); }
  }

  lemma {:induction false} LookupAbsent(fields: seq<Field>, tag: string)
    requires forall i :: 0 <= i < |fields| ==> fields[i].tag != tag
    ensures Lookup(fields, tag) == None
  {
    if fields != [] { LookupAbsent(fields[1..], tag); }
  }

  predicate WellFormedField(f: Field)
  {
    WellFormedTag(f.tag) && '\n' !in f.value
  }

  lemma ElementLineOtherTag(t: string, f: Field)
    requires '>' !in t && '>' !in f.tag && t != f.tag
    ensures !IsElementLine(Element(f), t)
  {
    var line, o := Element(f), OpenTag(t);
    assert line == "  <" + f.tag + ">" + f.value + CloseTag(f.tag);
    if |t| < |f.tag| {
      assert o[3 + |t|] == '>' && line[3 + |t|] == f.tag[|t|];
    } else if |t| > |f.tag| {
      assert o[3 + |f.tag|] == t[|f.tag|] && line[3 + |f.tag|] == '>';
    } else {
      var k :| 0 <= k < |t| && t[k] != f.tag[k];
      assert o[3 + k] == t[k] && line[3 + k] == f.tag[k];
    }
  }

  lemma ElementLineSameTag(f: Field)
    ensures IsElementLine(Element(f), f.tag)
    ensures Element(f)[|OpenTag(f.tag)|..|Element(f)| - |CloseTag(f.tag)|] == f.value
  {
  }

  lemma NotElementLine(line: string, tag: string)
    requires |line| > 0 && line[0] != ' '
    ensures !IsElementLine(line, tag)
  {
    assert OpenTag(tag)[0] == ' ';
  }

  lemma {:induction false} FindInElements(fields: seq<Field>, last: string, tag: string)
    requires forall i :: 0 <= i < |fields| ==> WellFormedField(fields[i])
    requires '>' !in tag
    requires |last| > 0 && last[0] != ' '
    ensures FindElement(ElementLines(fields) + [last], tag) == Lookup(fields, tag)
  {
    var ls := ElementLines(fields) + [last];
    if fields == [] {
      assert ls == [last];
      NotElementLine(last, tag);
    } else {
      assert ls[1..] == ElementLines(fields[1..]) + [last];
      if fields[0].tag == tag {
        ElementLineSameTag(fields[0]);
      } else {
        ElementLineOtherTag(tag, fields[0]);
        FindInElements(fields[1..], last, tag);
      }
    }
  }

  lemma OneLineConcat(a: string, b: string)
    requires OneLine(a) && OneLine(b)
    ensures OneLine(a + b)
  {
  }

  lemma DeclarationIsLine()
    ensures OneLine(XmlDeclaration) && OneLine(RootClose)
  {
  }

  lemma RootOpenHeadIsLine()
    ensures OneLine(RootOpen1) && OneLine(RootOpen2)
  {
  }

  lemma RootOpenTailIsLine()
    ensures OneLine(RootOpen3) && OneLine(RootOpen4) && OneLine(RootOpen5)
  {
  }

  lemma FixedLinesAreLines()
    ensures OneLine(XmlDeclaration) && OneLine(RootOpen) && OneLine(RootClose)
  {
    DeclarationIsLine();
    RootOpenHeadIsLine();
    RootOpenTailIsLine();
    OneLineConcat(RootOpen1, RootOpen2);
    OneLineConcat(RootOpen1 + RootOpen2, RootOpen3);
    OneLineConcat(RootOpen1 + RootOpen2 + RootOpen3, RootOpen4);
    OneLineConcat(RootOpen1 + RootOpen2 + RootOpen3 + RootOpen4, RootOpen5);
  }

  lemma {:induction false} ReadFramed(first: string, second: string, fields: seq<Field>, last: string, tag: string)
    requires forall i :: 0 <= i < |fields| ==> WellFormedField(fields[i])
    requires '>' !in tag
    requires OneLine(first) && OneLine(second) && OneLine(last)
    requires |first| > 0 && first[0] != ' ' && |second| > 0 && second[0] != ' ' && |last| > 0 && last[0] != ' '
    ensures ReadTag(JoinLines([first, second] + ElementLines(fields) + [last]), tag) == Lookup(fields, tag)
  {
    var ls := [first, second] + ElementLines(fields) + [last];
    forall i | 0 <= i < |ls| ensures '\n' !in ls[i] {
      if 2 <= i < |ls| - 1 {
        assert ls[i] == Element(fields[i - 2]);
        assert WellFormedField(fields[i - 2]);
      }
    }
    LinesOfJoin(ls);
    NotElementLine(first, tag);
    NotElementLine(second, tag);
    assert ls[1..][1..] == ElementLines(fields) + [last];
    assert FindElement(ls, tag) == FindElement(ls[1..], tag) == FindElement(ls[1..][1..], tag);
    FindInElements(fields, last, tag);
  }

  /** Reading a rendered document gives back the value of the first field with that tag. */
  lemma ReadRendered(fields: seq<Field>, tag: string)
    requires forall i :: 0 <= i < |fields| ==> WellFormedField(fields[i])
    requires '>' !in tag
    ensures ReadTag(Render(fields), tag) == Lookup(fields, tag)
  {
    FixedLinesAreLines();
    ReadFramed(XmlDeclaration, RootOpen, fields, RootClose, tag);
  }

  lemma ReadAt(fields: seq<Field>, tag: string, k: nat)
    requires forall i :: 0 <= i < |fields| ==> WellFormedField(fields[i])
    requires '>' !in tag
    requires k < |fields| && fields[k].tag == tag
    requires forall i :: 0 <= i < k ==> fields[i].tag != tag
    ensures ReadTag(Render(fields), tag) == Some(fields[k].value)
  {
    ReadRendered(fields, tag);
    LookupAt(fields, tag, k);
  }

  lemma ReadAbsent(fields: seq<Field>, tag: string)
    requires forall i :: 0 <= i < |fields| ==> WellFormedField(fields[i])
    requires '>' !in tag
    requires forall i :: 0 <= i < |fields| ==> fields[i].tag != tag
    ensures ReadTag(Render(fields), tag) == None
  {
    ReadRendered(fields, tag);
    LookupAbsent(fields, tag);
  }

  // ---------------------------------------------------------------------
  // The two documents.

  function ChapterFields(chapterName: string, volumeNumber: string, mangaTitle: string): seq<Field>
  {
    var n := ChapterNumber(chapterName);
    [ Field("Series", mangaTitle), Field("Number", n), Field("Volume", volumeNumber),
      Field("Title", chapterName), Field("Summary", "Chapter " + n + " of " + mangaTitle),
      Field("Genre", "Manga") ]
  }

  function VolumeFields(mangaTitle: string, volumeNumber: string): seq<Field>
  {
    [ Field("Series", mangaTitle), Field("Volume", volumeNumber), Field("Title", "Volume " + volumeNumber),
      Field("Summary", "Volume " + volumeNumber + " of " + mangaTitle), Field("Genre", "Manga"),
      Field("Language", "en") ]
  }

  function ChapterComicInfo(chapterName: string, volumeNumber: string, mangaTitle: string): string
  {
    Render(ChapterFields(chapterName, volumeNumber, mangaTitle))
  }

  function VolumeComicInfo(mangaTitle: string, volumeNumber: string): string
  {
    Render(VolumeFields(mangaTitle, volumeNumber))
  }

  predicate OneLine(s: string) { '\n' !in s }

  predicate WellFormedTag(tag: string)
  {
    '>' !in tag && '\n' !in tag
  }

  lemma TagsWellFormed1()
    ensures WellFormedTag("Series") && WellFormedTag("Number") && WellFormedTag("Volume")
  {
  }

  lemma TagsWellFormed2()
    ensures WellFormedTag("Title") && WellFormedTag("Summary")
  {
  }

  lemma TagsWellFormed3()
    ensures WellFormedTag("Genre") && WellFormedTag("Language")
  {
  }

  /** "<prefix><n> of <title>" is one line when its pieces are. */
  lemma SummaryIsLine(prefix: string, n: string, mangaTitle: string)
    requires OneLine(prefix) && OneLine(n) && OneLine(mangaTitle)
    ensures OneLine(prefix + n + " of " + mangaTitle)
  {
    assert OneLine(" of ");
    OneLineConcat(prefix, n);
    OneLineConcat(prefix + n, " of ");
    OneLineConcat(prefix + n + " of ", mangaTitle);
  }

  lemma ValuesWellFormed()
    ensures OneLine("Chapter ") && OneLine("Volume ") && OneLine("Manga") && OneLine("en")
  {
  }

  lemma ChapterFieldsWellFormed(chapterName: string, volumeNumber: string, mangaTitle: string)
    requires OneLine(chapterName) && OneLine(volumeNumber) && OneLine(mangaTitle)
    ensures var fields := ChapterFields(chapterName, volumeNumber, mangaTitle);
      forall i :: 0 <= i < |fields| ==> WellFormedField(fields[i])
  {
    var n := ChapterNumber(chapterName);
    assert OneLine(n) by { forall i | 0 <= i < |n| ensures n[i] != '\n' { assert IsDigit(n[i]); } }
    TagsWellFormed1();
    TagsWellFormed2();
    TagsWellFormed3();
    ValuesWellFormed();
    SummaryIsLine("Chapter ", n, mangaTitle);
  }

  lemma VolumeFieldsWellFormed(mangaTitle: string, volumeNumber: string)
    requires OneLine(volumeNumber) && OneLine(mangaTitle)
    ensures var fields := VolumeFields(mangaTitle, volumeNumber);
      forall i :: 0 <= i < |fields| ==> WellFormedField(fields[i])
  {
    TagsWellFormed1();
    TagsWellFormed2();
    TagsWellFormed3();
    ValuesWellFormed();
    SummaryIsLine("Volume ", volumeNumber, mangaTitle);
    OneLineConcat("Volume ", volumeNumber);
  }

  lemma ChapterFieldReads(chapterName: string, volumeNumber: string, mangaTitle: string, k: nat)
    requires OneLine(chapterName) && OneLine(volumeNumber) && OneLine(mangaTitle) && k < 6
    ensures var fields := ChapterFields(chapterName, volumeNumber, mangaTitle);
      ReadTag(ChapterComicInfo(chapterName, volumeNumber, mangaTitle), fields[k].tag) == Some(fields[k].value)
  {
    var fields := ChapterFields(chapterName, volumeNumber, mangaTitle);
    ChapterFieldsWellFormed(chapterName, volumeNumber, mangaTitle);
    assert forall i, j :: 0 <= i < j < 6 ==> fields[i].tag != fields[j].tag;
    ReadAt(fields, fields[k].tag, k);
  }

  lemma VolumeFieldReads(mangaTitle: string, volumeNumber: string, k: nat)
    requires OneLine(volumeNumber) && OneLine(mangaTitle) && k < 6
    ensures var fields := VolumeFields(mangaTitle, volumeNumber);
      ReadTag(VolumeComicInfo(mangaTitle, volumeNumber), fields[k].tag) == Some(fields[k].value)
  {
    var fields := VolumeFields(mangaTitle, volumeNumber);
    VolumeFieldsWellFormed(mangaTitle, volumeNumber);
    assert forall i, j :: 0 <= i < j < 6 ==> fields[i].tag != fields[j].tag;
    ReadAt(fields, fields[k].tag, k);
  }

  /**
   * The chapter document carries the title as series, the chapter number in
   * `Number` and in `Summary`, the volume, the chapter name as title, the
   * genre, and no language.
   */
  lemma ChapterComicInfoFields(chapterName: string, volumeNumber: string, mangaTitle: string)
    requires OneLine(chapterName) && OneLine(volumeNumber) && OneLine(mangaTitle)
    ensures var doc, n := ChapterComicInfo(chapterName, volumeNumber, mangaTitle), ChapterNumber(chapterName);
      && ReadTag(doc, "Series") == Some(mangaTitle)
      && ReadTag(doc, "Number") == Some(n)
      && ReadTag(doc, "Volume") == Some(volumeNumber)
      && ReadTag(doc, "Title") == Some(chapterName)
      && ReadTag(doc, "Summary") == Some("Chapter " + n + " of " + mangaTitle)
      && ReadTag(doc, "Genre") == Some("Manga")
      && ReadTag(doc, "Language") == None
  {
    ChapterFieldReads(chapterName, volumeNumber, mangaTitle, 0);
    ChapterFieldReads(chapterName, volumeNumber, mangaTitle, 1);
    ChapterFieldReads(chapterName, volumeNumber, mangaTitle, 2);
    ChapterFieldReads(chapterName, volumeNumber, mangaTitle, 3);
    ChapterFieldReads(chapterName, volumeNumber, mangaTitle, 4);
    ChapterFieldReads(chapterName, volumeNumber, mangaTitle, 5);
    ChapterLanguageAbsent(chapterName, volumeNumber, mangaTitle);
  }

  lemma ChapterLanguageAbsent(chapterName: string, volumeNumber: string, mangaTitle: string)
    requires OneLine(chapterName) && OneLine(volumeNumber) && OneLine(mangaTitle)
    ensures ReadTag(ChapterComicInfo(chapterName, volumeNumber, mangaTitle), "Language") == None
  {
    var fields := ChapterFields(chapterName, volumeNumber, mangaTitle);
    ChapterFieldsWellFormed(chapterName, volumeNumber, mangaTitle);
    ReadAbsent(fields, "Language");
  }

  /**
   * The volume document carries the series, the volume number, the title
   * and summary naming the volume, the genre and the language, and no
   * chapter number.
   */
  lemma VolumeComicInfoFields(mangaTitle: string, volumeNumber: string)
    requires OneLine(volumeNumber) && OneLine(mangaTitle)
    ensures var doc := VolumeComicInfo(mangaTitle, volumeNumber);
      && ReadTag(doc, "Series") == Some(mangaTitle)
      && ReadTag(doc, "Volume") == Some(volumeNumber)
      && ReadTag(doc, "Title") == Some("Volume " + volumeNumber)
      && ReadTag(doc, "Summary") == Some("Volume " + volumeNumber + " of " + mangaTitle)
      && ReadTag(doc, "Genre") == Some("Manga")
      && ReadTag(doc, "Language") == Some("en")
      && ReadTag(doc, "Number") == None
  {
    VolumeFieldReads(mangaTitle, volumeNumber, 0);
    VolumeFieldReads(mangaTitle, volumeNumber, 1);
    VolumeFieldReads(mangaTitle, volumeNumber, 2);
    VolumeFieldReads(mangaTitle, volumeNumber, 3);
    VolumeFieldReads(mangaTitle, volumeNumber, 4);
    VolumeFieldReads(mangaTitle, volumeNumber, 5);
    VolumeNumberAbsent(mangaTitle, volumeNumber);
  }

  lemma VolumeNumberAbsent(mangaTitle: string, volumeNumber: string)
    requires OneLine(volumeNumber) && OneLine(mangaTitle)
    ensures ReadTag(VolumeComicInfo(mangaTitle, volumeNumber), "Number") == None
  {
    var fields := VolumeFields(mangaTitle, volumeNumber);
    VolumeFieldsWellFormed(mangaTitle, volumeNumber);
    ReadAbsent(fields, "Number");
  }
}
