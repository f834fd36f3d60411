/**
 * The PDF report builder: the sequence of flowables ("story") that
 * PDFReportGenerator.generate_report hands to the layout library, and the
 * aspect-preserving fit of each image into the printable box.
 *
 * Lengths are in points, 72 to the inch, as in the layout library.
 */
module Report {
  import opened Strings

  const Inch: real := 72.0
  /** The box every image is fitted into: 6.5in by 4.5in. */
  const MaxWidth: real := 6.5 * Inch
  const MaxHeight: real := 4.5 * Inch
  /** US letter paper, and the margin used on all four sides. */
  const Letter: (real, real) := (8.5 * Inch, 11.0 * Inch)
  const Margin: real := 0.75 * Inch
  /** The number of blank ruled lines in the notes section. */
  const NotesLineCount: nat := 15

  type Pixels = n: int | n > 0 witness 1

  /** An image file on disk, known by its pixel size. */
  datatype ImageFile = ImageFile(width: Pixels, height: Pixels)

  /** The files present at build time: a path exists iff it is a key. */
  type Disk = map<string, ImageFile>

  /** The patient_info dictionary the session passes in. */
  datatype PatientInfo = PatientInfo(name: string, id: string, examTitle: string, date: string)

  /** The paragraph styles the story uses. */
  datatype Style = TitleStyle | PatientInfoStyle | SectionHeaderStyle | NormalStyle

  /** The flowables of the story; table styling and fonts are not modelled. */
  datatype Flowable =
    | Paragraph(text: string, style: Style)
    | Spacer(height: real)
    | Table(rows: seq<seq<string>>, colWidths: seq<real>)
    | Image(path: string, drawWidth: real, drawHeight: real)
    | PageBreak

  /** The document template together with the story built for it. */
  datatype Document = Document(path: string, pageSize: (real, real), margin: real, story: seq<Flowable>)

  // ---------------------------------------------------------------------
  // Aspect fit
  // ---------------------------------------------------------------------

  /** The drawn size of an image, in points. */
  datatype Size = Size(width: real, height: real)

  /**
   * The drawn size of an image of the given size: first the width is
   * brought down to MaxWidth, then, if the height still exceeds MaxHeight,
   * the height is brought down to MaxHeight, each time keeping the ratio.
   */
  function AspectFit(width: real, height: real): (fit: Size)
    requires 0.0 < width && 0.0 < height
    ensures 0.0 < fit.width <= MaxWidth && 0.0 < fit.height <= MaxHeight
    ensures fit.height / fit.width == height / width
    ensures fit.width <= width && fit.height <= height
    ensures width <= MaxWidth && height <= MaxHeight ==> fit == Size(width, height)
    ensures width > MaxWidth && height <= MaxHeight ==> fit.width == MaxWidth
  {
    var aspect := height / width;
    var (w, h) := if width > MaxWidth then (MaxWidth, MaxWidth * aspect) else (width, height);
    if h > MaxHeight then Size(MaxHeight / aspect, MaxHeight) else Size(w, h)
  }

  /** The scale factor of a uniform shrink into the box, never above 1. */
  function FitScale(width: real, height: real): real
    requires 0.0 < width && 0.0 < height
  {
    var s := if MaxWidth / width < 1.0 then MaxWidth / width else 1.0;
    if MaxHeight / height < s then MaxHeight / height else s
  }

  /** Dividing by a ratio height/width. */
  lemma DivByAspect(a: real, width: real, height: real)
    requires 0.0 < width && 0.0 < height
    ensures a / (height / width) == width * (a / height)
  {
  }

  /**
   * The two-step fit is the uniform scaling by the smallest of 1,
   * MaxWidth/width and MaxHeight/height.
   */
  lemma AspectFitIsUniformScale(width: real, height: real)
    requires 0.0 < width && 0.0 < height
    ensures AspectFit(width, height) == Size(width * FitScale(width, height), height * FitScale(width, height))
  {
    var byWidth, byHeight := MaxWidth / width, MaxHeight / height;
    var aspect := height / width;
    assert MaxWidth * aspect == height * byWidth;
    DivByAspect(MaxHeight, width, height);
    if width > MaxWidth {
      assert byWidth < 1.0;
      if height * byWidth > MaxHeight {
        assert byHeight < byWidth by {
          assert height * byHeight == MaxHeight;
        }
      } else {
        assert byWidth <= byHeight by {
          assert height * byHeight == MaxHeight;
        }
      }
    } else {
      assert byWidth >= 1.0;
      if height > MaxHeight {
        assert byHeight < 1.0;
      } else {
        assert byHeight >= 1.0;
      }
    }
  }

  /**
   * No box of the image's ratio that fits the bounds and does not enlarge
   * the image is wider than the fit.
   */
  lemma AspectFitIsLargest(width: real, height: real, w: real, h: real)
    requires 0.0 < width && 0.0 < height
    requires 0.0 < w <= MaxWidth && 0.0 < h <= MaxHeight && w <= width
    requires h / w == height / width
    ensures w <= AspectFit(width, height).width
  {
    AspectFitIsUniformScale(width, height);
    var t := w / width;
    assert w == width * t;
    assert h == height * t by {
      assert h == w * (height / width);
    }
    ScaleWithinBox(width, height, t);
  }

  /** A scale that does not enlarge and keeps the image in the box is at most FitScale. */
  lemma ScaleWithinBox(width: real, height: real, t: real)
    requires 0.0 < width && 0.0 < height
    requires t <= 1.0 && width * t <= MaxWidth && height * t <= MaxHeight
    ensures t <= FitScale(width, height)
  {
    assert t <= MaxWidth / width;
    assert t <= MaxHeight / height;
  }

  // ---------------------------------------------------------------------
  // The story
  // ---------------------------------------------------------------------

  /** The four rows of the patient table, label then value. */
  function PatientRows(info: PatientInfo): seq<seq<string>> {
    [ ["Patient Name:", info.name],
      ["Patient ID:", info.id],
      ["Exam Title:", info.examTitle],
      ["Examination Date:", info.date] ]
  }

  /** Title, patient table and the heading of the image section. */
  function Header(info: PatientInfo): seq<Flowable> {
    [ Paragraph("ULTRASOUND EXAMINATION REPORT", TitleStyle),
      Spacer(0.3 * Inch),
      Table(PatientRows(info), [2.0 * Inch, 4.0 * Inch]),
      Spacer(0.4 * Inch),
      Paragraph("CAPTURED IMAGES", SectionHeaderStyle),
      Spacer(0.2 * Inch) ]
  }

  /** The caption of the image at 1-based position index of the path list. */
  function Caption(index: nat): Flowable {
    Paragraph("Image " + NatToString(index) + ":", PatientInfoStyle)
  }

  const Placeholder: Flowable := Paragraph("No images were captured during this session.", PatientInfoStyle)

  function FittedImage(path: string, file: ImageFile): Flowable {
    var fit := AspectFit(file.width as real, file.height as real);
    Image(path, fit.width, fit.height)
  }

  /**
   * What the path at 0-based position i contributes: nothing when the file
   * is missing, else caption, image and, unless i is the last position of
   * the list, a page break.
   */
  function Entry(paths: seq<string>, disk: Disk, i: nat): seq<Flowable>
    requires i < |paths|
  {
    if paths[i] in disk then
      [Caption(i + 1), Spacer(0.1 * Inch), FittedImage(paths[i], disk[paths[i]]), Spacer(0.3 * Inch)]
      + (if i + 1 < |paths| then [PageBreak] else [])
    else
      []
  }

  /** The entries of the first k paths, in list order. */
  function Entries(paths: seq<string>, disk: Disk, k: nat): seq<Flowable>
    requires k <= |paths|
  {
    if k == 0 then [] else Entries(paths, disk, k - 1) + Entry(paths, disk, k - 1)
  }

  function ImageSection(paths: seq<string>, disk: Disk): seq<Flowable> {
    if |paths| == 0 then [Placeholder, Spacer(0.3 * Inch)] else Entries(paths, disk, |paths|)
  }

  const RuledLine: Flowable := Paragraph(Repeat('_', 100), NormalStyle)

  /** n ruled lines, each preceded by its spacer. */
  function RuledLines(n: nat): seq<Flowable> {
    seq(2 * n, i => if i % 2 == 0 then Spacer(0.25 * Inch) else RuledLine)
  }

  lemma RuledLinesSnoc(n: nat)
    ensures RuledLines(n + 1) == RuledLines(n) + [Spacer(0.25 * Inch), RuledLine]
  {
    var longer, shorter := RuledLines(n + 1), RuledLines(n);
    forall i | 0 <= i < 2 * n
      ensures longer[i] == shorter[i]
    {
    }
    assert longer[2 * n] == Spacer(0.25 * Inch);
    assert longer[2 * n + 1] == RuledLine;
  }

  const SignatureTable: Flowable :=
    Table([["Physician Signature:", Repeat('_', 40), "Date:", Repeat('_', 20)]],
          [1.5 * Inch, 2.5 * Inch, 0.7 * Inch, 1.5 * Inch])

  const NotesHeader: seq<Flowable> :=
    [PageBreak, Paragraph("CLINICAL NOTES AND OBSERVATIONS", SectionHeaderStyle), Spacer(0.2 * Inch)]

  const SignatureBlock: seq<Flowable> := [Spacer(0.5 * Inch), SignatureTable]

  /** The notes page with n ruled lines: page break, heading, the lines and the signature row. */
  function NotesPage(n: nat): seq<Flowable> {
    NotesHeader + RuledLines(n) + SignatureBlock
  }

  function NotesSection(): seq<Flowable> {
    NotesPage(NotesLineCount)
  }

  /** The whole story of a report. */
  function Story(info: PatientInfo, paths: seq<string>, disk: Disk): seq<Flowable> {
    Header(info) + ImageSection(paths, disk) + NotesSection()
  }

  /**
   * generate_report: builds the story by appending, one flowable after the
   * other, and returns it with the document template it is built into.
   */
  method GenerateReport(pdfPath: string, info: PatientInfo, imagePaths: seq<string>, disk: Disk)
    returns (doc: Document)
    ensures doc == Document(pdfPath, Letter, Margin, Story(info, imagePaths, disk))
  {
    var story: seq<Flowable> := [];
    story := story + [Paragraph("ULTRASOUND EXAMINATION REPORT", TitleStyle), Spacer(0.3 * Inch)];
    story := story + [Table(PatientRows(info), [2.0 * Inch, 4.0 * Inch]), Spacer(0.4 * Inch)];
    story := story + [Paragraph("CAPTURED IMAGES", SectionHeaderStyle), Spacer(0.2 * Inch)];
    assert story == Header(info);

    story := AppendImages(story, imagePaths, disk);
    story := AppendNotes(story);
    doc := Document(pdfPath, Letter, Margin, story);
  }

  /**
   * The image section of generate_report: for each path, in list order, a
   * numbered caption, the fitted image and a page break unless it is the
   * last position of the list; missing files are skipped; an empty list
   * gets the placeholder line instead.
   */
  method AppendImages(prefix: seq<Flowable>, imagePaths: seq<string>, disk: Disk) returns (story: seq<Flowable>)
    ensures story == prefix + ImageSection(imagePaths, disk)
  {
    story := prefix;
    if |imagePaths| > 0 {
      var idx := 1;
      while idx <= |imagePaths|
        invariant 1 <= idx <= |imagePaths| + 1
        invariant story == prefix + Entries(imagePaths, disk, idx - 1)
      {
        ghost var done := story;
        var imgPath := imagePaths[idx - 1];
        if imgPath in disk {
          story := story + [Caption(idx), Spacer(0.1 * Inch)];
          var file := disk[imgPath];
          var fit := AspectFit(file.width as real, file.height as real);
          story := story + [Image(imgPath, fit.width, fit.height), Spacer(0.3 * Inch)];
          if idx < |imagePaths| {
            story := story + [PageBreak];
          }
        }
        assert story == done + Entry(imagePaths, disk, idx - 1);
        idx := idx + 1;
      }
    } else {
      story := story + [Placeholder, Spacer(0.3 * Inch)];
    }
  }

  /** Regrouping of concatenations, a proof step of the AppendNotes loop. */
  lemma AppendAssoc(a: seq<Flowable>, b: seq<Flowable>, c: seq<Flowable>)
    ensures a + b + c == a + (b + c)
  {
  }

  /**
   * The tail of generate_report: page break, notes heading, the ruled
   * lines one by one and the signature row.
   */
  method AppendNotes(prefix: seq<Flowable>) returns (story: seq<Flowable>)
    ensures story == prefix + NotesSection()
  {
    story := prefix + NotesHeader;
    ghost var base := story;
    var line := 0;
    while line < NotesLineCount
      invariant 0 <= line <= NotesLineCount
      invariant story == base + RuledLines(line)
    {
      RuledLinesSnoc(line);
      AppendAssoc(base, RuledLines(line), [Spacer(0.25 * Inch), RuledLine]);
      story := story + [Spacer(0.25 * Inch), RuledLine];
      line := line + 1;
    }
    AppendAssoc(prefix, NotesHeader, RuledLines(NotesLineCount));
    AppendAssoc(prefix, NotesHeader + RuledLines(NotesLineCount), SignatureBlock);
    story := story + SignatureBlock;
  }

  // ---------------------------------------------------------------------
  // Counting
  // ---------------------------------------------------------------------

  /** The number of flowables of s that satisfy p. */
  function Count(s: seq<Flowable>, p: Kind): nat {
    if s == [] then 0 else Count(s[..|s| - 1], p) + (if Matches(s[|s| - 1], p) then 1 else 0)
  }

  lemma {:induction false} CountAppend(a: seq<Flowable>, b: seq<Flowable>, p: Kind)
    ensures Count(a + b, p) == Count(a, p) + Count(b, p)
    decreases |b|
  {
    if b == [] {
      assert a + b == a;
    } else {
      assert (a + b)[..|a + b| - 1] == a + b[..|b| - 1];
      CountAppend(a, b[..|b| - 1], p);
    }
  }

  /** The number of paths of the list whose file exists. */
  function CountExisting(paths: seq<string>, disk: Disk): nat {
    if paths == [] then 0
    else CountExisting(paths[..|paths| - 1], disk) + (if paths[|paths| - 1] in disk then 1 else 0)
  }

  /** The kinds of flowable the lemmas count. */
  datatype Kind = ImageKind | PageBreakKind | RuledLineKind | PlaceholderKind

  predicate Matches(f: Flowable, kind: Kind) {
    match kind
    case ImageKind => f.Image?
    case PageBreakKind => f.PageBreak?
    case RuledLineKind => f == RuledLine
    case PlaceholderKind => f == Placeholder
  }

  /** An image of the story drawn at the fitted size of its file. */
  predicate DrawnToFit(f: Flowable, disk: Disk)
    requires f.Image?
  {
    f.path in disk &&
    Size(f.drawWidth, f.drawHeight) == AspectFit(disk[f.path].width as real, disk[f.path].height as real)
  }

  // ---------------------------------------------------------------------
  // Lemmas: counting helpers
  // ---------------------------------------------------------------------

  lemma CountSingle(x: Flowable, p: Kind)
    ensures Count([x], p) == if Matches(x, p) then 1 else 0
  {
    assert [x][..0] == [];
  }

  /** Nothing is counted exactly when no flowable satisfies p. */
  lemma {:induction false} CountZero(s: seq<Flowable>, p: Kind)
    ensures Count(s, p) == 0 <==> forall i :: 0 <= i < |s| ==> !Matches(s[i], p)
    decreases |s|
  {
    if s != [] {
      CountZero(s[..|s| - 1], p);
    }
  }

  lemma CountNone(s: seq<Flowable>, p: Kind)
    requires forall i :: 0 <= i < |s| ==> !Matches(s[i], p)
    ensures Count(s, p) == 0
  {
    CountZero(s, p);
  }

  lemma {:induction false} CountExistingNone(paths: seq<string>, disk: Disk)
    ensures CountExisting(paths, disk) == 0 <==> forall i :: 0 <= i < |paths| ==> paths[i] !in disk
    decreases |paths|
  {
    if paths != [] {
      var init := paths[..|paths| - 1];
      CountExistingNone(init, disk);
      assert forall i :: 0 <= i < |init| ==> init[i] == paths[i];
    }
  }

  // ---------------------------------------------------------------------
  // Lemmas: captions
  // ---------------------------------------------------------------------

  /**
   * The first letter of a caption, a proof step that tells captions apart
   * from other paragraphs (CaptionIsNoNotesLine, HeaderFacts, StoryCaptions).
   */
  lemma CaptionText(index: nat)
    ensures Caption(index).style == PatientInfoStyle
    ensures |Caption(index).text| > 0 && Caption(index).text[0] == 'I'
  {
  }

  /** The first letter of the placeholder, a proof step for CaptionIsNoNotesLine and StoryCaptions. */
  lemma PlaceholderText()
    ensures Placeholder.style == PatientInfoStyle
    ensures |Placeholder.text| > 0 && Placeholder.text[0] == 'N'
  {
  }

  /** Different positions get different captions. */
  lemma CaptionInjective(i: nat, j: nat)
    requires Caption(i) == Caption(j)
    ensures i == j
  {
    var a, b := Caption(i).text, Caption(j).text;
    assert NatToString(i) == a[6..|a| - 1];
    assert NatToString(j) == b[6..|b| - 1];
    NatToStringInjective(i, j);
  }

  // ---------------------------------------------------------------------
  // Lemmas: the entries of the image section
  // ---------------------------------------------------------------------

  function Ones(b: bool): nat {
    if b then 1 else 0
  }

  lemma CountPair(x: Flowable, y: Flowable, p: Kind)
    ensures Count([x, y], p) == Ones(Matches(x, p)) + Ones(Matches(y, p))
  {
    assert [x, y] == [x] + [y];
    CountAppend([x], [y], p);
    CountSingle(x, p);
    CountSingle(y, p);
  }

  /** A caption is neither a ruled line nor the placeholder. */
  lemma CaptionIsNoNotesLine(index: nat)
    ensures !Matches(Caption(index), RuledLineKind) && !Matches(Caption(index), PlaceholderKind)
  {
    CaptionText(index);
    PlaceholderText();
    assert RuledLine.text[0] == '_';
  }

  /** The count of any kind of flowable in the entry of an existing path. */
  lemma EntryCount(paths: seq<string>, disk: Disk, i: nat, p: Kind)
    requires i < |paths| && paths[i] in disk
    ensures Count(Entry(paths, disk, i), p)
         == Ones(Matches(Caption(i + 1), p)) + Ones(Matches(Spacer(0.1 * Inch), p))
          + Ones(Matches(FittedImage(paths[i], disk[paths[i]]), p)) + Ones(Matches(Spacer(0.3 * Inch), p))
          + (if i + 1 < |paths| then Ones(Matches(PageBreak, p)) else 0)
  {
    var front := [Caption(i + 1), Spacer(0.1 * Inch)];
    var img := FittedImage(paths[i], disk[paths[i]]);
    var back := if i + 1 < |paths| then [Spacer(0.3 * Inch), PageBreak] else [Spacer(0.3 * Inch)];
    assert Entry(paths, disk, i) == front + [img] + back;
    CountAppend(front + [img], back, p);
    CountAppend(front, [img], p);
    CountSingle(img, p);
    CountPair(Caption(i + 1), Spacer(0.1 * Inch), p);
    if i + 1 < |paths| {
      CountPair(Spacer(0.3 * Inch), PageBreak, p);
    } else {
      CountSingle(Spacer(0.3 * Inch), p);
    }
  }

  lemma EntryCounts(paths: seq<string>, disk: Disk, i: nat)
    requires i < |paths|
    ensures Count(Entry(paths, disk, i), ImageKind) == if paths[i] in disk then 1 else 0
    ensures Count(Entry(paths, disk, i), PageBreakKind) == if paths[i] in disk && i + 1 < |paths| then 1 else 0
    ensures Count(Entry(paths, disk, i), RuledLineKind) == 0
    ensures Count(Entry(paths, disk, i), PlaceholderKind) == 0
  {
    if paths[i] in disk {
      CaptionIsNoNotesLine(i + 1);
      EntryCount(paths, disk, i, ImageKind);
      EntryCount(paths, disk, i, PageBreakKind);
      EntryCount(paths, disk, i, RuledLineKind);
      EntryCount(paths, disk, i, PlaceholderKind);
    }
  }

  /** Counting the existing files of one more path of the list. */
  lemma CountExistingSnoc(paths: seq<string>, disk: Disk, k: nat)
    requires 0 < k <= |paths|
    ensures CountExisting(paths[..k], disk)
         == CountExisting(paths[..k - 1], disk) + if paths[k - 1] in disk then 1 else 0
  {
    assert paths[..k][..k - 1] == paths[..k - 1];
    assert paths[..k][k - 1] == paths[k - 1];
  }

  /** Counting in the first k entries: the first k - 1 entries, then entry k - 1. */
  lemma EntriesCountStep(paths: seq<string>, disk: Disk, k: nat, p: Kind)
    requires 0 < k <= |paths|
    ensures Count(Entries(paths, disk, k), p)
         == Count(Entries(paths, disk, k - 1), p) + Count(Entry(paths, disk, k - 1), p)
  {
    CountAppend(Entries(paths, disk, k - 1), Entry(paths, disk, k - 1), p);
  }

  lemma EntriesImageStep(paths: seq<string>, disk: Disk, k: nat)
    requires 0 < k <= |paths|
    requires Count(Entries(paths, disk, k - 1), ImageKind) == CountExisting(paths[..k - 1], disk)
    ensures Count(Entries(paths, disk, k), ImageKind) == CountExisting(paths[..k], disk)
  {
    EntriesCountStep(paths, disk, k, ImageKind);
    EntryCounts(paths, disk, k - 1);
    CountExistingSnoc(paths, disk, k);
  }

  /** The first k entries hold one image per existing file among the first k paths. */
  lemma {:induction false} EntriesImages(paths: seq<string>, disk: Disk, k: nat)
    requires k <= |paths|
    ensures Count(Entries(paths, disk, k), ImageKind) == CountExisting(paths[..k], disk)
    decreases k
  {
    if k > 0 {
      EntriesImages(paths, disk, k - 1);
      EntriesImageStep(paths, disk, k);
    }
  }

  lemma EntriesPageBreakStep(paths: seq<string>, disk: Disk, k: nat)
    requires 0 < k < |paths|
    requires Count(Entries(paths, disk, k - 1), PageBreakKind) == CountExisting(paths[..k - 1], disk)
    ensures Count(Entries(paths, disk, k), PageBreakKind) == CountExisting(paths[..k], disk)
  {
    EntriesCountStep(paths, disk, k, PageBreakKind);
    EntryCounts(paths, disk, k - 1);
    CountExistingSnoc(paths, disk, k);
  }

  /** Before the last position, the first k entries hold one page break per existing file. */
  lemma {:induction false} EntriesPageBreaks(paths: seq<string>, disk: Disk, k: nat)
    requires k < |paths|
    ensures Count(Entries(paths, disk, k), PageBreakKind) == CountExisting(paths[..k], disk)
    decreases k
  {
    if k > 0 {
      EntriesPageBreaks(paths, disk, k - 1);
      EntriesPageBreakStep(paths, disk, k);
    }
  }

  lemma EntriesNoNotesStep(paths: seq<string>, disk: Disk, k: nat, kind: Kind)
    requires 0 < k <= |paths| && (kind == RuledLineKind || kind == PlaceholderKind)
    requires Count(Entries(paths, disk, k - 1), kind) == 0
    ensures Count(Entries(paths, disk, k), kind) == 0
  {
    EntriesCountStep(paths, disk, k, kind);
    EntryCounts(paths, disk, k - 1);
  }

  /** The entries hold no ruled line and no placeholder. */
  lemma {:induction false} EntriesNoNotes(paths: seq<string>, disk: Disk, k: nat)
    requires k <= |paths|
    ensures Count(Entries(paths, disk, k), RuledLineKind) == 0
    ensures Count(Entries(paths, disk, k), PlaceholderKind) == 0
    decreases k
  {
    if k > 0 {
      EntriesNoNotes(paths, disk, k - 1);
      EntriesNoNotesStep(paths, disk, k, RuledLineKind);
      EntriesNoNotesStep(paths, disk, k, PlaceholderKind);
    }
  }

  /** The counts in the entries of the first k paths. */
  lemma EntriesCounts(paths: seq<string>, disk: Disk, k: nat)
    requires k <= |paths|
    ensures Count(Entries(paths, disk, k), ImageKind) == CountExisting(paths[..k], disk)
    ensures k < |paths| ==> Count(Entries(paths, disk, k), PageBreakKind) == CountExisting(paths[..k], disk)
    ensures Count(Entries(paths, disk, k), RuledLineKind) == 0
    ensures Count(Entries(paths, disk, k), PlaceholderKind) == 0
  {
    EntriesImages(paths, disk, k);
    if k < |paths| {
      EntriesPageBreaks(paths, disk, k);
    }
    EntriesNoNotes(paths, disk, k);
  }

  /** The entries of the first i paths are a prefix of those of the first k. */
  lemma {:induction false} EntriesPrefix(paths: seq<string>, disk: Disk, i: nat, k: nat)
    requires i <= k <= |paths|
    ensures Entries(paths, disk, i) <= Entries(paths, disk, k)
    decreases k
  {
    if i < k {
      EntriesPrefix(paths, disk, i, k - 1);
    }
  }

  /** A caption appears in the first k entries iff its path exists. */
  lemma {:induction false} EntriesCaptions(paths: seq<string>, disk: Disk, k: nat, j: nat)
    requires k <= |paths|
    ensures Caption(j) in Entries(paths, disk, k) <==> 1 <= j <= k && paths[j - 1] in disk
    decreases k
  {
    if k > 0 {
      EntriesCaptions(paths, disk, k - 1, j);
      var e := Entry(paths, disk, k - 1);
      if Caption(j) in e {
        assert e[0] == Caption(k);
        CaptionInjective(j, k);
      }
    }
  }

  /** Every image of the first k entries is drawn at its file's fitted size. */
  lemma {:induction false} EntriesImagesFit(paths: seq<string>, disk: Disk, k: nat)
    requires k <= |paths|
    ensures forall f :: f in Entries(paths, disk, k) && f.Image? ==> DrawnToFit(f, disk)
    decreases k
  {
    if k > 0 {
      EntriesImagesFit(paths, disk, k - 1);
    }
  }

  /**
   * Before the last position the entries are empty exactly when no file
   * exists yet, and otherwise end with a page break.
   */
  lemma {:induction false} EntriesEnd(paths: seq<string>, disk: Disk, k: nat)
    requires k < |paths|
    ensures Entries(paths, disk, k) == [] <==> CountExisting(paths[..k], disk) == 0
    ensures Entries(paths, disk, k) != [] ==> Entries(paths, disk, k)[|Entries(paths, disk, k)| - 1] == PageBreak
    decreases k
  {
    if k > 0 {
      EntriesEnd(paths, disk, k - 1);
      assert paths[..k][..k - 1] == paths[..k - 1];
    }
  }

  // ---------------------------------------------------------------------
  // Lemmas: the notes section
  // ---------------------------------------------------------------------

  lemma {:induction false} RuledLinesFacts(n: nat)
    ensures |RuledLines(n)| == 2 * n
    ensures forall j: nat :: Caption(j) !in RuledLines(n)
    ensures Count(RuledLines(n), RuledLineKind) == n
    ensures Count(RuledLines(n), ImageKind) == 0
    ensures Count(RuledLines(n), PageBreakKind) == 0
    ensures Count(RuledLines(n), PlaceholderKind) == 0
    decreases n
  {
    if n > 0 {
      RuledLinesFacts(n - 1);
      RuledLinesSnoc(n - 1);
      var before, pair := RuledLines(n - 1), [Spacer(0.25 * Inch), RuledLine];
      CountAppend(before, pair, RuledLineKind);
      CountAppend(before, pair, ImageKind);
      CountAppend(before, pair, PageBreakKind);
      CountAppend(before, pair, PlaceholderKind);
      CountAppend([Spacer(0.25 * Inch)], [RuledLine], RuledLineKind);
      CountSingle(Spacer(0.25 * Inch), RuledLineKind);
      CountSingle(RuledLine, RuledLineKind);
      CountNone(pair, ImageKind);
      CountNone(pair, PageBreakKind);
      CountNone(pair, PlaceholderKind);
      forall j: nat ensures Caption(j) !in RuledLines(n) {
        CaptionText(j);
      }
    }
  }

  lemma NotesHeaderCounts()
    ensures Count(NotesHeader, PageBreakKind) == 1
    ensures Count(NotesHeader, ImageKind) == 0 && Count(NotesHeader, RuledLineKind) == 0
    ensures Count(NotesHeader, PlaceholderKind) == 0
    ensures forall j: nat :: Caption(j) !in NotesHeader
  {
    CountAppend([PageBreak], NotesHeader[1..], PageBreakKind);
    assert NotesHeader == [PageBreak] + NotesHeader[1..];
    CountSingle(PageBreak, PageBreakKind);
    CountNone(NotesHeader[1..], PageBreakKind);
    CountNone(NotesHeader, ImageKind);
    CountNone(NotesHeader, RuledLineKind);
    CountNone(NotesHeader, PlaceholderKind);
    forall j: nat ensures Caption(j) !in NotesHeader {
      CaptionText(j);
    }
  }

  lemma SignatureBlockCounts()
    ensures Count(SignatureBlock, PageBreakKind) == 0 && Count(SignatureBlock, ImageKind) == 0
    ensures Count(SignatureBlock, RuledLineKind) == 0 && Count(SignatureBlock, PlaceholderKind) == 0
    ensures forall j: nat :: Caption(j) !in SignatureBlock
  {
    CountNone(SignatureBlock, PageBreakKind);
    CountNone(SignatureBlock, ImageKind);
    CountNone(SignatureBlock, RuledLineKind);
    CountNone(SignatureBlock, PlaceholderKind);
  }

  lemma NotesPageCounts(n: nat)
    ensures |NotesPage(n)| == 5 + 2 * n
    ensures NotesPage(n)[0] == PageBreak
    ensures NotesPage(n)[|NotesPage(n)| - 1] == SignatureTable
    ensures Count(NotesPage(n), ImageKind) == 0
    ensures Count(NotesPage(n), PageBreakKind) == 1
    ensures Count(NotesPage(n), RuledLineKind) == n
    ensures Count(NotesPage(n), PlaceholderKind) == 0
    ensures forall j: nat :: Caption(j) !in NotesPage(n)
  {
    var lines := RuledLines(n);
    RuledLinesFacts(n);
    NotesHeaderCounts();
    SignatureBlockCounts();
    CountAppend(NotesHeader + lines, SignatureBlock, ImageKind);
    CountAppend(NotesHeader, lines, ImageKind);
    CountAppend(NotesHeader + lines, SignatureBlock, PageBreakKind);
    CountAppend(NotesHeader, lines, PageBreakKind);
    CountAppend(NotesHeader + lines, SignatureBlock, RuledLineKind);
    CountAppend(NotesHeader, lines, RuledLineKind);
    CountAppend(NotesHeader + lines, SignatureBlock, PlaceholderKind);
    CountAppend(NotesHeader, lines, PlaceholderKind);
  }



  // ---------------------------------------------------------------------
  // Lemmas: the whole story
  // ---------------------------------------------------------------------

  lemma HeaderFacts(info: PatientInfo)
    ensures Count(Header(info), ImageKind) == 0 && Count(Header(info), PageBreakKind) == 0
    ensures Count(Header(info), RuledLineKind) == 0 && Count(Header(info), PlaceholderKind) == 0
    ensures forall j: nat :: Caption(j) !in Header(info)
  {
    var h := Header(info);
    CountNone(h, ImageKind);
    CountNone(h, PageBreakKind);
    CountNone(h, RuledLineKind);
    CountNone(h, PlaceholderKind);
    forall j: nat ensures Caption(j) !in h {
      CaptionText(j);
    }
  }

  lemma SectionCounts(paths: seq<string>, disk: Disk)
    ensures Count(ImageSection(paths, disk), ImageKind) == CountExisting(paths, disk)
    ensures Count(ImageSection(paths, disk), PageBreakKind)
         == if |paths| == 0 then 0 else CountExisting(paths[..|paths| - 1], disk)
    ensures Count(ImageSection(paths, disk), RuledLineKind) == 0
    ensures Count(ImageSection(paths, disk), PlaceholderKind) == if |paths| == 0 then 1 else 0
  {
    var n := |paths|;
    if n == 0 {
      var sec := ImageSection(paths, disk);
      assert sec == [Placeholder] + [Spacer(0.3 * Inch)];
      CountNone(sec, ImageKind);
      CountNone(sec, PageBreakKind);
      CountNone(sec, RuledLineKind);
      CountAppend([Placeholder], [Spacer(0.3 * Inch)], PlaceholderKind);
      CountSingle(Placeholder, PlaceholderKind);
      CountSingle(Spacer(0.3 * Inch), PlaceholderKind);
    } else {
      EntriesCounts(paths, disk, n);
      EntriesCounts(paths, disk, n - 1);
      EntryCounts(paths, disk, n - 1);
      CountAppend(Entries(paths, disk, n - 1), Entry(paths, disk, n - 1), PageBreakKind);
      assert paths[..n] == paths;
    }
  }

  lemma StoryCountsSplit(info: PatientInfo, paths: seq<string>, disk: Disk, p: Kind)
    ensures Count(Story(info, paths, disk), p)
         == Count(Header(info), p) + Count(ImageSection(paths, disk), p) + Count(NotesSection(), p)
  {
    CountAppend(Header(info) + ImageSection(paths, disk), NotesSection(), p);
    CountAppend(Header(info), ImageSection(paths, disk), p);
  }

  /**
   * One image per existing file; one page break after each existing file
   * that is not at the last position of the list, plus the one before the
   * notes; exactly NotesLineCount ruled lines; the placeholder only for an
   * empty list.
   */
  lemma StoryCounts(info: PatientInfo, paths: seq<string>, disk: Disk)
    ensures Count(Story(info, paths, disk), ImageKind) == CountExisting(paths, disk)
    ensures Count(Story(info, paths, disk), PageBreakKind)
         == 1 + if |paths| == 0 then 0 else CountExisting(paths[..|paths| - 1], disk)
    ensures Count(Story(info, paths, disk), RuledLineKind) == NotesLineCount
    ensures Count(Story(info, paths, disk), PlaceholderKind) == if |paths| == 0 then 1 else 0
  {
    var s := Story(info, paths, disk);
    assert Count(s, ImageKind) == CountExisting(paths, disk) by {
      HeaderFacts(info);
      SectionCounts(paths, disk);
      NotesPageCounts(NotesLineCount);
      StoryCountsSplit(info, paths, disk, ImageKind);
    }
    assert Count(s, PageBreakKind) == 1 + if |paths| == 0 then 0 else CountExisting(paths[..|paths| - 1], disk) by {
      HeaderFacts(info);
      SectionCounts(paths, disk);
      NotesPageCounts(NotesLineCount);
      StoryCountsSplit(info, paths, disk, PageBreakKind);
    }
    assert Count(s, RuledLineKind) == NotesLineCount by {
      HeaderFacts(info);
      SectionCounts(paths, disk);
      NotesPageCounts(NotesLineCount);
      StoryCountsSplit(info, paths, disk, RuledLineKind);
    }
    HeaderFacts(info);
    SectionCounts(paths, disk);
    StoryCountsSplit(info, paths, disk, PlaceholderKind);
    NotesPageCounts(NotesLineCount);
  }

  /** Caption(j) is in the story iff the j-th path (1-based) exists. */
  lemma StoryCaptions(info: PatientInfo, paths: seq<string>, disk: Disk, j: nat)
    ensures Caption(j) in Story(info, paths, disk) <==> 1 <= j <= |paths| && paths[j - 1] in disk
  {
    HeaderFacts(info);
    NotesPageCounts(NotesLineCount);
    if |paths| == 0 {
      CaptionText(j);
      PlaceholderText();
    } else {
      EntriesCaptions(paths, disk, |paths|, j);
    }
  }

  /** Past a prefix, a sequence continues with what follows the prefix. */
  lemma PrefixIndex(before: seq<Flowable>, e: seq<Flowable>, all: seq<Flowable>, t: nat)
    requires before + e <= all && t < |e|
    ensures |before| + t < |all| && all[|before| + t] == e[t]
  {
    assert all[|before| + t] == (before + e)[|before| + t];
  }

  /**
   * Within the entries of all paths, the entry of an existing path at
   * 0-based position i starts right after the entries before it.
   */
  lemma EntriesAt(paths: seq<string>, disk: Disk, i: nat)
    requires i < |paths| && paths[i] in disk
    ensures var all, at := Entries(paths, disk, |paths|), |Entries(paths, disk, i)|;
      at + 2 < |all| &&
      all[at] == Caption(i + 1) &&
      all[at + 1] == Spacer(0.1 * Inch) &&
      all[at + 2] == FittedImage(paths[i], disk[paths[i]])
  {
    var all := Entries(paths, disk, |paths|);
    var before, e := Entries(paths, disk, i), Entry(paths, disk, i);
    EntriesPrefix(paths, disk, i + 1, |paths|);
    assert Entries(paths, disk, i + 1) == before + e;
    assert e[..3] == [Caption(i + 1), Spacer(0.1 * Inch), FittedImage(paths[i], disk[paths[i]])];
    PrefixIndex(before, e, all, 0);
    PrefixIndex(before, e, all, 1);
    PrefixIndex(before, e, all, 2);
  }

  /**
   * The entry of an existing path at 0-based position i: its caption
   * numbered i + 1, a spacer, then the image drawn at its fitted size.
   */
  lemma StoryCaptionThenImage(info: PatientInfo, paths: seq<string>, disk: Disk, i: nat)
    requires i < |paths| && paths[i] in disk
    ensures var s, at := Story(info, paths, disk), |Header(info)| + |Entries(paths, disk, i)|;
      at + 2 < |s| &&
      s[at] == Caption(i + 1) &&
      s[at + 1] == Spacer(0.1 * Inch) &&
      s[at + 2] == FittedImage(paths[i], disk[paths[i]])
  {
    EntriesAt(paths, disk, i);
    var all := Entries(paths, disk, |paths|);
    var front := Header(info) + all;
    var s := Story(info, paths, disk);
    assert s == front + NotesSection();
    var at := |Header(info)| + |Entries(paths, disk, i)|;
    assert s[at] == front[at] == all[at - |Header(info)|];
    assert s[at + 1] == front[at + 1] == all[at + 1 - |Header(info)|];
    assert s[at + 2] == front[at + 2] == all[at + 2 - |Header(info)|];
  }

  /** Every image of the story is a file on disk drawn at its fitted size. */
  lemma StoryImagesFit(info: PatientInfo, paths: seq<string>, disk: Disk)
    ensures forall f :: f in Story(info, paths, disk) && f.Image? ==>
      DrawnToFit(f, disk) && 0.0 < f.drawWidth <= MaxWidth && 0.0 < f.drawHeight <= MaxHeight
  {
    StoryImagesDrawnToFit(info, paths, disk);
    forall f | f in Story(info, paths, disk) && f.Image?
      ensures 0.0 < f.drawWidth <= MaxWidth && 0.0 < f.drawHeight <= MaxHeight
    {
      DrawnToFitBounds(f, disk);
    }
  }

  lemma DrawnToFitBounds(f: Flowable, disk: Disk)
    requires f.Image? && DrawnToFit(f, disk)
    ensures 0.0 < f.drawWidth <= MaxWidth && 0.0 < f.drawHeight <= MaxHeight
  {
    var file := disk[f.path];
    var fit := AspectFit(file.width as real, file.height as real);
    assert f.drawWidth == fit.width && f.drawHeight == fit.height;
  }

  lemma StoryImagesDrawnToFit(info: PatientInfo, paths: seq<string>, disk: Disk)
    ensures forall f :: f in Story(info, paths, disk) && f.Image? ==> DrawnToFit(f, disk)
  {
    var h, sec, notes := Header(info), ImageSection(paths, disk), NotesSection();
    HeaderFacts(info);
    NotesPageCounts(NotesLineCount);
    if |paths| == 0 {
      assert sec == [Placeholder, Spacer(0.3 * Inch)];
    } else {
      EntriesImagesFit(paths, disk, |paths|);
    }
    ImagesFitConcat(h, sec, notes, disk);
  }

  /** Pieces without images do not add images that are not drawn to fit. */
  lemma ImagesFitConcat(a: seq<Flowable>, b: seq<Flowable>, c: seq<Flowable>, disk: Disk)
    requires Count(a, ImageKind) == 0 && Count(c, ImageKind) == 0
    requires forall f :: f in b && f.Image? ==> DrawnToFit(f, disk)
    ensures forall f :: f in a + b + c && f.Image? ==> DrawnToFit(f, disk)
  {
    CountZero(a, ImageKind);
    CountZero(c, ImageKind);
    forall f | f in a + b + c && f.Image?
      ensures DrawnToFit(f, disk)
    {
      assert f !in a && f !in c;
    }
  }

  /** The story opens with the title, the patient table and the image heading. */
  lemma StoryOpening(info: PatientInfo, paths: seq<string>, disk: Disk)
    ensures var s := Story(info, paths, disk);
      |s| > 6 &&
      s[0] == Paragraph("ULTRASOUND EXAMINATION REPORT", TitleStyle) &&
      s[2].Table? &&
      s[2].rows == [ ["Patient Name:", info.name], ["Patient ID:", info.id],
                     ["Exam Title:", info.examTitle], ["Examination Date:", info.date] ] &&
      s[4] == Paragraph("CAPTURED IMAGES", SectionHeaderStyle)
  {
    StoryStartsWithHeader(info, paths, disk);
    var h := Header(info);
    assert h[0] == Paragraph("ULTRASOUND EXAMINATION REPORT", TitleStyle);
    assert h[2] == Table(PatientRows(info), [2.0 * Inch, 4.0 * Inch]);
    assert h[4] == Paragraph("CAPTURED IMAGES", SectionHeaderStyle);
  }

  /** The story begins with the header and goes on past it. */
  lemma StoryStartsWithHeader(info: PatientInfo, paths: seq<string>, disk: Disk)
    ensures var s, h := Story(info, paths, disk), Header(info);
      |s| > |h| && s[..|h|] == h
  {
    NotesPageCounts(NotesLineCount);
    var s, h := Story(info, paths, disk), Header(info);
    assert s == h + (ImageSection(paths, disk) + NotesSection());
  }

  /**
   * The story closes with the notes page: a page break, the heading, the
   * ruled lines and the signature row of four cells.
   */
  lemma StoryClosing(info: PatientInfo, paths: seq<string>, disk: Disk)
    ensures var s := Story(info, paths, disk);
      |s| >= |Header(info)| + 5 + 2 * NotesLineCount &&
      s[|s| - |NotesSection()|..] == NotesSection() &&
      s[|s| - |NotesSection()|] == PageBreak &&
      s[|s| - 1] == Table([["Physician Signature:", Repeat('_', 40), "Date:", Repeat('_', 20)]],
                          [1.5 * Inch, 2.5 * Inch, 0.7 * Inch, 1.5 * Inch])
  {
    NotesPageCounts(NotesLineCount);
    var s := Story(info, paths, disk);
    assert s == (Header(info) + ImageSection(paths, disk)) + NotesSection();
  }

  /** An empty list gives exactly the placeholder line and no image or caption. */
  lemma EmptyListPlaceholder(info: PatientInfo, disk: Disk)
    ensures ImageSection([], disk) == [Placeholder, Spacer(0.3 * Inch)]
    ensures Count(Story(info, [], disk), PlaceholderKind) == 1
    ensures Count(Story(info, [], disk), ImageKind) == 0
    ensures forall j: nat :: Caption(j) !in Story(info, [], disk)
  {
    StoryCounts(info, [], disk);
    forall j: nat ensures Caption(j) !in Story(info, [], disk) {
      StoryCaptions(info, [], disk, j);
    }
  }

  /** A non-empty list whose files are all missing gives no placeholder and no image. */
  lemma AllMissingNoPlaceholder(info: PatientInfo, paths: seq<string>, disk: Disk)
    requires |paths| > 0
    requires forall i :: 0 <= i < |paths| ==> paths[i] !in disk
    ensures ImageSection(paths, disk) == []
    ensures Story(info, paths, disk) == Header(info) + NotesSection()
  {
    var n := |paths|;
    var init := paths[..n - 1];
    assert forall i :: 0 <= i < |init| ==> init[i] !in disk by {
      assert forall i :: 0 <= i < |init| ==> init[i] == paths[i];
    }
    CountExistingNone(init, disk);
    EntriesEnd(paths, disk, n - 1);
    SectionEndMissing(paths, disk);
  }

  /** When the last file is missing, the section is the entries before it. */
  lemma SectionEndMissing(paths: seq<string>, disk: Disk)
    requires |paths| > 0 && paths[|paths| - 1] !in disk
    ensures ImageSection(paths, disk) == Entries(paths, disk, |paths| - 1)
  {
    var n := |paths|;
    assert Entry(paths, disk, n - 1) == [];
    assert ImageSection(paths, disk) == Entries(paths, disk, n - 1) + [];
  }

  /**
   * A non-empty image section ends with a page break iff the last path is
   * missing while some earlier one exists.
   */
  lemma SectionEnd(paths: seq<string>, disk: Disk)
    requires |paths| > 0
    ensures var sec := ImageSection(paths, disk);
      sec != [] && sec[|sec| - 1] == PageBreak <==>
        paths[|paths| - 1] !in disk && CountExisting(paths, disk) > 0
  {
    var n := |paths|;
    CountExistingSnoc(paths, disk, n);
    assert paths[..n] == paths;
    if paths[n - 1] in disk {
      SectionEndExisting(paths, disk);
    } else {
      SectionEndMissing(paths, disk);
      EntriesEnd(paths, disk, n - 1);
    }
  }

  /** When the last file exists, the section ends with its spacer. */
  lemma SectionEndExisting(paths: seq<string>, disk: Disk)
    requires |paths| > 0 && paths[|paths| - 1] in disk
    ensures var sec := ImageSection(paths, disk);
      sec != [] && sec[|sec| - 1] == Spacer(0.3 * Inch)
  {
    var n := |paths|;
    var sec, last := ImageSection(paths, disk), Entry(paths, disk, n - 1);
    assert sec == Entries(paths, disk, n - 1) + last;
    assert last[|last| - 1] == Spacer(0.3 * Inch);
  }

  /**
   * The position just before the notes page holds a page break iff the
   * last path is missing while some earlier one exists: the page break is
   * decided by position in the list, so the notes page break doubles it.
   */
  lemma TrailingMissingDoublesBreak(info: PatientInfo, paths: seq<string>, disk: Disk)
    ensures var s, at := Story(info, paths, disk), |Header(info)| + |ImageSection(paths, disk)|;
      at < |s| && s[at] == PageBreak &&
      (s[at - 1] == PageBreak <==>
         |paths| > 0 && paths[|paths| - 1] !in disk && CountExisting(paths, disk) > 0)
  {
    NotesPageCounts(NotesLineCount);
    var sec := ImageSection(paths, disk);
    var s, at := Story(info, paths, disk), |Header(info)| + |sec|;
    var front := Header(info) + sec;
    assert s == front + NotesSection();
    assert s[at] == NotesSection()[0];
    assert s[at - 1] == front[|front| - 1];
    if |paths| > 0 {
      SectionEnd(paths, disk);
    }
  }
}
