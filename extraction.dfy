/** `ResumeEvaluator.extract_text`: the text of a PDF or Word file, chosen by the file name's
    extension. The parsing libraries are abstracted as what they yield for a file: a sequence
    of pages or paragraphs, each of which may raise, behind an open step that may raise. */
module Extraction {
  import opened Wrappers
  import opened Text

  datatype FileKind = Pdf | Word | Unsupported

  /** The branch `extract_text` takes for a path: `.pdf` first, then `.docx` or `.doc`,
      compared after lower-casing. */
  function KindOf(path: string): (kind: FileKind)
    ensures kind == Pdf <==> LowerEndsWith(path, ".pdf")
    ensures kind == Unsupported <==>
      !LowerEndsWith(path, ".pdf") && !LowerEndsWith(path, ".doc") && !LowerEndsWith(path, ".docx")
  {
    if LowerEndsWith(path, ".pdf") then Pdf
    else if LowerEndsWith(path, ".docx") || LowerEndsWith(path, ".doc") then Word
    else Unsupported
  }

  /** A PDF page: `extract_text()` returns a string or `None`, or raises. */
  datatype Page = Page(text: Option<string>) | PageFails

  /** A Word paragraph: its `text`, or an exception while reading it. */
  datatype Paragraph = Paragraph(text: string) | ParagraphFails

  /** Opening a file with a parsing library yields its items in order, or raises. */
  datatype Opened<T> = Opened(items: seq<T>) | OpenFails

  /** What each parsing library makes of one stored file. */
  datatype StoredFile = StoredFile(asPdf: Opened<Page>, asWord: Opened<Paragraph>)

  /** One iteration of an extraction loop: the text it appends, or the exception that ends it. */
  datatype Step = Piece(text: string) | Raise

  /** `page.extract_text() or ""` */
  function PageStep(p: Page): Step {
    match p
    case Page(t) => Piece(t.GetOr(""))
    case PageFails => Raise
  }

  /** `para.text + "\n"` */
  function ParagraphStep(p: Paragraph): Step {
    match p
    case Paragraph(t) => Piece(t + "\n")
    case ParagraphFails => Raise
  }

  /** The iterations of the page loop, one per page. */
  function PageSteps(pages: seq<Page>): seq<Step> {
    seq(|pages|, i requires 0 <= i < |pages| => PageStep(pages[i]))
  }

  /** The iterations of the paragraph loop, one per paragraph. */
  function ParagraphSteps(paragraphs: seq<Paragraph>): seq<Step> {
    seq(|paragraphs|, i requires 0 <= i < |paragraphs| => ParagraphStep(paragraphs[i]))
  }

  /** The page loop over a concatenation runs the iterations of each part in turn. */
  lemma PageStepsAppend(a: seq<Page>, b: seq<Page>)
    ensures PageSteps(a + b) == PageSteps(a) + PageSteps(b)
  {
    forall i | 0 <= i < |a + b|
      ensures PageSteps(a + b)[i] == (PageSteps(a) + PageSteps(b))[i]
    {
      if i < |a| {
        assert (a + b)[i] == a[i];
      } else {
        assert (a + b)[i] == b[i - |a|];
      }
    }
  }

  /** The paragraph loop over a concatenation runs the iterations of each part in turn. */
  lemma ParagraphStepsAppend(a: seq<Paragraph>, b: seq<Paragraph>)
    ensures ParagraphSteps(a + b) == ParagraphSteps(a) + ParagraphSteps(b)
  {
    forall i | 0 <= i < |a + b|
      ensures ParagraphSteps(a + b)[i] == (ParagraphSteps(a) + ParagraphSteps(b))[i]
    {
      if i < |a| {
        assert (a + b)[i] == a[i];
      } else {
        assert (a + b)[i] == b[i - |a|];
      }
    }
  }

  /** The text accumulated by a loop of steps whose exception is swallowed: the pieces, in
      order, up to the first step that raises. */
  function Gathered(steps: seq<Step>): string {
    if steps == [] then ""
    else match steps[0]
      case Raise => ""
      case Piece(t) => t + Gathered(steps[1..])
  }

  predicate NoRaise(steps: seq<Step>) {
    forall i :: 0 <= i < |steps| ==> steps[i].Piece?
  }

  /** The text of the PDF branch; an exception while opening the file gives "". The text
      starts with the first page's text. */
  function PdfText(document: Opened<Page>): (text: string)
    ensures document.Opened? && document.items != [] && document.items[0].Page? ==>
      document.items[0].text.GetOr("") <= text
  {
    match document
    case OpenFails => ""
    case Opened(pages) =>
      var steps := PageSteps(pages);
      if pages != [] && pages[0].Page? then
        assert steps[0] == Piece(pages[0].text.GetOr(""));
        Gathered(steps)
      else Gathered(steps)
  }

  /** Every piece of `steps` ends with a newline. */
  predicate PiecesEndInNewline(steps: seq<Step>) {
    forall i :: 0 <= i < |steps| && steps[i].Piece? ==>
      steps[i].text != [] && steps[i].text[|steps[i].text| - 1] == '\n'
  }

  /** Pieces that each end with a newline gather into text that is empty or ends with one. */
  lemma {:induction false} GatheredEndsInNewline(steps: seq<Step>)
    requires PiecesEndInNewline(steps)
    ensures var text := Gathered(steps); text == [] || text[|text| - 1] == '\n'
    decreases |steps|
  {
    if steps != [] && steps[0].Piece? {
      var t := steps[0].text;
      assert PiecesEndInNewline(steps[1..]) by {
        forall i | 0 <= i < |steps[1..]| && steps[1..][i].Piece?
          ensures steps[1..][i].text != [] && steps[1..][i].text[|steps[1..][i].text| - 1] == '\n'
        {
          assert steps[1..][i] == steps[i + 1];
        }
      }
      GatheredEndsInNewline(steps[1..]);
      var rest := Gathered(steps[1..]);
      assert Gathered(steps) == t + rest;
      if rest != [] {
        assert (t + rest)[|t + rest| - 1] == rest[|rest| - 1];
      } else {
        assert t + rest == t;
      }
    }
  }

  /** Each paragraph's iteration appends text ending with a newline. */
  lemma ParagraphStepsEndInNewline(paragraphs: seq<Paragraph>)
    ensures PiecesEndInNewline(ParagraphSteps(paragraphs))
  {
    var steps := ParagraphSteps(paragraphs);
    forall i | 0 <= i < |steps| && steps[i].Piece?
      ensures steps[i].text != [] && steps[i].text[|steps[i].text| - 1] == '\n'
    {
      var t := paragraphs[i].text;
      assert steps[i].text == t + "\n";
      assert (t + "\n")[|t|] == '\n';
    }
  }

  /** The text of the Word branch; an exception while opening the file gives "". The text
      starts with the first paragraph's text and a newline, and it is empty or ends with a
      newline. */
  function WordText(document: Opened<Paragraph>): (text: string)
    ensures document.Opened? && document.items != [] && document.items[0].Paragraph? ==>
      document.items[0].text + "\n" <= text
    ensures text == [] || text[|text| - 1] == '\n'
  {
    match document
    case OpenFails => ""
    case Opened(paragraphs) =>
      var steps := ParagraphSteps(paragraphs);
      ParagraphStepsEndInNewline(paragraphs);
      GatheredEndsInNewline(steps);
      if paragraphs != [] && paragraphs[0].Paragraph? then
        assert steps[0] == Piece(paragraphs[0].text + "\n");
        Gathered(steps)
      else Gathered(steps)
  }

  /** The value `extract_text(path)` returns for the stored file: "" for a name of no known
      format, and for a Word file text that is empty or ends with a newline. */
  function DocumentText(path: string, file: StoredFile): (text: string)
    ensures KindOf(path) == Unsupported ==> text == ""
    ensures KindOf(path) == Word ==> text == [] || text[|text| - 1] == '\n'
  {
    match KindOf(path)
    case Pdf => PdfText(file.asPdf)
    case Word => WordText(file.asWord)
    case Unsupported => ""
  }

  /** A step that does not raise contributes its piece before the steps after it. */
  lemma GatheredPiece(steps: seq<Step>, i: nat)
    requires i < |steps| && steps[i].Piece?
    ensures Gathered(steps[i..]) == steps[i].text + Gathered(steps[i + 1..])
  {
    assert steps[i..][0] == steps[i];
    assert steps[i..][1..] == steps[i + 1..];
  }

  /** The loop over a PDF's pages: `text += page.extract_text() or ""` until a page raises. */
  method GatherPages(pages: seq<Page>) returns (text: string)
    ensures text == Gathered(PageSteps(pages))
  {
    text := "";
    ghost var steps := PageSteps(pages);
    var i := 0;
    while i < |pages|
      invariant 0 <= i <= |pages|
      invariant Gathered(steps) == text + Gathered(steps[i..])
    {
      match pages[i]
      case PageFails =>
        break;
      case Page(t) =>
        GatheredPiece(steps, i);
        assert text + (t.GetOr("") + Gathered(steps[i + 1..]))
            == (text + t.GetOr("")) + Gathered(steps[i + 1..]);
        text := text + t.GetOr("");
      i := i + 1;
    }
  }

  /** The loop over a Word file's paragraphs: `text += para.text + "\n"` until one raises. */
  method GatherParagraphs(paragraphs: seq<Paragraph>) returns (text: string)
    ensures text == Gathered(ParagraphSteps(paragraphs))
  {
    text := "";
    ghost var steps := ParagraphSteps(paragraphs);
    var i := 0;
    while i < |paragraphs|
      invariant 0 <= i <= |paragraphs|
      invariant Gathered(steps) == text + Gathered(steps[i..])
    {
      match paragraphs[i]
      case ParagraphFails =>
        break;
      case Paragraph(t) =>
        GatheredPiece(steps, i);
        assert text + ((t + "\n") + Gathered(steps[i + 1..]))
            == (text + (t + "\n")) + Gathered(steps[i + 1..]);
        text := text + (t + "\n");
      i := i + 1;
    }
  }

  /** `extract_text`: the branch chosen by the extension; an exception while opening the file
      is swallowed and "" is returned. */
  method ExtractText(path: string, file: StoredFile) returns (text: string)
    ensures text == DocumentText(path, file)
  {
    text := "";
    var kind := KindOf(path);
    if kind == Pdf {
      if file.asPdf.Opened? {
        text := GatherPages(file.asPdf.items);
      }
    } else if kind == Word {
      if file.asWord.Opened? {
        text := GatherParagraphs(file.asWord.items);
      }
    }
  }

  /** Steps that do not raise contribute their pieces in order, followed by the rest. */
  lemma {:induction false} GatheredAppend(a: seq<Step>, b: seq<Step>)
    requires NoRaise(a)
    ensures Gathered(a + b) == Gathered(a) + Gathered(b)
    decreases |a|
  {
    if a == [] {
      assert a + b == b;
    } else {
      var t := a[0].text;
      assert (a + b)[0] == a[0] && a[0] == Piece(t);
      assert (a + b)[1..] == a[1..] + b;
      assert NoRaise(a[1..]) by {
        forall i | 0 <= i < |a[1..]| ensures a[1..][i].Piece? {
          assert a[1..][i] == a[i + 1];
        }
      }
      GatheredAppend(a[1..], b);
      assert Gathered(a + b) == t + (Gathered(a[1..]) + Gathered(b));
      assert Gathered(a) == t + Gathered(a[1..]);
      assert t + (Gathered(a[1..]) + Gathered(b)) == (t + Gathered(a[1..])) + Gathered(b);
    }
  }

  /** Everything after the first exception is lost; everything before it is kept. */
  lemma GatheredStopsAtRaise(a: seq<Step>, b: seq<Step>)
    requires NoRaise(a)
    ensures Gathered(a + [Raise] + b) == Gathered(a)
  {
    assert a + [Raise] + b == a + ([Raise] + b);
    GatheredAppend(a, [Raise] + b);
  }

  /** A step that appends "" changes nothing, wherever it stands. */
  lemma {:induction false} GatheredSkipsEmptyPiece(a: seq<Step>, b: seq<Step>)
    ensures Gathered(a + [Piece("")] + b) == Gathered(a + b)
    decreases |a|
  {
    if a == [] {
      assert a + [Piece("")] + b == [Piece("")] + b && a + b == b;
      assert ([Piece("")] + b)[1..] == b;
    } else {
      assert (a + [Piece("")] + b)[1..] == a[1..] + [Piece("")] + b;
      assert (a + b)[1..] == a[1..] + b;
      GatheredSkipsEmptyPiece(a[1..], b);
    }
  }

  /** A step that appends `t` adds `t` after the text of the steps before it, when none of
      them raises, and before the text of the steps after it. */
  lemma GatheredPieceInMiddle(a: seq<Step>, t: string, b: seq<Step>)
    requires NoRaise(a)
    ensures Gathered(a + [Piece(t)] + b) == Gathered(a) + t + Gathered(b)
  {
    assert a + [Piece(t)] + b == a + ([Piece(t)] + b);
    GatheredAppend(a, [Piece(t)] + b);
    assert ([Piece(t)] + b)[1..] == b;
  }

  /** A PDF's text is its pages' texts in page order: splitting the pages where none of the
      first part raises splits the text the same way. */
  lemma PdfPagesInOrder(a: seq<Page>, b: seq<Page>)
    requires forall i :: 0 <= i < |a| ==> a[i].Page?
    ensures PdfText(Opened(a + b)) == PdfText(Opened(a)) + PdfText(Opened(b))
  {
    PageStepsAppend(a, b);
    GatheredAppend(PageSteps(a), PageSteps(b));
  }

  /** A page whose `extract_text()` gives `None` contributes "". */
  lemma PdfTextlessPageContributesNothing(a: seq<Page>, b: seq<Page>)
    ensures PdfText(Opened(a + [Page(None)] + b)) == PdfText(Opened(a + b))
  {
    PageStepsAppend(a, [Page(None)]);
    PageStepsAppend(a + [Page(None)], b);
    PageStepsAppend(a, b);
    assert PageSteps([Page(None)]) == [Piece("")];
    GatheredSkipsEmptyPiece(PageSteps(a), PageSteps(b));
  }

  /** An exception on a page is swallowed: the text of the pages before it is returned,
      which need not be empty. */
  lemma PdfFailureKeepsEarlierPages(a: seq<Page>, b: seq<Page>)
    requires forall i :: 0 <= i < |a| ==> a[i].Page?
    ensures PdfText(Opened(a + [PageFails] + b)) == PdfText(Opened(a))
  {
    PageStepsAppend(a, [PageFails]);
    PageStepsAppend(a + [PageFails], b);
    assert PageSteps([PageFails]) == [Raise];
    assert NoRaise(PageSteps(a));
    GatheredStopsAtRaise(PageSteps(a), PageSteps(b));
  }

  /** A Word file's text is each paragraph's text followed by a newline, in paragraph order,
      up to the first paragraph that raises. */
  lemma WordParagraphsInOrder(a: seq<Paragraph>, t: string, b: seq<Paragraph>)
    requires forall i :: 0 <= i < |a| ==> a[i].Paragraph?
    ensures WordText(Opened(a + [Paragraph(t)] + b))
         == WordText(Opened(a)) + (t + "\n") + WordText(Opened(b))
  {
    ParagraphStepsAppend(a, [Paragraph(t)]);
    ParagraphStepsAppend(a + [Paragraph(t)], b);
    assert ParagraphSteps([Paragraph(t)]) == [Piece(t + "\n")];
    assert NoRaise(ParagraphSteps(a));
    GatheredPieceInMiddle(ParagraphSteps(a), t + "\n", ParagraphSteps(b));
  }

  /** An exception on a paragraph is swallowed: the text of the paragraphs before it is
      returned, which need not be empty. */
  lemma WordFailureKeepsEarlierParagraphs(a: seq<Paragraph>, b: seq<Paragraph>)
    requires forall i :: 0 <= i < |a| ==> a[i].Paragraph?
    ensures WordText(Opened(a + [ParagraphFails] + b)) == WordText(Opened(a))
  {
    ParagraphStepsAppend(a, [ParagraphFails]);
    ParagraphStepsAppend(a + [ParagraphFails], b);
    assert ParagraphSteps([ParagraphFails]) == [Raise];
    assert NoRaise(ParagraphSteps(a));
    GatheredStopsAtRaise(ParagraphSteps(a), ParagraphSteps(b));
  }

  /** An exception while opening the file is swallowed: a file that neither library can
      open gives "", whatever its name. */
  lemma OpenFailureGivesEmptyText(path: string)
    ensures DocumentText(path, StoredFile(OpenFails, OpenFails)) == ""
  {
    match KindOf(path)
    case Pdf => assert PdfText(OpenFails) == "";
    case Word => assert WordText(OpenFails) == "";
    case Unsupported =>
  }

  /** A Word file of one empty paragraph has the text "\n": not empty, yet blank. */
  lemma BlankWordFileIsNotEmpty()
    ensures WordText(Opened([Paragraph("")])) == "\n"
    ensures IsBlank("\n")
  {
    var steps := ParagraphSteps([Paragraph("")]);
    assert steps[0] == Piece("" + "\n") && |steps| == 1;
    assert "" + "\n" == "\n" && steps[1..] == [];
    assert Gathered(steps) == "\n" + Gathered([]);
  }
}
