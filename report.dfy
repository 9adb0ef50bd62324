/** The pagination engine (`generate_pdf_report`): the image paths are drawn
    one under the other on letter pages, a cursor moving down 350 points per
    image, and a new page with the report title is started once the cursor
    has fallen below 100. The PDF canvas is modelled as the list of drawing
    operations of each page. */
module Report {

  /** The letter page size, in points. */
  const LetterWidth: int := 612
  const LetterHeight: int := 792

  const Title: string := "Data Visualization Report"
  const TitleFont: string := "Helvetica-Bold"
  const TitleSize: int := 18

  datatype DrawOp =
    | SetFont(font: string, size: int)
    | DrawString(x: int, y: int, text: string)
    | DrawImage(path: string, x: int, y: int, width: int, height: int)

  /** A PDF canvas: the pages closed by `showPage`, the operations of the
      page being drawn, and whether the document has been saved. */
  class Canvas {
    const filename: string
    const pageWidth: int
    const pageHeight: int
    var pages: seq<seq<DrawOp>>
    var current: seq<DrawOp>
    var saved: bool

    constructor (filename: string, pageWidth: int, pageHeight: int)
      ensures this.filename == filename && this.pageWidth == pageWidth && this.pageHeight == pageHeight
      ensures pages == [] && current == [] && !saved
    {
      this.filename := filename;
      this.pageWidth := pageWidth;
      this.pageHeight := pageHeight;
      pages := [];
      current := [];
      saved := false;
    }

    method SetFont(font: string, size: int)
      modifies this
      ensures pages == old(pages) && saved == old(saved)
      ensures current == old(current) + [DrawOp.SetFont(font, size)]
    {
      current := current + [DrawOp.SetFont(font, size)];
    }

    method DrawString(x: int, y: int, text: string)
      modifies this
      ensures pages == old(pages) && saved == old(saved)
      ensures current == old(current) + [DrawOp.DrawString(x, y, text)]
    {
      current := current + [DrawOp.DrawString(x, y, text)];
    }

    method DrawImage(path: string, x: int, y: int, width: int, height: int)
      modifies this
      ensures pages == old(pages) && saved == old(saved)
      ensures current == old(current) + [DrawOp.DrawImage(path, x, y, width, height)]
    {
      current := current + [DrawOp.DrawImage(path, x, y, width, height)];
    }

    /** Ends the current page; later operations go to a new one. */
    method ShowPage()
      modifies this
      ensures pages == old(pages) + [old(current)] && current == [] && saved == old(saved)
    {
      pages := pages + [current];
      current := [];
    }

    /** Writes the document: a page that holds operations is closed first. */
    method Save()
      modifies this
      ensures pages == old(pages) + (if old(current) == [] then [] else [old(current)])
      ensures current == [] && saved
    {
      if current != [] {
        pages := pages + [current];
        current := [];
      }
      saved := true;
    }
  }

  /** The title that heads every page. */
  function HeaderOps(): seq<DrawOp>
  {
    [DrawOp.SetFont(TitleFont, TitleSize), DrawOp.DrawString(100, LetterHeight - 100, Title)]
  }

  /** The image drawn at cursor height y. */
  function Image(path: string, y: int): DrawOp
  {
    DrawOp.DrawImage(path, 100, y, 400, 300)
  }

  /** Page p of the report: the title, then the images 2p and 2p+1 where they
      exist, at the top and bottom slots. */
  function PageAt(paths: seq<string>, p: nat): seq<DrawOp>
  {
    HeaderOps()
    + (if 2 * p < |paths| then [Image(paths[2 * p], LetterHeight - 150)] else [])
    + (if 2 * p + 1 < |paths| then [Image(paths[2 * p + 1], LetterHeight - 150 - 350)] else [])
  }

  /** The document: two images to a page and one more page after the last
      full one, so an even number of images ends on a title-only page. */
  function ReportPages(paths: seq<string>): seq<seq<DrawOp>>
  {
    seq(|paths| / 2 + 1, p requires 0 <= p <= |paths| / 2 => PageAt(paths, p))
  }

  /** `generate_pdf_report`. */
  method GeneratePdfReport(plotPaths: seq<string>, outputFilename: string) returns (c: Canvas)
    ensures fresh(c) && c.filename == outputFilename && c.saved
    ensures c.pageWidth == LetterWidth && c.pageHeight == LetterHeight && c.current == []
    ensures c.pages == ReportPages(plotPaths)
  {
    c := new Canvas(outputFilename, LetterWidth, LetterHeight);
    var width, height := c.pageWidth, c.pageHeight;

    c.SetFont(TitleFont, TitleSize);
    c.DrawString(100, height - 100, Title);

    var yPosition := height - 150;

    for n := 0 to |plotPaths|
      invariant c.filename == outputFilename && !c.saved
      invariant yPosition == if n % 2 == 0 then 642 else 292
      invariant c.pages == ReportPages(plotPaths)[..n / 2]
      invariant c.current == HeaderOps() + (if n % 2 == 1 then [Image(plotPaths[n - 1], 642)] else [])
    {
      c.DrawImage(plotPaths[n], 100, yPosition, 400, 300);
      yPosition := yPosition - 350;

      if yPosition < 100 {
        assert c.current == PageAt(plotPaths, n / 2);
        c.ShowPage();
        c.SetFont(TitleFont, TitleSize);
        c.DrawString(100, height - 100, Title);
        yPosition := height - 150;
        assert ReportPages(plotPaths)[..(n + 1) / 2] == ReportPages(plotPaths)[..n / 2] + [PageAt(plotPaths, n / 2)];
      }
    }

    assert c.current == PageAt(plotPaths, |plotPaths| / 2);
    c.Save();
    assert ReportPages(plotPaths) == ReportPages(plotPaths)[..|plotPaths| / 2] + [PageAt(plotPaths, |plotPaths| / 2)];
  }

  // ---------------------------------------------------------------------------
  // What the document looks like

  /** The paths of the images a page draws, in drawing order. */
  function ImagePaths(ops: seq<DrawOp>): seq<string>
  {
    if ops == [] then []
    else (if ops[0].DrawImage? then [ops[0].path] else []) + ImagePaths(ops[1..])
  }

  /** The paths of the images the document draws, page after page. */
  function DocumentImages(pages: seq<seq<DrawOp>>): seq<string>
  {
    if pages == [] then [] else DocumentImages(pages[..|pages| - 1]) + ImagePaths(pages[|pages| - 1])
  }

  lemma {:induction false} ImagePathsAppend(a: seq<DrawOp>, b: seq<DrawOp>)
    ensures ImagePaths(a + b) == ImagePaths(a) + ImagePaths(b)
  {
    if a != [] {
      assert (a + b)[1..] == a[1..] + b;
      ImagePathsAppend(a[1..], b);
    } else {
      assert a + b == b;
    }
  }

  /** Page p shows the images 2p and 2p+1 of the input, those that exist. */
  lemma PageImages(paths: seq<string>, p: nat)
    requires 2 * p <= |paths|
    ensures ImagePaths(PageAt(paths, p)) == paths[2 * p .. if 2 * p + 2 <= |paths| then 2 * p + 2 else |paths|]
  {
    var top: seq<DrawOp> := if 2 * p < |paths| then [Image(paths[2 * p], 642)] else [];
    var bottom: seq<DrawOp> := if 2 * p + 1 < |paths| then [Image(paths[2 * p + 1], 292)] else [];
    ImagePathsAppend(HeaderOps() + top, bottom);
    ImagePathsAppend(HeaderOps(), top);
    assert ImagePaths(HeaderOps()) == [] by {
      assert HeaderOps()[1..][1..] == [];
    }
    if top != [] { assert top[1..] == []; }
    if bottom != [] { assert bottom[1..] == []; }
  }

  lemma {:induction false} DocumentImagesPrefix(paths: seq<string>, q: nat)
    requires q <= |paths| / 2 + 1
    ensures DocumentImages(ReportPages(paths)[..q]) == paths[..if 2 * q <= |paths| then 2 * q else |paths|]
  {
    if q > 0 {
      var pages := ReportPages(paths)[..q];
      assert pages[..q - 1] == ReportPages(paths)[..q - 1];
      DocumentImagesPrefix(paths, q - 1);
      PageImages(paths, q - 1);
      var lo := 2 * (q - 1);
      var hi := if 2 * q <= |paths| then 2 * q else |paths|;
      assert paths[..lo] + paths[lo..hi] == paths[..hi];
    }
  }

  /** Every input path is drawn exactly once, in input order. */
  lemma DocumentImagesInOrder(paths: seq<string>)
    ensures DocumentImages(ReportPages(paths)) == paths
  {
    DocumentImagesPrefix(paths, |paths| / 2 + 1);
    assert ReportPages(paths)[..|paths| / 2 + 1] == ReportPages(paths);
    assert paths[..|paths|] == paths;
  }

  /** Image i is on page i/2, right after the title, at the top slot (y = 642)
      when i is even and at the bottom slot (y = 292) when i is odd, always
      at x = 100 and 400 by 300 points. */
  lemma ImagePlacement(paths: seq<string>, i: nat)
    requires i < |paths|
    ensures i / 2 < |ReportPages(paths)|
    ensures var page := ReportPages(paths)[i / 2];
            2 + i % 2 < |page| && page[2 + i % 2] == DrawOp.DrawImage(paths[i], 100, 642 - 350 * (i % 2), 400, 300)
  {
  }

  /** Every page opens with the title at (100, 692) and holds at most two
      images; all pages but the last hold exactly two; the last one holds
      only the title exactly when the number of images is even. */
  lemma PageStructure(paths: seq<string>)
    ensures |ReportPages(paths)| == |paths| / 2 + 1
    ensures HeaderOps()[1] == DrawOp.DrawString(100, 692, Title)
    ensures forall p :: 0 <= p < |ReportPages(paths)| ==>
              |ReportPages(paths)[p]| >= 2 && ReportPages(paths)[p][..2] == HeaderOps()
              && |ImagePaths(ReportPages(paths)[p])| <= 2
    ensures forall p :: 0 <= p < |ReportPages(paths)| - 1 ==> |ImagePaths(ReportPages(paths)[p])| == 2
    ensures ReportPages(paths)[|paths| / 2] == HeaderOps() <==> |paths| % 2 == 0
  {
    forall p | 0 <= p < |ReportPages(paths)|
      ensures |ReportPages(paths)[p]| >= 2 && ReportPages(paths)[p][..2] == HeaderOps()
      ensures |ImagePaths(ReportPages(paths)[p])| <= 2
      ensures p < |ReportPages(paths)| - 1 ==> |ImagePaths(ReportPages(paths)[p])| == 2
    {
      PageImages(paths, p);
    }
  }

  /** No image is drawn below the bottom margin of 100 points: each sits at
      x = 100, 400 by 300 points, at y = 642 or y = 292. */
  lemma ImagesWithinMargins(paths: seq<string>)
    ensures forall p, op :: 0 <= p < |ReportPages(paths)| && op in ReportPages(paths)[p] && op.DrawImage? ==>
              op.x == 100 && op.width == 400 && op.height == 300
              && (op.y == 642 || op.y == 292) && op.y >= 100
  {
  }

  /** Two images fill the first page, and the page break that follows them
      leaves a second page holding only the title. */
  lemma TwoImagesMakeTwoPages(a: string, b: string)
    ensures ReportPages([a, b]) == [HeaderOps() + [Image(a, 642), Image(b, 292)], HeaderOps()]
  {
    assert PageAt([a, b], 0) == HeaderOps() + [Image(a, 642), Image(b, 292)];
    assert PageAt([a, b], 1) == HeaderOps();
  }
}
