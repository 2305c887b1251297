/** PDF export of a document (`Document.createPDF`) and the single-page image
    export (`createPageImage`), with the platform as oracles: `render` stands for
    `UIImage(data:)` followed by `PDFPage(image:)`, `write` for
    `PDFDocument.write(to:)`, and `decode` for `UIImage(data:)` alone. */
module PdfExport {
  import opened Wrappers
  import opened Documents
  import PageSeq

  /** A file in the temporary directory. */
  datatype Url = TemporaryFile(fileName: string)

  /** One call of a `createPDF` callback, in call order. */
  datatype Signal = UpdateLoading(status: bool) | OnFinish(url: Option<Url>)

  /** The file the PDF is written to: the document name plus the extension. */
  function PdfUrl(documentName: string): (u: Url)
    ensures |u.fileName| == |documentName| + 4
    ensures u.fileName[..|documentName|] == documentName && u.fileName[|documentName|..] == ".pdf"
  {
    TemporaryFile(documentName + ".pdf")
  }

  /** The pages that render, in document order (the reference for the loop). */
  function Rendered<P>(pages: seq<PageData>, render: PageData -> Option<P>): (r: seq<P>)
    ensures |r| <= |pages|
  {
    if |pages| == 0 then []
    else
      var last := pages[|pages| - 1];
      Rendered(pages[..|pages| - 1], render) + (if render(last).Some? then [render(last).value] else [])
  }

  /** Rendering distributes over concatenation: the relative order of pages is kept. */
  lemma {:induction false} RenderedAppend<P>(a: seq<PageData>, b: seq<PageData>, render: PageData -> Option<P>)
    ensures Rendered(a + b, render) == Rendered(a, render) + Rendered(b, render)
  {
    if |b| > 0 {
      var b' := b[..|b| - 1];
      assert (a + b)[..|a + b| - 1] == a + b';
      RenderedAppend(a, b', render);
    } else {
      assert a + b == a;
    }
  }

  /** When every page renders, the PDF holds one page per document page, at
      the same index. */
  lemma {:induction false} RenderedAll<P>(pages: seq<PageData>, render: PageData -> Option<P>)
    requires forall k :: 0 <= k < |pages| ==> render(pages[k]).Some?
    ensures |Rendered(pages, render)| == |pages|
    ensures forall k :: 0 <= k < |pages| ==> Rendered(pages, render)[k] == render(pages[k]).value
  {
    if |pages| > 0 {
      RenderedAll(pages[..|pages| - 1], render);
    }
  }

  /** A page that does not render is skipped and the export carries on:
      the result is what the other pages give. */
  lemma SkipUnrenderable<P>(pages: seq<PageData>, k: nat, render: PageData -> Option<P>)
    requires k < |pages| && render(pages[k]).None?
    ensures Rendered(pages, render) == Rendered(pages[..k], render) + Rendered(pages[k + 1..], render)
  {
    var before, page, after := pages[..k], [pages[k]], pages[k + 1..];
    assert pages == (before + page) + after;
    RenderedAppend(before + page, after, render);
    RenderedAppend(before, page, render);
    RenderedSkipped(pages[k], render);
    calc {
      Rendered(pages, render);
      Rendered(before + page, render) + Rendered(after, render);
      (Rendered(before, render) + Rendered(page, render)) + Rendered(after, render);
      { assert Rendered(before, render) + Rendered(page, render) == Rendered(before, render); }
      Rendered(before, render) + Rendered(after, render);
    }
  }

  lemma RenderedSkipped<P>(page: PageData, render: PageData -> Option<P>)
    requires render(page).None?
    ensures Rendered([page], render) == []
  {
  }

  /** What PDFKit does when asked to insert a page past the end of the
      document; the platform does not say, so it is an oracle. */
  type PastEnd<!P> = (seq<P>, P, nat) -> seq<P>

  /** The past-end behaviour adds at most the one page it was given. */
  ghost predicate AddsAtMostOnePage<P(!new)>(pastEnd: PastEnd<P>) {
    forall pdf, page, index :: |pastEnd(pdf, page, index)| <= |pdf| + 1
  }

  /** The past-end behaviour appends the page. */
  ghost predicate Appends<P(!new)>(pastEnd: PastEnd<P>) {
    forall pdf, page, index :: pastEnd(pdf, page, index) == pdf + [page]
  }

  /** `pdfDocument.insert(pdfPage, at: index)`: an ordinary insertion for an
      index up to the page count, the oracle beyond it. */
  function PdfInsert<P>(pdf: seq<P>, page: P, index: nat, pastEnd: PastEnd<P>): (r: seq<P>)
    ensures index <= |pdf| ==> |r| == |pdf| + 1 && r[index] == page && PageSeq.RemoveAt(r, index) == pdf
    ensures index > |pdf| ==> r == pastEnd(pdf, page, index)
  {
    if index <= |pdf| then
      PageSeq.RemoveInsert(pdf, index, page);
      PageSeq.InsertAt(pdf, index, page)
    else pastEnd(pdf, page, index)
  }

  /** The PDF the loop of `createPDF` builds, as written: every page that
      renders is inserted at its index in the document. */
  function BuildPdf<P>(pages: seq<PageData>, render: PageData -> Option<P>, pastEnd: PastEnd<P>): seq<P> {
    if |pages| == 0 then []
    else
      var pdf := BuildPdf(pages[..|pages| - 1], render, pastEnd);
      match render(pages[|pages| - 1])
      case Some(pdfPage) => PdfInsert(pdf, pdfPage, |pages| - 1, pastEnd)
      case None => pdf
  }

  /** When every page renders, every insertion lands at the end and the PDF
      is the pages in document order, whatever PDFKit does past the end. */
  lemma {:induction false} BuildPdfAllRendered<P>(pages: seq<PageData>, render: PageData -> Option<P>, pastEnd: PastEnd<P>)
    requires forall k :: 0 <= k < |pages| ==> render(pages[k]).Some?
    ensures BuildPdf(pages, render, pastEnd) == Rendered(pages, render)
  {
    if |pages| > 0 {
      var prefix := pages[..|pages| - 1];
      BuildPdfAllRendered(prefix, render, pastEnd);
      RenderedAll(prefix, render);
      var pdf := Rendered(prefix, render);
      assert PageSeq.InsertAt(pdf, |pdf|, render(pages[|pages| - 1]).value) == pdf + [render(pages[|pages| - 1]).value];
    }
  }

  /** Only if PDFKit appended past-end pages would the export as written skip
      unrenderable pages and keep the others in document order. */
  lemma {:induction false} BuildPdfAppendingIsRendered<P(!new)>(pages: seq<PageData>, render: PageData -> Option<P>, pastEnd: PastEnd<P>)
    requires Appends(pastEnd)
    ensures BuildPdf(pages, render, pastEnd) == Rendered(pages, render)
  {
    if |pages| > 0 {
      var prefix := pages[..|pages| - 1];
      BuildPdfAppendingIsRendered(prefix, render, pastEnd);
      var pdf := Rendered(prefix, render);
      var last := pages[|pages| - 1];
      if render(last).Some? {
        assert PdfInsert(pdf, render(last).value, |pages| - 1, pastEnd) == pdf + [render(last).value];
      }
    }
  }

  /** Each rendered page is handed to `insert` at an index at or past the
      page count of the PDF built so far, and exactly at the count when no
      earlier page was skipped: after the first skipped page every further
      insertion is past the end. */
  lemma {:induction false} InsertIndexAtOrPastEnd<P(!new)>(pages: seq<PageData>, index: nat, render: PageData -> Option<P>, pastEnd: PastEnd<P>)
    requires index <= |pages|
    requires AddsAtMostOnePage(pastEnd)
    ensures |BuildPdf(pages[..index], render, pastEnd)| <= index
    ensures |BuildPdf(pages[..index], render, pastEnd)| == index <==> forall k :: 0 <= k < index ==> render(pages[k]).Some?
  {
    if index > 0 {
      assert pages[..index][..index - 1] == pages[..index - 1];
      assert pages[..index][index - 1] == pages[index - 1];
      InsertIndexAtOrPastEnd(pages, index - 1, render, pastEnd);
    }
  }

  /** A first page that does not render hands the second page to PDFKit past
      the end of an empty PDF, so the result is whatever PDFKit does there
      (with a PDFKit that ignores such insertions, the PDF is empty). */
  lemma SkippedPageInsertsPastEnd<P>(first: PageData, second: PageData, render: PageData -> Option<P>, pastEnd: PastEnd<P>)
    requires render(first).None? && render(second).Some?
    ensures BuildPdf([first, second], render, pastEnd) == pastEnd([], render(second).value, 1)
    ensures Rendered([first, second], render) == [render(second).value]
  {
    var pages := [first, second];
    assert pages[..1] == [first];
    assert [first][..0] == [];
    assert BuildPdf([first], render, pastEnd) == [];
    assert pages[|pages| - 1] == second;
    assert BuildPdf(pages, render, pastEnd) == PdfInsert([], render(second).value, 1, pastEnd);
  }

  /** `createPDF`, as written: visits the pages in index order, inserts each
      page that renders at its source index and skips the others, writes the
      PDF, and reports through the two callbacks. */
  method CreatePdf<P>(document: Document, render: PageData -> Option<P>, pastEnd: PastEnd<P>, write: (seq<P>, Url) -> bool)
    returns (pdf: seq<P>, url: Url, signals: seq<Signal>)
    ensures pdf == BuildPdf(document.scannedImages, render, pastEnd)
    ensures (forall k :: 0 <= k < |document.scannedImages| ==> render(document.scannedImages[k]).Some?) ==>
              |pdf| == |document.scannedImages|
              && forall k :: 0 <= k < |pdf| ==> pdf[k] == render(document.scannedImages[k]).value
    ensures url == PdfUrl(document.documentName)
    ensures |signals| == 3
    ensures signals[0] == UpdateLoading(true) && signals[2] == UpdateLoading(false)
    ensures signals[1] == OnFinish(if write(pdf, url) then Some(url) else None)
    ensures signals == ExportSignals(write(pdf, url), url)
  {
    var pages := document.scannedImages;
    pdf := [];
    for index := 0 to |pages|
      invariant pdf == BuildPdf(pages[..index], render, pastEnd)
    {
      assert pages[..index + 1][..index] == pages[..index];
      match render(pages[index]) {
        case Some(pdfPage) =>
          pdf := PdfInsert(pdf, pdfPage, index, pastEnd);
        case None =>
      }
    }
    assert pages[..|pages|] == pages;
    if forall k :: 0 <= k < |pages| ==> render(pages[k]).Some? {
      BuildPdfAllRendered(pages, render, pastEnd);
      RenderedAll(pages, render);
    }
    url := PdfUrl(document.documentName);
    signals := ReportWrite(pdf, url, write);
  }

  /** `createPDF` inserting each page at the PDF's current page count: the
      PDF holds exactly the pages that render, in document order. */
  method CreatePdfIntended<P>(document: Document, render: PageData -> Option<P>, write: (seq<P>, Url) -> bool)
    returns (pdf: seq<P>, url: Url, signals: seq<Signal>)
    ensures pdf == Rendered(document.scannedImages, render)
    ensures url == PdfUrl(document.documentName)
    ensures signals == ExportSignals(write(pdf, url), url)
  {
    var pages := document.scannedImages;
    pdf := [];
    for index := 0 to |pages|
      invariant pdf == Rendered(pages[..index], render)
    {
      assert pages[..index + 1][..index] == pages[..index];
      match render(pages[index]) {
        case Some(pdfPage) =>
          pdf := PageSeq.InsertAt(pdf, |pdf|, pdfPage);
        case None =>
      }
    }
    assert pages[..|pages|] == pages;
    url := PdfUrl(document.documentName);
    signals := ReportWrite(pdf, url, write);
  }

  /** The trace of callbacks `createPDF` produces for a write outcome. */
  function ExportSignals(written: bool, url: Url): seq<Signal> {
    [UpdateLoading(true), OnFinish(if written then Some(url) else None), UpdateLoading(false)]
  }

  /** The callbacks around the write: loading on, one `onFinish` carrying
      the URL only if the write succeeded, loading off. */
  method ReportWrite<P>(pdf: seq<P>, url: Url, write: (seq<P>, Url) -> bool) returns (signals: seq<Signal>)
    ensures |signals| == 3
    ensures signals[0] == UpdateLoading(true) && signals[2] == UpdateLoading(false)
    ensures signals[1] == OnFinish(if write(pdf, url) then Some(url) else None)
    ensures signals == ExportSignals(write(pdf, url), url)
  {
    signals := [UpdateLoading(true)];
    if write(pdf, url) {
      signals := signals + [OnFinish(Some(url))];
    } else {
      signals := signals + [OnFinish(None)];
    }
    signals := signals + [UpdateLoading(false)];
  }

  /** What the preview screens hand to the share sheet. */
  datatype ExportItem = PdfFile(url: Url) | PageImage(page: PageData)

  /** The export-related state of a preview screen. */
  datatype ExportView = ExportView(
    isSaving: bool,
    presentShareSheet: bool,
    exportItem: Option<ExportItem>,
    alertMessage: string,
    showAlert: bool)

  const SavePdfProblem := "Problem in Saving PDF Document"
  const PageImageProblem := "Problem in creating Page Image"

  /** The screen's reaction to one callback of `createPDF`. */
  function ApplySignal(v: ExportView, s: Signal): ExportView {
    match s
    case UpdateLoading(status) => v.(isSaving := status)
    case OnFinish(Some(url)) => v.(exportItem := Some(PdfFile(url)), presentShareSheet := !v.presentShareSheet)
    case OnFinish(None) => v.(alertMessage := SavePdfProblem, showAlert := !v.showAlert)
  }

  function ApplySignals(v: ExportView, signals: seq<Signal>): ExportView
    decreases |signals|
  {
    if |signals| == 0 then v else ApplySignals(ApplySignal(v, signals[0]), signals[1..])
  }

  /** After an export the loader is gone, and exactly one of the share sheet
      (with the PDF's file) or the saving-problem alert has been raised. */
  lemma ExportOutcome(v: ExportView, written: bool, url: Url)
    requires !v.presentShareSheet && !v.showAlert
    ensures !ApplySignals(v, ExportSignals(written, url)).isSaving
    ensures written ==> ApplySignals(v, ExportSignals(written, url)) == v.(isSaving := false, exportItem := Some(PdfFile(url)), presentShareSheet := true)
    ensures !written ==> ApplySignals(v, ExportSignals(written, url)) == v.(isSaving := false, alertMessage := SavePdfProblem, showAlert := true)
  {
    var s := ExportSignals(written, url);
    var v1 := ApplySignal(v, s[0]);
    var v2 := ApplySignal(v1, s[1]);
    var v3 := ApplySignal(v2, s[2]);
    assert s[1..][0] == s[1] && s[1..][1..][0] == s[2] && s[1..][1..][1..] == [];
    calc {
      ApplySignals(v, s);
      ApplySignals(v1, s[1..]);
      ApplySignals(v2, s[1..][1..]);
      ApplySignals(v3, s[1..][1..][1..]);
      v3;
    }
  }

  /** `createPageImage`: a page that decodes is shared as an image; otherwise
      the page-image alert is raised. */
  function CreatePageImage<I>(v: ExportView, page: PageData, decode: PageData -> Option<I>): (r: ExportView)
    ensures r.isSaving == v.isSaving
    ensures decode(page).Some? ==> r == v.(exportItem := Some(PageImage(page)), presentShareSheet := !v.presentShareSheet)
    ensures decode(page).None? ==> r == v.(alertMessage := PageImageProblem, showAlert := !v.showAlert)
  {
    if decode(page).Some? then v.(exportItem := Some(PageImage(page)), presentShareSheet := !v.presentShareSheet)
    else v.(alertMessage := PageImageProblem, showAlert := !v.showAlert)
  }
}
