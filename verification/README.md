# DocScanner core in Dafny

A model of the logic that DocScanner, an iOS document-scanning app, keeps for
itself on top of the platform frameworks:

- **Page sequences** (`PageSeq`, `Preview`, `Slider`): the drag-to-reorder step
  that moves a page within a working copy of the document's pages, the commit of
  that copy when the drop ends, appending the pages of a further scan session,
  deleting the current page in the page viewer with its scroll-position repair,
  the page tags and the "Page n" title.
- **The document list** (`Library`): the newest-first order of the stored
  documents and creating a "New Document" from a finished scan.
- **The app lock** (`Gate`): `AppLock`'s `isUnlocked` / `isAvailable` flags, the
  persisted `isLockedEnabled` preference, the scene-phase handler, `askPermission`,
  the lock button and the overlay that covers the root view while it is locked.
- **Export** (`PdfExport`): `createPDF` (pages visited in order, each inserted at
  its own index in the document, the loading callback bracketing the one `onFinish`
  call) and the single-page image export. When every page renders, the PDF holds the
  pages in document order; when a page does not render, later pages are inserted
  past the end of the PDF (see "## Findings").

Platform effects are inputs. The JPEG encoder is a sequence holding its answer for
each scanned page (`Scan`). `UIImage(data:)` followed by `PDFPage(image:)` is the
function parameter `render`. `PDFDocument.write(to:)` is the parameter `write`.
The biometric check is a `Biometrics` value: whether the policy can be evaluated
and the verdict of an evaluation. The creation `Date` is an integer timestamp
passed in as `now`. A `Document` is an immutable record whose constructor stores name, creation date and pages verbatim, as `init` does, so `createPDF` cannot
change its name or pages, and `checkForPermission` takes no lock, so it cannot
change one.

The overlay (`Gate.OverlayShown`) is shown exactly when `isLockedEnabled` holds and
the lock is not unlocked. The notice inside it (`Gate.NoticeShown`) additionally
needs `isAvailable` to be false. The "Start Scanning" hint (`Preview.ShowsStartHint`)
is shown exactly when the document has no pages. These three are plain predicates
and have no rows of their own. The lemmas listed below use them.

Some further definitions carry no contract of their own; the lemmas in the table
state their properties:

- `PdfExport.BuildPdf` is the as-written page loop of `createPDF`
  (Document.swift:33-38). `BuildPdfAllRendered`, `BuildPdfAppendingIsRendered`,
  `InsertIndexAtOrPastEnd` and `SkippedPageInsertsPastEnd` are about it, and
  `CreatePdf` computes it.
- `PdfExport.Rendered` is the reference export: the renderable pages in order.
- `PdfExport.ApplySignal` and `ApplySignals` are the `createPDF` closures of the
  grid screen (DocumentPreviewView.swift:172-182). `ExportOutcome` is about them.
- `PdfExport.ExportSignals` is the callback trace of `createPDF`
  (Document.swift:27, 44-50): `updateLoading(true)`, one `onFinish`, then
  `updateLoading(false)`. `ReportWrite`, `CreatePdf` and `ExportOutcome` are about it.
- `Gate.CheckForPermission` is `checkForPermission` (AppLock.swift:33-36): whether
  the biometric policy can be evaluated.
- `Gate.Step` and `Gate.Run` apply one interaction, or a sequence of them, to the
  app state. The overlay takes the lock button's taps while it is shown.
  `OverlayTapAsksPermission`, `AvailabilityNeverRestored` and `NoticePersists`
  are about them.

Two facts about the code shape the model:

- `askPermission` (ContentView.swift:54-58) does nothing once `isAvailable` is
  false, so tapping the notice never re-authenticates. `Gate.NoticePersists`
  proves the notice stays up until the app is relaunched.
- The `remove(at:)` and `insert(_:at:)` indices of the reorder and delete paths
  come from `firstIndex(of:)` or are guarded by `indices.contains`, so neither path
  is given an out-of-range index and an invalid position leaves everything
  unchanged. The exception is the PDF insertion index in `createPDF`, which is not
  checked against the PDF's page count (see "## Findings").

The overlay sits on the root view (ContentView.swift:24-41) and covers it,
including the list screen's lock button. The model therefore lets the lock button
act only while the overlay is not shown (`Gate.Step`). Screens presented modally
from inside the root view are drawn above the overlay (see "## Left out").

## Model

| member | source | states |
|---|---|---|
| PageSeq.FirstIndexOf | DocScanner/View/Pages/DocumentPreview/DocumentPreviewView.swift:75-76 | `firstIndex(of:)` returns none exactly when the data is absent; otherwise it returns the earliest position holding it |
| PageSeq.FirstIndexOfIsFirst | DocScanner/View/Pages/DocumentPreview/DocumentPreviewView.swift:75-76 | whenever a position is the earliest occurrence of the data, the lookup returns that position |
| PageSeq.RemoveAt | DocScanner/View/Pages/DocumentPreview/DocumentPreviewSlider.swift:132 | `remove(at:)` shortens the pages by one: earlier pages keep their index and later ones shift down by one |
| PageSeq.RemoveAtMultiset | DocScanner/View/Pages/DocumentPreview/DocumentPreviewSlider.swift:132 | the removal takes exactly the removed page out of the multiset of pages |
| PageSeq.InsertAt | DocScanner/View/Pages/DocumentPreview/DocumentPreviewView.swift:80 | `insert(_:at:)` puts the page at the index: earlier pages stay and later ones shift up by one |
| PageSeq.InsertAtMultiset | DocScanner/View/Pages/DocumentPreview/DocumentPreviewView.swift:80 | the insertion adds exactly the inserted page to the multiset of pages |
| PageSeq.Move | DocScanner/View/Pages/DocumentPreview/DocumentPreviewView.swift:79-80 | remove-then-insert keeps the length and is a permutation; the dragged page lands at the target index; removing it there gives what removing it at the source gave, so the other pages keep their relative order |
| PageSeq.MoveShifts | DocScanner/View/Pages/DocumentPreview/DocumentPreviewView.swift:79-80 | element by element: the moved page lands at the target, the pages strictly between the two positions shift one step towards the source, and all others stay |
| PageSeq.MoveSelf | DocScanner/View/Pages/DocumentPreview/DocumentPreviewView.swift:79-80 | moving a page onto its own position changes nothing |
| PageSeq.MoveBack | DocScanner/View/Pages/DocumentPreview/DocumentPreviewView.swift:79-80 | moving from i to j and then from j back to i restores the original order |
| Decimal.IntToString | DocScanner/View/Pages/DocumentPreview/DocumentPreviewSlider.swift:93 | the `"\(n)"` text of an `Int` is canonical: a leading "-" exactly when the number is negative, then digits with no leading zero unless the number is 0 |
| Decimal.IntRoundTrip | DocScanner/View/Pages/DocumentPreview/DocumentPreviewSlider.swift:93 | the decimal text that `"\(n)"` interpolation produces for an `Int` reads back as the same integer |
| Scan.EncodePages | DocScanner/View/Pages/DocumentPreview/DocumentPreviewView.swift:145-152 | the scan yields no pages exactly when some page fails to encode; otherwise it yields one page per scanned page, in scan order |
| Scan.CollectPages | DocScanner/View/Pages/DocMainView.swift:78-85 | the `for` loop with its early-returning `guard` computes the same outcome as the reference `EncodePages` |
| PdfExport.PdfUrl | DocScanner/Model/Document.swift:40-42 | the output file name is the document name followed by ".pdf" |
| PdfExport.RenderedAppend | DocScanner/Model/Document.swift:33-38 | for the reference export that keeps the renderable pages in order (what the corrected `CreatePdfIntended` builds), rendering a concatenation gives the rendered pages of each part, in order |
| PdfExport.RenderedAll | DocScanner/Model/Document.swift:33-38 | in the reference export, when every page renders the PDF has one page per document page, each at the same index |
| PdfExport.SkipUnrenderable | DocScanner/Model/Document.swift:34-35 | in the reference export, a page that does not render is skipped without aborting; the PDF is what the pages before and after it give. As written, the loop also skips such a page, but later pages then go past the end (`SkippedPageInsertsPastEnd`) |
| PdfExport.PdfInsert | DocScanner/Model/Document.swift:36 | `insert(_:at:)` on the PDF, for an index within the document, adds exactly the page at that index and shifts the later ones; past the end the result is whatever PDFKit does, given as the parameter `pastEnd` |
| PdfExport.BuildPdfAllRendered | DocScanner/Model/Document.swift:33-38 | when every page renders, the as-written loop builds exactly the reference PDF: every page, in document order, whatever PDFKit does past the end |
| PdfExport.BuildPdfAppendingIsRendered | DocScanner/Model/Document.swift:33-38 | if PDFKit appended a page inserted past the end, the as-written loop would build the reference PDF even with skipped pages |
| PdfExport.InsertIndexAtOrPastEnd | DocScanner/Model/Document.swift:33-37 | when PDFKit adds at most one page per insertion, each page is inserted at an index at or past the end of the PDF built so far; it is exactly the end if and only if no earlier page was skipped |
| PdfExport.SkippedPageInsertsPastEnd | DocScanner/Model/Document.swift:33-37 | with a first page that fails to render and a second that renders, the loop inserts the second page at index 1 into an empty PDF, i.e. past its end, whereas the reference PDF is just the second page |
| PdfExport.CreatePdf | DocScanner/Model/Document.swift:26-51 | as written: the PDF is the one the loop builds; when every page renders it holds every page in document order; the callbacks are `updateLoading(true)` first, then exactly one `onFinish` (with the URL if the write succeeds, otherwise nil), then `updateLoading(false)` |
| PdfExport.CreatePdfIntended | DocScanner/Model/Document.swift:26-51 | corrected export inserting each page at the PDF's current page count: the PDF is exactly the renderable pages in document order, with the same file name and callbacks |
| PdfExport.ReportWrite | DocScanner/Model/Document.swift:26-51 | one `updateLoading(true)`, then one `onFinish` carrying the URL exactly when the write succeeded, then `updateLoading(false)` |
| PdfExport.ExportOutcome | DocScanner/View/Pages/DocumentPreview/DocumentPreviewView.swift:170-184 | after an export the loader is hidden, and exactly one thing has happened: either the share sheet opened with the PDF's URL or the "Problem in Saving PDF Document" alert was raised |
| PdfExport.CreatePageImage | DocScanner/View/Pages/DocumentPreview/DocumentPreviewSlider.swift:117-125 | a page that decodes is shared as an image and only the export item and share-sheet flag change; otherwise only the "Problem in creating Page Image" alert fields change |
| Preview.Open | DocScanner/View/Pages/DocumentPreview/DocumentPreviewView.swift:89-91 | opening the grid starts with the working copy equal to the document's pages and no drag in progress |
| Preview.Hover | DocScanner/View/Pages/DocumentPreview/DocumentPreviewView.swift:72-84 | the working copy stays as it is unless a drag is set, the status is true and both pages are found; when both first-occurrence indices exist it becomes the move between them (unchanged if they are equal); it is always a permutation, and the document is never touched |
| Preview.HoverPlacesDraggedPage | DocScanner/View/Pages/DocumentPreview/DocumentPreviewView.swift:79-80 | after a reorder step the dragged page is at the target index, and the other pages keep their relative order |
| Preview.HoverOverEqualDataIsNoop | DocScanner/View/Pages/DocumentPreview/DocumentPreviewView.swift:75-77 | a page hovering over itself, or over a page with identical data, never reorders, because both lookups resolve to the earliest match |
| Preview.Drop | DocScanner/View/Pages/DocumentPreview/DocumentPreviewView.swift:65-71 | on drop the document's pages equal the working copy and are written only if they differed; the drag data is cleared and the handler returns false |
| Preview.DropWithoutReorderWritesNothing | DocScanner/View/Pages/DocumentPreview/DocumentPreviewView.swift:67-69 | a drag that ends over its own page on a freshly opened grid performs no write |
| Preview.FinishScan | DocScanner/View/Pages/DocumentPreview/DocumentPreviewView.swift:141-158 | if a page fails to encode, only `isSaving` changes and it stays true; otherwise the new pages follow the existing ones in scan order, the name and date are kept, the working copy is resynced and `isSaving` is false |
| Preview.StartHintAfterScan | DocScanner/View/Pages/DocumentPreview/DocumentPreviewView.swift:92-98 | after a successful scan the start hint shows exactly when the document was empty and the scan had no pages; a failed scan leaves the hint as it was |
| Slider.DistinctPagesTaggedByIndex | DocScanner/View/Pages/DocumentPreview/DocumentPreviewSlider.swift:35 | a page whose data appears at no earlier index is tagged with its own index |
| Slider.PageTag | DocScanner/View/Pages/DocumentPreview/DocumentPreviewSlider.swift:35 | a page's tab tag is the first index holding its data: it exists exactly when the data is among the pages, and no earlier page holds that data |
| Slider.DuplicatePageSharesTag | DocScanner/View/Pages/DocumentPreview/DocumentPreviewSlider.swift:35 | a page whose data repeats an earlier page is tagged with an index no later than that earlier page, so it never carries its own index as tag |
| Slider.NavTitle | DocScanner/View/Pages/DocumentPreview/DocumentPreviewSlider.swift:91-97 | the title is empty exactly when there is no position; otherwise it is "Page " followed by the canonical decimal text of the position plus one (no leading zeros, a sign only when negative), which reads back as that number |
| Slider.SinglePageToSave | DocScanner/View/Pages/DocumentPreview/DocumentPreviewSlider.swift:62-65 | the single-page save is offered exactly when the position is a valid page index, and it exports the page at that position |
| Slider.DeletePage | DocScanner/View/Pages/DocumentPreview/DocumentPreviewSlider.swift:128-146 | with no position or an invalid one nothing changes; otherwise exactly that page is removed and the others keep their order; the view dismisses exactly when no page is left; the position steps back by one exactly when it is at least 1 and was the third page from the end; a stepped-back position is a valid index |
| Slider.DeletePageIntended | DocScanner/View/Pages/DocumentPreview/DocumentPreviewSlider.swift:138-141 | corrected step-back: the position steps back exactly when the deleted page was the last one, so whenever pages remain the position indexes a page; otherwise the position is kept, also when the only page is deleted |
| Library.InsertByCreation | DocScanner/View/Pages/DocMainView.swift:14-16 | inserting a document into a newest-first list keeps it newest-first and one longer, headed by the new document or the old head |
| Library.InsertByCreationAdds | DocScanner/View/Pages/DocMainView.swift:14-16 | the insertion adds exactly that document and loses none |
| Library.Listing | DocScanner/View/Pages/DocMainView.swift:14-16 | the query result is ordered by `documentCreation`, newest first, and is a permutation of the stored documents |
| Library.StrictlyNewestHeadsListing | DocScanner/View/Pages/DocMainView.swift:14-16 | a document strictly newer than all the others comes first in the list |
| Library.FinishScan | DocScanner/View/Pages/DocMainView.swift:74-91 | if a page fails to encode, no document is inserted and `isSaving` stays true; otherwise exactly one document is added, named "New Document", dated now, with the pages in scan order, and `isSaving` is false |
| Library.NewDocumentListedFirst | DocScanner/View/Pages/DocMainView.swift:87-88 | a document scanned later than every stored one is listed first |
| Gate.AuthenticateUser | DocScanner/Model/AppLock.swift:19-31 | with biometrics supported, `isUnlocked` becomes exactly the verdict and `isAvailable` is kept; otherwise both flags become false; it never sets `isAvailable` to true |
| Gate.Launch | DocScanner/Model/AppLock.swift:15-16 | a new lock starts with `isUnlocked` false and `isAvailable` true, so at launch the overlay is shown exactly when the lock preference is on |
| Gate.AskPermission | DocScanner/ContentView.swift:54-58 | authentication starts only when `isAvailable` and `isLockedEnabled` both hold; otherwise nothing changes |
| Gate.OnPhaseChange | DocScanner/ContentView.swift:43-51 | any non-active phase sets `isUnlocked` to false and changes nothing else; entering the active phase while locked runs `askPermission`; entering it while unlocked changes nothing |
| Gate.LockButton | DocScanner/View/Pages/DocMainView.swift:51-61 | with permission the lock preference flips, and only turning it on authenticates; with permission the alert fields are untouched; without permission the preference and lock are unchanged and the alert is raised |
| Gate.OverlayTapAsksPermission | DocScanner/ContentView.swift:38-42 | tapping the overlay re-runs `askPermission`, as the screen's appearance does |
| Gate.AvailabilityNeverRestored | DocScanner/Model/AppLock.swift:15-31 | over any sequence of interactions `isAvailable` never goes from false back to true |
| Gate.NoticePersists | DocScanner/ContentView.swift:25-58 | once the overlay shows the "enable FaceID" notice, no interaction removes it, because tapping runs `askPermission`, which does nothing while unavailable |
| Gate.RelockThenUnlock | DocScanner/ContentView.swift:43-51 | starting unlocked, leaving the foreground brings up the overlay, and returning with a successful biometric check removes it |
| Gate.LockButtonAuthenticatesOnlyWhenEnabling | DocScanner/View/Pages/DocMainView.swift:52-56 | turning the lock off leaves the lock state untouched and removes the overlay; turning it on unlocks exactly when the verdict is positive |

## Left out

- Timing and threading are not modelled: the `DispatchQueue` hops, the 0.4 s delays, and the background-thread removal in `deletePage`. Each handler is one atomic step.
- `evaluatePolicy` answers asynchronously. The model applies its verdict at once (`Gate.AuthenticateUser`), so a state in which authentication is still pending is not represented.
- `checkForPermission` and `authenticateUser` each create their own `LAContext`. One interaction uses one `Biometrics` answer for both.
- PdfExport.PdfInsert: what PDFKit does with a page inserted past the end of the document is not known from the code, so it is the parameter `pastEnd`; an exception PDFKit may raise there is not modelled.
- The scanner's error callback (which shows the error text in an alert) and its cancel callback (which does nothing) change no page state and are not modelled.
- Temporary-file removal when the share sheet is dismissed, the share sheet itself, and SwiftData persistence (`context.save`, `context.insert`) are not modelled. The stored documents are a sequence.
- The grid and the page viewer share one `Document` object (DocumentPreviewView.swift:43-46), and `deletePage` removes from that object's pages (DocumentPreviewSlider.swift:132). The model keeps a separate copy per screen (`Preview.PreviewState.document` and `Slider.SliderState.pages`). So it does not follow a deletion in the viewer back into the grid. In the source, such a deletion does not refresh the grid's `draggablePages`, and the next drop may write the deleted page back.
- Modal screens are drawn above the lock overlay and stay usable while the app is locked: the scanner's `fullScreenCover` (DocMainView.swift:68, DocumentPreviewView.swift:135), the share sheets, the intro sheet (ContentView.swift:18) and alerts. The model's gate covers only the root view and its lock button.
- Thumbnail decoding (DocumentImageView.swift), row rename and delete (DocumentRowView.swift), the intro screen, the saving loader and all layout are outside the core.
- PdfExport.CreatePageImage: the exported image is identified by the page's encoded bytes, not by the decoded `UIImage` that the source hands to the share sheet, because image content is not modelled.
- JPEG compression quality and image content are not modelled. A page is its encoded bytes.

## Findings

| source | as written | input that shows it | evidently intended | confidence | as-written member | corrected member |
|---|---|---|---|---|---|---|
| DocScanner/View/Pages/DocumentPreview/DocumentPreviewSlider.swift:139 | steps back when `scrollPosition == count - 2`, where `count` is the number of pages after the removal, i.e. when the deleted page was the third from the end | pages [a, b] at position 1: deleting leaves [a] at position 1, past the end; pages [a, b, c, d] at position 1: deleting moves to position 0 although position 1 still holds a page | the comment above the line says the step back is for deleting the last page, i.e. `scrollPosition == count` | low to medium (the TabView may repair the selection itself); not executed | Slider.DeletePage, Slider.DeleteLastPageLeavesPositionOutOfRange, Slider.DeleteThirdFromLastStepsBack | Slider.DeletePageIntended |
| DocScanner/Model/Document.swift:36 | inserts each rendered page at its index in the source document, not at `pdfDocument.pageCount` | a document whose first page fails to render and whose second renders: the second page is inserted at index 1 into an empty PDF | skip the page and insert the next one at the PDF's current page count, so the PDF holds the renderable pages in order | medium (what PDFKit does past the end is unknown; it may raise or append); not executed | PdfExport.CreatePdf, PdfExport.InsertIndexAtOrPastEnd, PdfExport.SkippedPageInsertsPastEnd | PdfExport.CreatePdfIntended |
