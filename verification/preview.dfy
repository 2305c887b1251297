/** The document preview grid (DocumentPreviewView.swift): drag-to-reorder on
    a working copy of the pages, the commit on drop, and appending the pages
    of a further scan session. */
module Preview {
  import opened Wrappers
  import opened Documents
  import opened PageSeq
  import Scan

  /** The screen's state: the document it shows, the working copy
      (`draggablePages`), the page being dragged and the saving flag. */
  datatype PreviewState = PreviewState(
    document: Document,
    draggablePages: seq<PageData>,
    dragData: Option<PageData>,
    isSaving: bool)

  /** Opening the screen for a document: `onChange(of: document, initial: true)`
      copies its pages into the working copy. */
  function Open(document: Document): (st: PreviewState)
    ensures st.document == document && st.dragData.None? && !st.isSaving
    ensures WorkingCopyInSync(st)
  {
    PreviewState(document, document.scannedImages, None, false)
  }

  ghost predicate WorkingCopyInSync(st: PreviewState) {
    st.draggablePages == st.document.scannedImages
  }

  /** The "Start Scanning Your Documents!" hint is shown. */
  predicate ShowsStartHint(document: Document) {
    document.scannedImages == []
  }

  /** `isTargeted`: while the dragged page hovers over the page `imageData`
      (and `status` is true), the dragged page is moved to the hovered page's
      position. Both positions are first occurrences, as `firstIndex(of:)`. */
  function Hover(st: PreviewState, imageData: PageData, status: bool): (r: PreviewState)
    ensures r.document == st.document && r.dragData == st.dragData && r.isSaving == st.isSaving
    ensures |r.draggablePages| == |st.draggablePages|
    ensures multiset(r.draggablePages) == multiset(st.draggablePages)
    ensures st.dragData.None? || !status ==> r == st
    ensures st.dragData.Some? && st.dragData.value !in st.draggablePages ==> r == st
    ensures imageData !in st.draggablePages ==> r == st
    ensures forall i, j :: st.dragData.Some? && status
                          && IsFirstIndex(st.draggablePages, st.dragData.value, i)
                          && IsFirstIndex(st.draggablePages, imageData, j)
                          ==> r.draggablePages == (if i == j then st.draggablePages else Move(st.draggablePages, i, j))
  {
    match st.dragData
    case None => st
    case Some(dragData) =>
      if !status then st
      else match (FirstIndexOf(st.draggablePages, dragData), FirstIndexOf(st.draggablePages, imageData))
        case (Some(selectedIndex), Some(targetIndex)) =>
          if selectedIndex != targetIndex then
            var moved := Move(st.draggablePages, selectedIndex, targetIndex);
            assert forall i, j :: IsFirstIndex(st.draggablePages, dragData, i) && IsFirstIndex(st.draggablePages, imageData, j)
                     ==> i == selectedIndex && j == targetIndex by {
              forall i, j | IsFirstIndex(st.draggablePages, dragData, i) && IsFirstIndex(st.draggablePages, imageData, j)
                ensures i == selectedIndex && j == targetIndex
              {
                FirstIndexUnique(st.draggablePages, dragData, i, selectedIndex);
                FirstIndexUnique(st.draggablePages, imageData, j, targetIndex);
              }
            }
            st.(draggablePages := moved)
          else st
        case _ => st
  }

  /** After a reorder step the dragged page sits at the hovered page's former
      position, and the other pages keep their relative order. */
  lemma HoverPlacesDraggedPage(st: PreviewState, imageData: PageData, i: nat, j: nat)
    requires st.dragData.Some?
    requires IsFirstIndex(st.draggablePages, st.dragData.value, i)
    requires IsFirstIndex(st.draggablePages, imageData, j)
    ensures j < |Hover(st, imageData, true).draggablePages|
    ensures Hover(st, imageData, true).draggablePages[j] == st.dragData.value
    ensures RemoveAt(Hover(st, imageData, true).draggablePages, j) == RemoveAt(st.draggablePages, i)
  {
    var r := Hover(st, imageData, true);
    if i == j {
      assert r.draggablePages == st.draggablePages;
    } else {
      assert r.draggablePages == Move(st.draggablePages, i, j);
    }
  }

  /** Hovering the dragged page over a page with the same data (itself, or a
      duplicate) never reorders: both lookups resolve to the earliest match. */
  lemma HoverOverEqualDataIsNoop(st: PreviewState, imageData: PageData, status: bool)
    requires st.dragData == Some(imageData)
    ensures Hover(st, imageData, status) == st
  {
  }

  /** The outcome of the drop handler. */
  datatype DropOutcome = DropOutcome(state: PreviewState, accepted: bool, persisted: bool)

  /** `dropDestination`: the document takes the working copy, written only if
      it differs; the drag ends and the handler returns false. */
  function Drop(st: PreviewState): (r: DropOutcome)
    ensures r.state.document.scannedImages == st.draggablePages
    ensures r.state.document.documentName == st.document.documentName
    ensures r.state.document.documentCreation == st.document.documentCreation
    ensures r.state.draggablePages == st.draggablePages && r.state.isSaving == st.isSaving
    ensures WorkingCopyInSync(r.state)
    ensures r.state.dragData.None? && !r.accepted
    ensures r.persisted <==> st.document.scannedImages != st.draggablePages
  {
    if st.document.scannedImages != st.draggablePages then
      DropOutcome(PreviewState(st.document.(scannedImages := st.draggablePages), st.draggablePages, None, st.isSaving), false, true)
    else
      DropOutcome(st.(dragData := None), false, false)
  }

  /** A drag that ends where it started writes nothing. */
  lemma DropWithoutReorderWritesNothing(document: Document, dragData: PageData)
    ensures !Drop(Hover(Open(document).(dragData := Some(dragData)), dragData, true)).persisted
  {
  }

  /** The `didFinish` callback of a further scan session: on success the
      encoded pages go after the existing ones in scan order, the working copy
      is resynchronised and the loader is hidden; if an encoding fails the
      callback returns early, nothing is appended and the loader stays. */
  function FinishScan(st: PreviewState, encodings: seq<Option<PageData>>): (r: PreviewState)
    ensures r.isSaving <==> Scan.SomePageFails(encodings)
    ensures Scan.SomePageFails(encodings) ==> r == st.(isSaving := true)
    ensures !Scan.SomePageFails(encodings) ==>
              && r.document.documentName == st.document.documentName
              && r.document.documentCreation == st.document.documentCreation
              && |r.document.scannedImages| == |st.document.scannedImages| + |encodings|
              && r.document.scannedImages[..|st.document.scannedImages|] == st.document.scannedImages
              && (forall k :: 0 <= k < |encodings| ==>
                    encodings[k] == Some(r.document.scannedImages[|st.document.scannedImages| + k]))
              && WorkingCopyInSync(r)
              && r.dragData == st.dragData
  {
    var saving := st.(isSaving := true);
    match Scan.EncodePages(encodings)
    case None => saving
    case Some(scannedPages) =>
      var document := saving.document.(scannedImages := saving.document.scannedImages + scannedPages);
      saving.(document := document, draggablePages := document.scannedImages, isSaving := false)
  }

  /** After a successful scan the start hint is shown exactly when the
      document was empty and the session had no pages; a failed one leaves
      the hint as it was. */
  lemma StartHintAfterScan(st: PreviewState, encodings: seq<Option<PageData>>)
    ensures !Scan.SomePageFails(encodings) ==>
              (ShowsStartHint(FinishScan(st, encodings).document) <==> ShowsStartHint(st.document) && |encodings| == 0)
    ensures Scan.SomePageFails(encodings) ==>
              ShowsStartHint(FinishScan(st, encodings).document) == ShowsStartHint(st.document)
  {
  }
}
