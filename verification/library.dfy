/** The document list (DocMainView.swift): the query's newest-first order and
    creating a new document from a finished scan session. */
module Library {
  import opened Wrappers
  import opened Documents
  import Scan

  /** Every document is at least as recent as the ones after it. */
  ghost predicate NewestFirst(docs: seq<Document>) {
    forall i, j :: 0 <= i < j < |docs| ==> docs[i].documentCreation >= docs[j].documentCreation
  }

  lemma PrependNewest(d: Document, sorted: seq<Document>)
    requires NewestFirst(sorted)
    requires forall k :: 0 <= k < |sorted| ==> sorted[k].documentCreation <= d.documentCreation
    ensures NewestFirst([d] + sorted)
  {
  }

  /** A newest-first list starts with its most recent document. */
  lemma HeadIsNewest(sorted: seq<Document>, d: Document)
    requires NewestFirst(sorted) && |sorted| > 0 && sorted[0].documentCreation <= d.documentCreation
    ensures forall k :: 0 <= k < |sorted| ==> sorted[k].documentCreation <= d.documentCreation
  {
  }

  /** Places `d` in front of the first document that is not more recent. */
  function InsertByCreation(d: Document, sorted: seq<Document>): (r: seq<Document>)
    requires NewestFirst(sorted)
    ensures NewestFirst(r)
    ensures |r| == |sorted| + 1 && (r[0] == d || (|sorted| > 0 && r[0] == sorted[0]))
  {
    if |sorted| == 0 then [d]
    else if sorted[0].documentCreation <= d.documentCreation then
      HeadIsNewest(sorted, d);
      PrependNewest(d, sorted);
      [d] + sorted
    else
      var head, tail := sorted[0], sorted[1..];
      assert sorted == [head] + tail;
      var rest := InsertByCreation(d, tail);
      assert rest[0] == d || rest[0] == sorted[1];
      HeadIsNewest(rest, head);
      PrependNewest(head, rest);
      [head] + rest
  }

  /** Inserting adds exactly the inserted document. */
  lemma {:induction false} InsertByCreationAdds(d: Document, sorted: seq<Document>)
    requires NewestFirst(sorted)
    ensures multiset(InsertByCreation(d, sorted)) == multiset(sorted) + multiset{d}
  {
    if |sorted| > 0 && sorted[0].documentCreation > d.documentCreation {
      var head, tail := sorted[0], sorted[1..];
      assert sorted == [head] + tail;
      InsertByCreationAdds(d, tail);
      assert InsertByCreation(d, sorted) == [head] + InsertByCreation(d, tail);
    }
  }

  /** The `@Query` order: by `documentCreation`, newest first. */
  function Listing(docs: seq<Document>): (r: seq<Document>)
    ensures NewestFirst(r)
    ensures multiset(r) == multiset(docs)
  {
    if |docs| == 0 then []
    else
      assert docs == [docs[0]] + docs[1..];
      InsertByCreationAdds(docs[0], Listing(docs[1..]));
      InsertByCreation(docs[0], Listing(docs[1..]))
  }

  /** The persisted documents (in insertion order) and the loader flag. */
  datatype LibraryState = LibraryState(documents: seq<Document>, isSaving: bool)

  const NewDocumentName := "New Document"

  /** The `didFinish` callback of a scan session started from the list: on
      success exactly one document named "New Document", created `now` and
      holding the pages in scan order, is inserted; if an encoding fails the
      callback returns early, nothing is inserted and the loader stays. */
  function FinishScan(st: LibraryState, encodings: seq<Option<PageData>>, now: int): (r: LibraryState)
    ensures r.isSaving <==> Scan.SomePageFails(encodings)
    ensures Scan.SomePageFails(encodings) ==> r.documents == st.documents
    ensures !Scan.SomePageFails(encodings) ==>
              && |r.documents| == |st.documents| + 1
              && r.documents[..|st.documents|] == st.documents
              && var d := r.documents[|st.documents|];
                 && d.documentName == NewDocumentName
                 && d.documentCreation == now
                 && |d.scannedImages| == |encodings|
                 && forall k :: 0 <= k < |encodings| ==> encodings[k] == Some(d.scannedImages[k])
  {
    match Scan.EncodePages(encodings)
    case None => st.(isSaving := true)
    case Some(scannedPages) =>
      var document := Document(NewDocumentName, now, scannedPages);
      LibraryState(st.documents + [document], false)
  }

  /** A document strictly newer than all others heads the listing. */
  lemma StrictlyNewestHeadsListing(docs: seq<Document>, x: Document)
    requires x in docs
    requires forall d :: d in docs && d != x ==> d.documentCreation < x.documentCreation
    ensures |Listing(docs)| == |docs| && Listing(docs)[0] == x
  {
    var listing := Listing(docs);
    assert |listing| == |multiset(listing)| == |multiset(docs)| == |docs|;
    assert x in multiset(listing);
    var k :| 0 <= k < |listing| && listing[k] == x;
    assert listing[0] in multiset(docs);
    if k > 0 {
      assert listing[0].documentCreation >= x.documentCreation;
    }
  }

  /** A new document scanned later than every existing one heads the list. */
  lemma NewDocumentListedFirst(st: LibraryState, encodings: seq<Option<PageData>>, now: int)
    requires !Scan.SomePageFails(encodings)
    requires forall d :: d in st.documents ==> d.documentCreation < now
    ensures var r := FinishScan(st, encodings, now);
            var listing := Listing(r.documents);
            && |listing| == |st.documents| + 1
            && listing[0] == r.documents[|st.documents|]
  {
    var r := FinishScan(st, encodings, now);
    var newDoc := r.documents[|st.documents|];
    assert r.documents == st.documents + [newDoc];
    StrictlyNewestHeadsListing(r.documents, newDoc);
  }
}
