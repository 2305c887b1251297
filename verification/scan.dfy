/** The loop both `didFinish` scanner callbacks run over a finished scan
    session: each page image is JPEG-encoded in scan order, and the first
    page the encoder refuses ends the callback early with nothing saved. */
module Scan {
  import opened Wrappers
  import opened Documents

  /** Some page of the session could not be encoded. `encodings[k]` is the
      encoder's answer for page `k` (`jpegData(compressionQuality:)`). */
  predicate SomePageFails(encodings: seq<Option<PageData>>) {
    exists k :: 0 <= k < |encodings| && encodings[k].None?
  }

  /** The encoded pages in scan order, or `None` when an encoding failed. */
  function EncodePages(encodings: seq<Option<PageData>>): (r: Option<seq<PageData>>)
    ensures r.None? <==> SomePageFails(encodings)
    ensures r.Some? ==> |r.value| == |encodings| && forall k :: 0 <= k < |encodings| ==> encodings[k] == Some(r.value[k])
  {
    if |encodings| == 0 then Some([])
    else match encodings[0]
      case None => None
      case Some(page) =>
        match EncodePages(encodings[1..])
        case None =>
          assert encodings[1..][0] == encodings[1];
          var k :| 0 <= k < |encodings[1..]| && encodings[1..][k].None?;
          assert encodings[k + 1].None?;
          None
        case Some(rest) => Some([page] + rest)
  }

  /** The callback's `for pageIndex in 0..<scan.pageCount` loop with its
      early `return` from the `guard`. */
  method CollectPages(encodings: seq<Option<PageData>>) returns (scannedPages: Option<seq<PageData>>)
    ensures scannedPages == EncodePages(encodings)
  {
    var pages: seq<PageData> := [];
    var pageIndex := 0;
    while pageIndex < |encodings|
      invariant 0 <= pageIndex <= |encodings|
      invariant |pages| == pageIndex
      invariant forall k :: 0 <= k < pageIndex ==> encodings[k] == Some(pages[k])
    {
      match encodings[pageIndex] {
        case None =>
          return None;
        case Some(pageData) =>
          pages := pages + [pageData];
      }
      pageIndex := pageIndex + 1;
    }
    var r := EncodePages(encodings);
    if r.Some? {
      assert r.value == pages;
    }
    return Some(pages);
  }
}
