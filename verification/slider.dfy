/** The paging page viewer (DocumentPreviewSlider.swift): page tags, the
    navigation title, the single-page save option and deleting the current
    page with its scroll-position repair. */
module Slider {
  import opened Wrappers
  import opened Documents
  import opened PageSeq
  import Decimal

  /** The viewer's state: the document's pages, the selected tab
      (`scrollPosition`) and whether the view has dismissed itself. */
  datatype SliderState = SliderState(pages: seq<PageData>, scrollPosition: Option<int>, dismissed: bool)

  /** `scrollPosition` is set and indexes a page. */
  predicate HasCurrentPage(st: SliderState) {
    st.scrollPosition.Some? && 0 <= st.scrollPosition.value < |st.pages|
  }

  /** The tab tag of a page: the first index of its data. */
  function PageTag(pages: seq<PageData>, imageData: PageData): (tag: Option<nat>)
    ensures tag.Some? <==> imageData in pages
    ensures tag.Some? ==> tag.value < |pages| && pages[tag.value] == imageData
    ensures tag.Some? ==> forall j :: 0 <= j < tag.value ==> pages[j] != imageData
  {
    FirstIndexOf(pages, imageData)
  }

  /** Pages with distinct data are tagged with their own index. */
  lemma DistinctPagesTaggedByIndex(pages: seq<PageData>, i: nat)
    requires i < |pages|
    requires forall j :: 0 <= j < i ==> pages[j] != pages[i]
    ensures PageTag(pages, pages[i]) == Some(i)
  {
  }

  /** A page whose data repeats an earlier page shares that page's tag, so it
      can never be the selected tab under its own index. */
  lemma DuplicatePageSharesTag(pages: seq<PageData>, i: nat, j: nat)
    requires i < j < |pages| && pages[i] == pages[j]
    ensures PageTag(pages, pages[j]).Some? && PageTag(pages, pages[j]).value <= i
  {
  }

  /** `navTitle`: "Page n" for the selected index plus one, or empty. */
  function NavTitle(st: SliderState): (title: string)
    ensures st.scrollPosition.None? <==> title == ""
    ensures st.scrollPosition.Some? ==>
              && |title| > 5 && title[..5] == "Page "
              && Decimal.Canonical(title[5..])
              && Decimal.ParseInt(title[5..]) == Some(st.scrollPosition.value + 1)
              && title == "Page " + Decimal.IntToString(st.scrollPosition.value + 1)
  {
    match st.scrollPosition
    case None => ""
    case Some(p) =>
      var digits := Decimal.IntToString(p + 1);
      Decimal.IntRoundTrip(p + 1);
      assert ("Page " + digits)[5..] == digits;
      "Page " + digits
  }

  /** The confirmation dialog offers "Save Page n" exactly when the position
      indexes a page; choosing it exports that page. */
  function SinglePageToSave(st: SliderState): (r: Option<PageData>)
    ensures r.Some? <==> HasCurrentPage(st)
    ensures r.Some? ==> r.value == st.pages[st.scrollPosition.value]
  {
    if HasCurrentPage(st) then Some(st.pages[st.scrollPosition.value]) else None
  }

  /** `deletePage`, as written: removes the current page; dismisses the view
      if no page is left; otherwise steps back one position when
      `scrollPosition - 1` is an index and `scrollPosition == count - 2`,
      `count` being the number of pages after the removal. */
  function DeletePage(st: SliderState): (r: SliderState)
    ensures !HasCurrentPage(st) ==> r == st
    ensures HasCurrentPage(st) ==> r.pages == RemoveAt(st.pages, st.scrollPosition.value)
    ensures r.dismissed <==> st.dismissed || (HasCurrentPage(st) && |st.pages| == 1)
    ensures HasCurrentPage(st) ==>
              var p := st.scrollPosition.value;
              (r.scrollPosition == Some(p - 1) <==> 1 <= p && p + 3 == |st.pages|)
    ensures r.scrollPosition != st.scrollPosition ==>
              r.scrollPosition.Some? && 0 <= r.scrollPosition.value < |r.pages|
    ensures r.scrollPosition == st.scrollPosition || r.scrollPosition == Some(st.scrollPosition.value - 1)
  {
    if HasCurrentPage(st) then
      var p := st.scrollPosition.value;
      var pages := RemoveAt(st.pages, p);
      if |pages| == 0 then st.(pages := pages, dismissed := true)
      else if 0 <= p - 1 < |pages| && p == |pages| - 2 then st.(pages := pages, scrollPosition := Some(p - 1))
      else st.(pages := pages)
    else st
  }

  /** Deleting the last of two or more pages leaves `scrollPosition` past the
      end of the remaining pages: the step back is never taken for the last
      page. */
  lemma DeleteLastPageLeavesPositionOutOfRange(a: PageData, b: PageData)
    ensures DeletePage(SliderState([a, b], Some(1), false)) == SliderState([a], Some(1), false)
    ensures !HasCurrentPage(DeletePage(SliderState([a, b], Some(1), false)))
  {
  }

  /** Deleting the third page from the end of four steps back although the
      position still indexes a page. */
  lemma DeleteThirdFromLastStepsBack(a: PageData, b: PageData, c: PageData, d: PageData)
    ensures DeletePage(SliderState([a, b, c, d], Some(1), false)) == SliderState([a, c, d], Some(0), false)
  {
    var st := SliderState([a, b, c, d], Some(1), false);
    assert HasCurrentPage(st);
    var r := DeletePage(st);
    var rest := RemoveAt(st.pages, 1);
    assert rest[0] == a && rest[1] == c && rest[2] == d;
    assert rest == [a, c, d];
    assert r.scrollPosition == Some(0);
  }

  /** `deletePage` as its comment describes it: the step back is taken when
      the deleted page was the last one. */
  function DeletePageIntended(st: SliderState): (r: SliderState)
    ensures !HasCurrentPage(st) ==> r == st
    ensures HasCurrentPage(st) ==> r.pages == RemoveAt(st.pages, st.scrollPosition.value)
    ensures r.dismissed <==> st.dismissed || (HasCurrentPage(st) && |st.pages| == 1)
    ensures HasCurrentPage(st) ==>
              (r.scrollPosition == Some(st.scrollPosition.value - 1) <==> |st.pages| > 1 && st.scrollPosition.value + 1 == |st.pages|)
    ensures HasCurrentPage(st) && |st.pages| > 1 ==> HasCurrentPage(r)
    ensures r.scrollPosition == st.scrollPosition || r.scrollPosition == Some(st.scrollPosition.value - 1)
  {
    if HasCurrentPage(st) then
      var p := st.scrollPosition.value;
      var pages := RemoveAt(st.pages, p);
      if |pages| == 0 then st.(pages := pages, dismissed := true)
      else if 0 <= p - 1 < |pages| && p == |pages| then st.(pages := pages, scrollPosition := Some(p - 1))
      else st.(pages := pages)
    else st
  }
}
