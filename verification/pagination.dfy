/** The pagination control: the window of page labels it shows and the
    targets of its Previous and Next buttons. */
module Pagination {
  import opened Wrappers

  /** A label of the control: a page button or the `...` marker. */
  datatype Label = Number(page: int) | Ellipsis

  /** Up to this many pages every page gets a button. */
  const MaxListed: int := 7

  /** The buttons `lo, lo + 1, ..., hi`; none when `hi < lo`. */
  function Run(lo: int, hi: int): (r: seq<Label>)
    ensures |r| == if hi < lo then 0 else hi - lo + 1
    ensures forall k :: 0 <= k < |r| ==> r[k] == Number(lo + k)
    decreases hi - lo
  {
    if hi < lo then [] else [Number(lo)] + Run(lo + 1, hi)
  }

  /** Every label with a page number lies in `[1, total]`. */
  ghost predicate InRange(r: seq<Label>, total: int) {
    forall k :: 0 <= k < |r| && r[k].Number? ==> 1 <= r[k].page <= total
  }

  /** Page numbers strictly increase from left to right. */
  ghost predicate Ascending(r: seq<Label>) {
    forall i, j :: 0 <= i < j < |r| && r[i].Number? && r[j].Number? ==> r[i].page < r[j].page
  }

  /** An ellipsis never stands at either end, sits between two page numbers,
      and stands for at least one page left out. */
  ghost predicate EllipsesMarkGaps(r: seq<Label>) {
    forall k :: 0 <= k < |r| && r[k].Ellipsis? ==>
      && 0 < k < |r| - 1
      && r[k - 1].Number? && r[k + 1].Number?
      && r[k + 1].page - r[k - 1].page >= 2
  }

  /** Two neighbouring page numbers are consecutive pages: pages are left
      out only where an ellipsis says so. */
  ghost predicate NoSilentGaps(r: seq<Label>) {
    forall k :: 0 < k < |r| && r[k - 1].Number? && r[k].Number? ==> r[k].page == r[k - 1].page + 1
  }

  /** The four structural properties every label window has. */
  ghost predicate WellShaped(r: seq<Label>, total: int) {
    InRange(r, total) && Ascending(r) && EllipsesMarkGaps(r) && NoSilentGaps(r)
  }

  /** Few pages: every page from 1 to `total` is listed. */
  lemma ListedShape(total: int)
    requires total <= MaxListed
    ensures WellShaped(Run(1, total), total)
  {
  }

  /** Near the start: pages 1 to 5, an ellipsis, the last page. */
  lemma HeadShape(total: int)
    requires total > MaxListed
    ensures WellShaped([Number(1), Number(2), Number(3), Number(4), Number(5), Ellipsis, Number(total)], total)
  {
    var r := [Number(1), Number(2), Number(3), Number(4), Number(5), Ellipsis, Number(total)];
    assert forall k :: 0 <= k < 5 ==> r[k] == Number(k + 1);
  }

  /** Near the end: the first page, an ellipsis, the last five pages. */
  lemma TailShape(total: int)
    requires total > MaxListed
    ensures WellShaped(
      [Number(1), Ellipsis, Number(total - 4), Number(total - 3), Number(total - 2), Number(total - 1), Number(total)],
      total)
  {
  }

  /** In the middle: the first page, the current page and its two
      neighbours, the last page, with an ellipsis on each side. */
  lemma MiddleShape(current: int, total: int)
    requires 3 < current < total - 2
    ensures WellShaped(
      [Number(1), Ellipsis, Number(current - 1), Number(current), Number(current + 1), Ellipsis, Number(total)],
      total)
  {
  }

  /** The `pages` array of the control for the given current and total page. */
  function PageLabels(current: int, total: int): (r: seq<Label>)
    ensures total <= MaxListed ==>
      |r| == (if total < 0 then 0 else total) && forall k :: 0 <= k < |r| ==> r[k] == Number(k + 1)
    ensures total > MaxListed ==> |r| == 7 && r[0] == Number(1) && r[6] == Number(total)
    ensures InRange(r, total)
    ensures Ascending(r)
    ensures EllipsesMarkGaps(r)
    ensures NoSilentGaps(r)
    ensures 1 <= current <= total ==> Number(current) in r
  {
    if total <= MaxListed then
      var r := Run(1, total);
      ListedShape(total);
      assert 1 <= current <= total ==> r[current - 1] == Number(current);
      r
    else if current <= 3 then
      HeadShape(total);
      [Number(1), Number(2), Number(3), Number(4), Number(5), Ellipsis, Number(total)]
    else if current >= total - 2 then
      TailShape(total);
      [Number(1), Ellipsis, Number(total - 4), Number(total - 3), Number(total - 2), Number(total - 1), Number(total)]
    else
      MiddleShape(current, total);
      [Number(1), Ellipsis, Number(current - 1), Number(current), Number(current + 1), Ellipsis, Number(total)]
  }

  /** The labels of the control built the way the component builds them:
      one push per label, the runs of page numbers by counting loops. */
  method BuildPageLabels(current: int, total: int) returns (pages: seq<Label>)
    ensures pages == PageLabels(current, total)
  {
    pages := [];
    if total <= MaxListed {
      pages := PushRun(pages, 1, total);
      assert pages == Run(1, total);
    } else if current <= 3 {
      pages := PushRun(pages, 1, 5);
      assert Run(1, 5) == [Number(1), Number(2), Number(3), Number(4), Number(5)];
      pages := pages + [Ellipsis];
      pages := pages + [Number(total)];
      assert pages == [Number(1), Number(2), Number(3), Number(4), Number(5), Ellipsis, Number(total)];
    } else if current >= total - 2 {
      pages := pages + [Number(1)];
      pages := pages + [Ellipsis];
      pages := PushRun(pages, total - 4, total);
      assert Run(total - 4, total) ==
        [Number(total - 4), Number(total - 3), Number(total - 2), Number(total - 1), Number(total)];
      assert pages ==
        [Number(1), Ellipsis, Number(total - 4), Number(total - 3), Number(total - 2), Number(total - 1), Number(total)];
    } else {
      pages := pages + [Number(1)];
      pages := pages + [Ellipsis];
      pages := PushRun(pages, current - 1, current + 1);
      assert Run(current - 1, current + 1) == [Number(current - 1), Number(current), Number(current + 1)];
      pages := pages + [Ellipsis];
      pages := pages + [Number(total)];
      assert pages ==
        [Number(1), Ellipsis, Number(current - 1), Number(current), Number(current + 1), Ellipsis, Number(total)];
    }
  }

  /** `for (let i = lo; i <= hi; i++) pages.push(i)`. */
  method PushRun(pages: seq<Label>, lo: int, hi: int) returns (r: seq<Label>)
    ensures r == pages + Run(lo, hi)
  {
    r := pages;
    var i := lo;
    while i <= hi
      invariant lo <= i
      invariant hi < lo ==> i == lo
      invariant lo <= hi ==> i <= hi + 1
      invariant r == pages + Run(lo, i - 1)
      decreases hi - i
    {
      r := r + [Number(i)];
      i := i + 1;
    }
  }

  /** The Previous and Next buttons: `None` when disabled, otherwise the
      page the button asks for. */
  datatype Buttons = Buttons(prev: Option<int>, next: Option<int>)

  /** Previous is disabled exactly on page 1 and otherwise asks for the page
      before; Next is disabled exactly on the last page and otherwise asks
      for the page after. On a page within `[1, total]` every enabled button
      asks for a page within `[1, total]` too. */
  function NavButtons(current: int, total: int): (b: Buttons)
    ensures b.prev.None? <==> current == 1
    ensures b.prev.Some? ==> b.prev.value == current - 1
    ensures b.next.None? <==> current == total
    ensures b.next.Some? ==> b.next.value == current + 1
    ensures 1 <= current <= total ==>
      && (b.prev.Some? ==> 1 <= b.prev.value <= total)
      && (b.next.Some? ==> 1 <= b.next.value <= total)
  {
    Buttons(
      if current == 1 then None else Some(current - 1),
      if current == total then None else Some(current + 1))
  }

  /** The three windows of the component on ten pages. */
  lemma TenPageWindows()
    ensures PageLabels(1, 10) ==
      [Number(1), Number(2), Number(3), Number(4), Number(5), Ellipsis, Number(10)]
    ensures PageLabels(9, 10) ==
      [Number(1), Ellipsis, Number(6), Number(7), Number(8), Number(9), Number(10)]
    ensures PageLabels(5, 10) ==
      [Number(1), Ellipsis, Number(4), Number(5), Number(6), Ellipsis, Number(10)]
    ensures PageLabels(3, 5) == [Number(1), Number(2), Number(3), Number(4), Number(5)]
  {
    assert Run(1, 5) == [Number(1), Number(2), Number(3), Number(4), Number(5)];
  }
}
