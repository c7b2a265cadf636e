/** Page-count and page-slice arithmetic of the listing screen: pages hold
    twelve users, are numbered from 1, and a page is taken with JavaScript's
    `Array.prototype.slice`. */
module Paging {

  /** Users per page. */
  const PageSize: nat := 12

  function Min(a: int, b: int): int {
    if a <= b then a else b
  }

  /** `Math.ceil(count / PageSize)`: the fewest pages that hold `count` users. */
  function TotalPages(count: nat): (r: nat)
    ensures r * PageSize >= count
    ensures r == 0 || (r - 1) * PageSize < count
    ensures r == 0 <==> count == 0
  {
    (count + PageSize - 1) / PageSize
  }

  /** How `slice` turns a (possibly negative) argument into an index:
      negative values count back from the end, and the result is clamped
      to `[0, len]`. */
  function SliceIndex(i: int, len: nat): (r: nat)
    ensures r <= len
  {
    if i < 0 then (if len + i < 0 then 0 else len + i)
    else if i > len then len
    else i
  }

  /** `s.slice(start, end)`. With non-negative arguments it is the part of
      `s` between the two, each cut back to the end of `s`. */
  function Slice<T>(s: seq<T>, start: int, end: int): (r: seq<T>)
    ensures |r| <= |s|
    ensures 0 <= start <= end ==> r == s[Min(start, |s|)..Min(end, |s|)]
    ensures 0 <= end <= start ==> r == []
  {
    var from, to := SliceIndex(start, |s|), SliceIndex(end, |s|);
    if from < to then s[from..to] else []
  }

  /** `slice` counts a negative argument back from the end of the list,
      and an argument reaching back past the beginning is the beginning. */
  lemma NegativeCountsFromEnd<T>(s: seq<T>, a: int, b: int)
    ensures a < 0 && -|s| <= a ==> Slice(s, a, b) == Slice(s, |s| + a, b)
    ensures a < -|s| ==> Slice(s, a, b) == Slice(s, 0, b)
    ensures b < 0 && -|s| <= b ==> Slice(s, a, b) == Slice(s, a, |s| + b)
    ensures b < -|s| ==> Slice(s, a, b) == Slice(s, a, 0)
  {
  }

  /** The first index of page `page`. */
  function StartIndex(page: int): int {
    (page - 1) * PageSize
  }

  /** `paginatedUsers`: the users shown on page `page` of `filtered`. The
      page number is not clamped. */
  function Page<T>(filtered: seq<T>, page: int): (r: seq<T>)
    ensures |r| <= PageSize
    ensures page >= 1 ==> (r == [] <==> StartIndex(page) >= |filtered|)
    ensures page >= 1 ==> (r != [] <==> page <= TotalPages(|filtered|))
    ensures 1 <= page <= TotalPages(|filtered|) ==>
      && |r| == Min(PageSize, |filtered| - StartIndex(page))
      && r == filtered[StartIndex(page)..StartIndex(page) + |r|]
  {
    Slice(filtered, StartIndex(page), StartIndex(page) + PageSize)
  }

  /** Pages `1..count` of `filtered`, joined in order. */
  function Joined<T>(filtered: seq<T>, count: nat): seq<T> {
    if count == 0 then [] else Joined(filtered, count - 1) + Page(filtered, count)
  }

  /** Joining the first `count` pages gives the prefix of `filtered` those
      pages cover. */
  lemma {:induction false} JoinedIsPrefix<T>(filtered: seq<T>, count: nat)
    ensures Joined(filtered, count) == filtered[..Min(count * PageSize, |filtered|)]
  {
    if count > 0 {
      JoinedIsPrefix(filtered, count - 1);
      var before := Min((count - 1) * PageSize, |filtered|);
      var after := Min(count * PageSize, |filtered|);
      assert Page(filtered, count) == filtered[before..after];
      assert filtered[..before] + filtered[before..after] == filtered[..after];
    }
  }

  /** The pages partition the filtered list: joining pages `1..TotalPages`
      gives back exactly the filtered list, with nothing lost, repeated or
      reordered. */
  lemma PagesPartition<T>(filtered: seq<T>)
    ensures Joined(filtered, TotalPages(|filtered|)) == filtered
  {
    JoinedIsPrefix(filtered, TotalPages(|filtered|));
  }

  /** Every user of the filtered list is on exactly one page: position `i`
      is entry `i % PageSize` of page `i / PageSize + 1`, and no other page
      holds position `i`. */
  lemma PageOfPosition<T>(filtered: seq<T>, i: nat)
    requires i < |filtered|
    ensures var p := i / PageSize + 1;
      && 1 <= p <= TotalPages(|filtered|)
      && StartIndex(p) + i % PageSize == i
      && Page(filtered, p)[i % PageSize] == filtered[i]
    ensures forall q :: q >= 1 && q != i / PageSize + 1 ==>
      !(StartIndex(q) <= i < StartIndex(q) + |Page(filtered, q)|)
  {
    var p := i / PageSize + 1;
    assert StartIndex(p) + i % PageSize == i;
    forall q | q >= 1 && q != p
      ensures !(StartIndex(q) <= i < StartIndex(q) + |Page(filtered, q)|)
    {
      if q < p {
        assert StartIndex(q) + PageSize <= StartIndex(p);
      } else {
        assert StartIndex(q) >= StartIndex(p) + PageSize;
      }
    }
  }

  /** An out-of-range page is empty rather than an error: past the last page
      the slice starts beyond the end of the list. */
  lemma PastLastPageIsEmpty<T>(filtered: seq<T>, page: int)
    requires page > TotalPages(|filtered|)
    ensures Page(filtered, page) == []
  {
  }

  /** A page number below 1 is not simply empty: `slice` counts negative
      arguments back from the end, so page -1 shows the second-to-last
      twelve entries. Only the invariant `currentPage >= 1` of the listing
      session keeps such pages out of view. */
  lemma NegativePageWrapsAround<T>(filtered: seq<T>)
    requires |filtered| >= 2 * PageSize
    ensures Page(filtered, -1) == filtered[|filtered| - 2 * PageSize..|filtered| - PageSize]
    ensures Page(filtered, -1) != []
  {
  }
}
