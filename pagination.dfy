/** The dashboard's paging: the filtered list is cut into pages of five rows,
    page `p` (counted from 1) being `list.slice((p - 1) * 5, p * 5)`, and the
    number of pages is `Math.ceil(list.length / 5)`. */
module Pagination {

  /** Rows per page. */
  const PageSize: nat := 5

  function Min(a: int, b: int): int {
    if a <= b then a else b
  }

  /** The position `Array.prototype.slice` reads a relative index `rel` as,
      in a list of length `len`: a negative index counts back from the end,
      and the result is clamped to `[0, len]`. */
  function SliceIndex(rel: int, len: nat): (k: nat)
    ensures k <= len
    ensures 0 <= rel ==> k == Min(rel, len)
    ensures rel < 0 && 0 <= len + rel ==> k == len + rel
    ensures len + rel < 0 ==> k == 0
  {
    if rel < 0 then (if len + rel < 0 then 0 else len + rel) else Min(rel, len)
  }

  /** `s.slice(start, end)`: the entries from the resolved `start` up to the
      resolved `end`, or none when `end` does not lie past `start`. */
  function Slice<T>(s: seq<T>, start: int, end: int): (r: seq<T>)
    ensures |r| <= |s|
    ensures 0 <= start <= end ==> r == s[Min(start, |s|)..Min(end, |s|)]
  {
    var a := SliceIndex(start, |s|);
    var b := SliceIndex(end, |s|);
    if a < b then s[a..b] else []
  }

  /** The memoised `paginatedList`: the rows shown on page `page`. For every
      page from 1 on it is the window of at most five entries starting at
      `(page - 1) * 5`. */
  function PageOf<T>(list: seq<T>, page: int): (r: seq<T>)
    ensures |r| <= PageSize
    ensures page >= 1 ==>
      r == list[Min((page - 1) * PageSize, |list|)..Min(page * PageSize, |list|)]
    ensures page == 0 ==> r == []
  {
    Slice(list, (page - 1) * PageSize, page * PageSize)
  }

  /** The memoised `totalPages`, `Math.ceil(n / 5)`: the least number of pages
      of five rows that hold `n` rows; it is 0 exactly when there are none. */
  function PageCount(n: nat): (r: nat)
    ensures r * PageSize >= n
    ensures r > 0 ==> (r - 1) * PageSize < n
    ensures r == 0 <==> n == 0
  {
    (n + PageSize - 1) / PageSize
  }

  /** Every page before the last one is full. */
  lemma PagesBeforeLastAreFull<T>(list: seq<T>, page: int)
    requires 1 <= page < PageCount(|list|)
    ensures |PageOf(list, page)| == PageSize
  {
  }

  /** The last page holds what the full pages before it leave over: between one
      and five rows. */
  lemma LastPageHoldsTheRest<T>(list: seq<T>)
    requires PageCount(|list|) > 0
    ensures |PageOf(list, PageCount(|list|))| == |list| - (PageCount(|list|) - 1) * PageSize
    ensures 1 <= |PageOf(list, PageCount(|list|))| <= PageSize
  {
  }

  /** Every page from 1 to the page count shows at least one row. */
  lemma PagesInRangeAreNonEmpty<T>(list: seq<T>, page: int)
    requires 1 <= page <= PageCount(|list|)
    ensures PageOf(list, page) != []
  {
  }

  /** Every page past the page count is empty. */
  lemma PagesPastLastAreEmpty<T>(list: seq<T>, page: int)
    requires page > PageCount(|list|)
    ensures PageOf(list, page) == []
  {
  }

  /** Entry `i` of the list is shown on page `i / 5 + 1`, in row `i % 5`. */
  lemma EntryIsOnItsPage<T>(list: seq<T>, i: int)
    requires 0 <= i < |list|
    ensures 1 <= i / PageSize + 1 <= PageCount(|list|)
    ensures i % PageSize < |PageOf(list, i / PageSize + 1)|
    ensures PageOf(list, i / PageSize + 1)[i % PageSize] == list[i]
  {
  }

  /** Pages 1 to `k`, one after the other. */
  function PagesThrough<T>(list: seq<T>, k: nat): seq<T> {
    if k == 0 then [] else PagesThrough(list, k - 1) + PageOf(list, k)
  }

  /** Pages 1 to `k` together are the first `5 * k` entries of the list (all
      of it once `5 * k` reaches its length). */
  lemma {:induction false} PagesThroughArePrefix<T>(list: seq<T>, k: nat)
    ensures PagesThrough(list, k) == list[..Min(k * PageSize, |list|)]
  {
    if k > 0 {
      PagesThroughArePrefix(list, k - 1);
      var lo, hi := Min((k - 1) * PageSize, |list|), Min(k * PageSize, |list|);
      assert list[..lo] + list[lo..hi] == list[..hi];
    }
  }

  /** The pages from 1 to the page count tile the list: read in order they
      give back exactly the list. */
  lemma PagesTileTheList<T>(list: seq<T>)
    ensures PagesThrough(list, PageCount(|list|)) == list
  {
    PagesThroughArePrefix(list, PageCount(|list|));
  }
}
