/** Cutting a view into pages of six records: the page count of the
    pagination controls and the slice `displayUsers` renders. */
module Paging {

  const PageSize: nat := 6

  function Min(a: int, b: int): int
  {
    if a < b then a else b
  }

  /** `Math.ceil(n / 6)`: the fewest pages of six that hold `n` records;
      zero exactly when there are none. */
  function TotalPages(n: nat): (r: nat)
    ensures n <= r * PageSize
    ensures r > 0 ==> (r - 1) * PageSize < n
    ensures r == 0 <==> n == 0
  {
    (n + PageSize - 1) / PageSize
  }

  /** `s.slice(start, end)` for non-negative bounds: both are clipped to the
      length, and a start at or past the end gives nothing. */
  function JsSlice<T>(s: seq<T>, start: nat, end: nat): (r: seq<T>)
    ensures |r| == if start < Min(end, |s|) then Min(end, |s|) - start else 0
    ensures forall k :: 0 <= k < |r| ==> r[k] == s[start + k]
  {
    var hi := Min(end, |s|);
    if start < hi then s[start..hi] else []
  }

  /** Index in the view of the first record on the 1-based `page`. */
  function PageStart(page: nat): nat
    requires page >= 1
  {
    (page - 1) * PageSize
  }

  /** The records `displayUsers` renders for the 1-based `page`: at most six,
      the ones at positions PageStart(page), PageStart(page) + 1, ... of the
      view, and none for a page past the end. */
  function PageSlice<T>(users: seq<T>, page: nat): (r: seq<T>)
    requires page >= 1
    ensures |r| <= PageSize
    ensures |r| == if PageStart(page) < |users| then Min(PageSize, |users| - PageStart(page)) else 0
    ensures forall k :: 0 <= k < |r| ==> r[k] == users[PageStart(page) + k]
  {
    var start := PageStart(page);
    JsSlice(users, start, start + PageSize)
  }

  /** Every page before the last is full, the last holds one to six
      records, and any page after it is empty. */
  lemma PageSizes<T>(users: seq<T>, page: nat)
    requires page >= 1
    ensures page < TotalPages(|users|) ==> |PageSlice(users, page)| == PageSize
    ensures page == TotalPages(|users|) ==> 0 < |PageSlice(users, page)| <= PageSize
    ensures page > TotalPages(|users|) ==> PageSlice(users, page) == []
  {
    var n, t := |users|, TotalPages(|users|);
    if page < t {
      assert page * PageSize <= (t - 1) * PageSize;
    } else if page > t {
      assert t * PageSize <= (page - 1) * PageSize;
    }
  }

  /** Pages 1 to k, one after another. */
  function Pages<T>(users: seq<T>, k: nat): seq<T>
  {
    if k == 0 then [] else Pages(users, k - 1) + PageSlice(users, k)
  }

  /** The first k pages together are the first 6k records of the view. */
  lemma {:induction false} PagesArePrefix<T>(users: seq<T>, k: nat)
    ensures Pages(users, k) == users[..Min(k * PageSize, |users|)]
  {
    if k > 0 {
      PagesArePrefix(users, k - 1);
      var lo, hi := Min((k - 1) * PageSize, |users|), Min(k * PageSize, |users|);
      assert users[..hi] == users[..lo] + users[lo..hi];
      assert PageSlice(users, k) == users[lo..hi];
    }
  }

  /** Pages 1 to TotalPages, in order, put the view back together. */
  lemma PagesReassemble<T>(users: seq<T>)
    ensures Pages(users, TotalPages(|users|)) == users
  {
    PagesArePrefix(users, TotalPages(|users|));
  }
}
