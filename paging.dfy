/**
 * Pagination shared by the listings: a LIMIT/OFFSET window over an ordered
 * result, the page window `(pageNumber - 1) * pageSize`, the page count
 * `Math.ceil(totalCount / pageSize)`, and the paginated envelope.
 */
module Paging {

  /** The envelope `{ pagesCount, page, pageSize, totalCount, items }`. */
  datatype Paginated<T> = Paginated(pagesCount: int, page: int, pageSize: int, totalCount: int, items: seq<T>)

  function Min(a: int, b: int): int
  {
    if a <= b then a else b
  }

  /** `LIMIT limit OFFSET offset`: at most `limit` consecutive rows, starting at `offset`. */
  function Page<T>(s: seq<T>, offset: nat, limit: nat): (r: seq<T>)
    ensures |r| == if offset >= |s| then 0 else Min(limit, |s| - offset)
    ensures forall i :: 0 <= i < |r| ==> offset + i < |s| && r[i] == s[offset + i]
  {
    if offset >= |s| then [] else s[offset..offset + Min(limit, |s| - offset)]
  }

  /** Page `pageNumber` (counted from 1) of `pageSize` rows: offset `(pageNumber - 1) * pageSize`. */
  function PageWindow<T>(s: seq<T>, pageSize: nat, pageNumber: nat): seq<T>
    requires pageNumber >= 1
  {
    Page(s, (pageNumber - 1) * pageSize, pageSize)
  }

  /** Pages 1 to n, one after the other. */
  function Pages<T>(s: seq<T>, pageSize: nat, n: nat): seq<T>
  {
    if n == 0 then [] else Pages(s, pageSize, n - 1) + PageWindow(s, pageSize, n)
  }

  /** The first n pages tile the start of the result: no row is skipped or repeated. */
  lemma {:induction false} PagesTile<T>(s: seq<T>, pageSize: nat, n: nat)
    ensures Pages(s, pageSize, n) == s[..Min(n * pageSize, |s|)]
  {
    if n > 0 {
      PagesTile(s, pageSize, n - 1);
      var offset := (n - 1) * pageSize;
      assert n * pageSize == offset + pageSize;
      PageSlice(s, offset, pageSize);
      var before := Min(offset, |s|);
      var after := Min(offset + pageSize, |s|);
      assert s[..after] == s[..before] + s[before..after];
    }
  }

  /** A LIMIT/OFFSET window is the slice between the two clamped bounds. */
  lemma PageSlice<T>(s: seq<T>, offset: nat, limit: nat)
    ensures Page(s, offset, limit) == s[Min(offset, |s|)..Min(offset + limit, |s|)]
  {
  }

  /** Row i is on page `i / pageSize + 1`, at position `i % pageSize`. */
  lemma RowOnItsPage<T>(s: seq<T>, pageSize: nat, i: nat)
    requires pageSize > 0 && i < |s|
    ensures i % pageSize < |PageWindow(s, pageSize, i / pageSize + 1)|
    ensures PageWindow(s, pageSize, i / pageSize + 1)[i % pageSize] == s[i]
  {
    assert (i / pageSize) * pageSize + i % pageSize == i;
  }

  /** `Math.ceil(a / b)` for a count `a` and a positive page size `b`. */
  function CeilDiv(a: nat, b: nat): (r: nat)
    requires b > 0
    ensures a <= r * b
    ensures r > 0 ==> (r - 1) * b < a
  {
    if a == 0 then 0 else 1 + CeilDiv(if a <= b then 0 else a - b, b)
  }

  /** The page count is the least number of pages that hold every row. */
  lemma {:induction false} CeilDivLeast(a: nat, b: nat, n: nat)
    requires b > 0 && a <= n * b
    ensures CeilDiv(a, b) <= n
  {
    if a > 0 {
      assert n != 0;
      assert (n - 1) * b == n * b - b;
      CeilDivLeast(if a <= b then 0 else a - b, b, n - 1);
    }
  }

  /**
   * With `pagesCount = Math.ceil(total / pageSize)`, the last page is not
   * empty and the page after it is.
   */
  lemma LastPage<T>(s: seq<T>, pageSize: nat)
    requires pageSize > 0 && |s| > 0
    ensures PageWindow(s, pageSize, CeilDiv(|s|, pageSize)) != []
    ensures PageWindow(s, pageSize, CeilDiv(|s|, pageSize) + 1) == []
  {
  }

  /**
   * The envelope of a post listing: an empty page reports no pages and no
   * posts; otherwise the total and the pages it fills.
   */
  function ListingEnvelope<T>(items: seq<T>, countPosts: nat, pageNumber: int, pageSize: nat): Paginated<T>
    requires pageSize > 0
  {
    if |items| == 0 then Paginated(0, pageNumber, pageSize, 0, items)
    else Paginated(CeilDiv(countPosts, pageSize), pageNumber, pageSize, countPosts, items)
  }

  /**
   * The envelope of a comment listing with no comments: as many pages as
   * the page asked for, and one comment fewer than that.
   */
  function EmptyCommentsEnvelope<T>(pageNumber: int, pageSize: int): Paginated<T>
  {
    Paginated(pageNumber, pageNumber, pageSize, pageNumber - 1, [])
  }
}
