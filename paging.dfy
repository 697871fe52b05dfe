/** PaginatedResponse<T> and the Skip((pageNumber - 1) * pageSize).Take(pageSize)
    paging that every list query applies in the database. */
module Paging {
  import opened Wrappers
  import opened Ordering

  /** PaginatedResponse<T>: the page, its coordinates and the totals. */
  datatype Paginated<T> = Paginated(
    items: seq<T>,
    pageNumber: int,
    pageSize: int,
    totalPages: int,
    totalCount: nat)
  {
    predicate HasPreviousPage() { pageNumber > 1 }
    predicate HasNextPage() { pageNumber < totalPages }
  }

  /** (int)Math.Ceiling(totalCount / (double)pageSize): the fewest pages of
      pageSize items that hold totalCount items. */
  function TotalPages(totalCount: nat, pageSize: int): (r: nat)
    requires pageSize > 0
    ensures totalCount <= r * pageSize
    ensures r == 0 || (r - 1) * pageSize < totalCount
  {
    (totalCount + pageSize - 1) / pageSize
  }

  /** PaginatedResponse<T>.Create. */
  function Create<T>(items: seq<T>, totalCount: nat, pageNumber: int, pageSize: int): (r: Paginated<T>)
    requires pageSize > 0
    ensures r.items == items && r.totalCount == totalCount
    ensures r.pageNumber == pageNumber && r.pageSize == pageSize
    ensures r.totalCount <= r.totalPages * pageSize
    ensures r.totalPages == 0 || (r.totalPages - 1) * pageSize < totalCount
  {
    Paginated(items, pageNumber, pageSize, TotalPages(totalCount, pageSize), totalCount)
  }

  /** There is a next page exactly when items remain after this one. */
  lemma HasNextPageIffMoreItems<T>(items: seq<T>, totalCount: nat, pageNumber: int, pageSize: int)
    requires pageSize > 0
    ensures Create(items, totalCount, pageNumber, pageSize).HasNextPage() <==> pageNumber * pageSize < totalCount
  {
    var n := TotalPages(totalCount, pageSize);
    if pageNumber < n {
      assert pageNumber * pageSize <= (n - 1) * pageSize;
    } else {
      assert pageNumber * pageSize >= n * pageSize;
    }
  }

  /** With no items, no page number from 0 on has a next page. */
  lemma EmptyHasNoNextPage<T>(items: seq<T>, pageNumber: int, pageSize: int)
    requires pageSize > 0 && pageNumber >= 0
    ensures !Create(items, 0, pageNumber, pageSize).HasNextPage()
  {
    HasNextPageIffMoreItems(items, 0, pageNumber, pageSize);
  }

  /** The rows a query refuses to run for: PostgreSQL rejects a negative
      OFFSET (checked first) or LIMIT. */
  datatype QueryError = NegativeOffset | NegativeLimit

  /** The offset of a page, (pageNumber - 1) * pageSize, in unbounded integers. */
  function PageOffset(pageNumber: int, pageSize: int): int {
    (pageNumber - 1) * pageSize
  }

  function Min(a: int, b: int): int { if a <= b then a else b }

  /** Rows [offset, offset + limit) of s, cut at its end. */
  function Window<T>(s: seq<T>, offset: nat, limit: nat): (r: seq<T>)
    ensures |r| <= limit
    ensures r == s[Min(offset, |s|)..Min(offset + limit, |s|)]
  {
    s[Min(offset, |s|)..Min(offset + limit, |s|)]
  }

  /** OFFSET offset LIMIT limit. */
  function Offset<T>(s: seq<T>, offset: int, limit: int): (r: Result<seq<T>, QueryError>)
    ensures r.Ok? <==> offset >= 0 && limit >= 0
    ensures offset < 0 ==> r == Err(NegativeOffset)
    ensures r.Ok? ==> |r.value| <= limit && r.value == s[Min(offset, |s|)..Min(offset + limit, |s|)]
  {
    if offset < 0 then Err(NegativeOffset)
    else if limit < 0 then Err(NegativeLimit)
    else Ok(Window(s, offset, limit))
  }

  /** LIMIT limit alone. */
  function Limit<T>(s: seq<T>, limit: int): (r: Result<seq<T>, QueryError>)
    ensures r.Ok? <==> limit >= 0
    ensures r.Ok? ==> r.value == s[..Min(limit, |s|)]
  {
    Offset(s, 0, limit)
  }

  /** .Skip((pageNumber - 1) * pageSize).Take(pageSize) run by the database. */
  function Page<T>(s: seq<T>, pageNumber: int, pageSize: int): (r: Result<seq<T>, QueryError>)
    ensures r.Ok? <==> PageOffset(pageNumber, pageSize) >= 0 && pageSize >= 0
    ensures r.Ok? ==> |r.value| <= pageSize
  {
    Offset(s, PageOffset(pageNumber, pageSize), pageSize)
  }

  /** Page numbers 1, 2, ... of a positive size are all accepted. */
  lemma PageAccepted<T>(s: seq<T>, pageNumber: int, pageSize: int)
    requires pageNumber >= 1 && pageSize >= 1
    ensures Page(s, pageNumber, pageSize).Ok?
  {
    assert PageOffset(pageNumber, pageSize) >= 0;
  }

  /** Pages 1 to k laid end to end. */
  function PagesUpTo<T>(s: seq<T>, pageSize: nat, k: nat): seq<T>
  {
    if k == 0 then [] else PagesUpTo(s, pageSize, k - 1) + Window(s, (k - 1) * pageSize, pageSize)
  }

  lemma {:induction false} PagesUpToIsPrefix<T>(s: seq<T>, pageSize: nat, k: nat)
    ensures PagesUpTo(s, pageSize, k) == s[..Min(k * pageSize, |s|)]
  {
    if k > 0 {
      PagesUpToIsPrefix(s, pageSize, k - 1);
      assert (k - 1) * pageSize + pageSize == k * pageSize;
      assert (k - 1) * pageSize <= k * pageSize;
      var a, b := Min((k - 1) * pageSize, |s|), Min(k * pageSize, |s|);
      assert s[..a] + s[a..b] == s[..b];
    }
  }

  /** Reading pages 1 to TotalPages returns every row once, in order. */
  lemma PagesCover<T>(s: seq<T>, pageSize: int)
    requires pageSize > 0
    ensures PagesUpTo(s, pageSize, TotalPages(|s|, pageSize)) == s
  {
    PagesUpToIsPrefix(s, pageSize, TotalPages(|s|, pageSize));
  }

  lemma MulLe(a: int, b: int, c: nat)
    requires a <= b
    ensures a * c <= b * c
  {
    assert b * c - a * c == (b - a) * c;
  }

  /** A page from 1 on holds rows exactly when its number is at most TotalPages. */
  lemma NonEmptyPagesAreCounted<T>(s: seq<T>, pageNumber: int, pageSize: int)
    requires pageNumber >= 1 && pageSize > 0
    ensures Page(s, pageNumber, pageSize).Ok?
    ensures |Page(s, pageNumber, pageSize).value| > 0 <==> pageNumber <= TotalPages(|s|, pageSize)
  {
    PageAccepted(s, pageNumber, pageSize);
    var n := TotalPages(|s|, pageSize);
    var offset := PageOffset(pageNumber, pageSize);
    var page := Page(s, pageNumber, pageSize).value;
    assert page == s[Min(offset, |s|)..Min(offset + pageSize, |s|)];
    if pageNumber <= n {
      MulLe(pageNumber - 1, n - 1, pageSize);
      assert offset < |s|;
    } else {
      MulLe(n, pageNumber - 1, pageSize);
      assert offset >= |s|;
    }
  }

  // ---------------------------------------------------------------------
  // The offset as the services compute it: in C# int, unchecked.

  const TwoTo32: int := 0x1_0000_0000

  predicate IsInt32(x: int) { -0x8000_0000 <= x < 0x8000_0000 }

  /** Two's-complement wrap-around of an int result. */
  function Wrap32(x: int): (r: int)
    ensures IsInt32(r)
    ensures (x - r) % TwoTo32 == 0
    ensures IsInt32(x) ==> r == x
  {
    (x + 0x8000_0000) % TwoTo32 - 0x8000_0000
  }

  /** (pageNumber - 1) * pageSize evaluated in 32-bit int arithmetic. */
  function Int32PageOffset(pageNumber: int, pageSize: int): (r: int)
    requires IsInt32(pageNumber) && IsInt32(pageSize)
    ensures IsInt32(r)
  {
    Wrap32(Wrap32(pageNumber - 1) * pageSize)
  }

  /** The page the services actually request. */
  function Int32Page<T>(s: seq<T>, pageNumber: int, pageSize: int): Result<seq<T>, QueryError>
    requires IsInt32(pageNumber) && IsInt32(pageSize)
  {
    Offset(s, Int32PageOffset(pageNumber, pageSize), pageSize)
  }

  /** With 100 rows per page, page 42949674 lies past the end of any table of
      fewer than 4294967300 rows, but the wrapped offset is 4, so rows 4 to 103
      come back as if they were that page. */
  lemma Int32OffsetWrapsToAnEarlierPage(s: seq<int>)
    requires |s| == 200
    ensures PageOffset(42949674, 100) == 4294967300
    ensures Int32PageOffset(42949674, 100) == 4
    ensures Int32Page(s, 42949674, 100) == Ok(s[4..104])
    ensures Page(s, 42949674, 100) == Ok([])
  {
  }

  /** Offsets that fit in an int are computed without wrapping. */
  lemma Int32OffsetAgreesWhenInRange(pageNumber: int, pageSize: int)
    requires IsInt32(pageNumber) && IsInt32(pageSize)
    requires IsInt32(pageNumber - 1) && IsInt32(PageOffset(pageNumber, pageSize))
    ensures Int32PageOffset(pageNumber, pageSize) == PageOffset(pageNumber, pageSize)
  {
  }

  /** A page of rows sorted by a key is itself in key order, and every row
      on it is one of the rows queried. */
  lemma SortedPage<T>(s: seq<T>, key: T -> Key, descending: bool, pageNumber: int, pageSize: int)
    requires Page(SortBy(s, key, descending), pageNumber, pageSize).Ok?
    ensures Ordered(Page(SortBy(s, key, descending), pageNumber, pageSize).value, key, descending)
    ensures forall x :: x in Page(SortBy(s, key, descending), pageNumber, pageSize).value ==> x in s
  {
    var sorted := SortBy(s, key, descending);
    SortByOrdered(s, key, descending);
    var offset := PageOffset(pageNumber, pageSize);
    SliceOrdered(sorted, key, descending, Min(offset, |sorted|), Min(offset + pageSize, |sorted|));
    forall x | x in Page(sorted, pageNumber, pageSize).value ensures x in s {
      assert x in multiset(sorted);
    }
  }
}
