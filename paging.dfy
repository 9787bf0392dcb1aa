/** PagedResult and PagedQuery: page arithmetic over C# `int` (System.Int32),
    whose arithmetic is unchecked, i.e. wraps around modulo 2^32. */
module Paging {

  type Int32 = x: int | -0x8000_0000 <= x < 0x8000_0000

  /** The Int32 an unchecked operation yields for the exact result x. */
  function Wrap32(x: int): (r: Int32)
    ensures -0x8000_0000 <= x < 0x8000_0000 ==> r == x
    ensures (x - r) % 0x1_0000_0000 == 0
  {
    (x + 0x8000_0000) % 0x1_0000_0000 - 0x8000_0000
  }

  /** The ceiling of t / p; (int)Math.Ceiling((double)t / p) computes it
      exactly for Int32 operands, since the double quotient never rounds
      across an integer. */
  function CeilDiv(t: int, p: int): (q: int)
    requires p != 0
    ensures p > 0 ==> (q - 1) * p < t <= q * p
    ensures p < 0 ==> q * p <= t < (q - 1) * p
  {
    if p > 0 then -((-t) / p) else -(t / -p)
  }

  datatype PagedResult<T> = PagedResult(data: seq<T>, page: Int32, pageSize: Int32, totalCount: Int32)
  {
    /** The number of pages needed for totalCount items. */
    function TotalPages(): int
      requires pageSize != 0
    {
      CeilDiv(totalCount, pageSize)
    }

    predicate HasNextPage()
      requires pageSize != 0
    {
      page < TotalPages()
    }

    predicate HasPreviousPage()
    {
      page > 1
    }
  }

  /** With positive page size and a count that is not negative: TotalPages
      pages of pageSize hold every item, one page fewer does not, so there
      are no pages exactly when there are no items; there is a next page
      exactly when some item lies beyond the current page, and a previous
      page exactly when the page is past the first. */
  lemma PageBounds<T>(r: PagedResult<T>)
    requires r.pageSize > 0 && r.totalCount >= 0
    ensures (r.TotalPages() - 1) * r.pageSize < r.totalCount <= r.TotalPages() * r.pageSize
    ensures r.TotalPages() >= 0 && (r.TotalPages() == 0 <==> r.totalCount == 0)
    ensures r.HasNextPage() <==> r.page * r.pageSize < r.totalCount
    ensures r.HasPreviousPage() <==> r.page >= 2
  {
    var n, p, t := r.TotalPages(), r.pageSize as int, r.totalCount as int;
    var g := r.page as int;
    if n < 0 {
      MulMonotone(n, -1, p);
    } else if n > 0 {
      MulMonotone(1, n, p);
    }
    if g < n {
      MulMonotone(g, n - 1, p);
    } else {
      MulMonotone(n, g, p);
    }
  }

  /** Multiplying by a positive number keeps the order. */
  lemma {:induction false} MulMonotone(a: int, b: int, p: int)
    requires a <= b && p > 0
    ensures a * p <= b * p
    decreases b - a
  {
    if a < b {
      MulMonotone(a, b - 1, p);
      assert b * p == (b - 1) * p + p;
    }
  }

  /** Defaults: page 1, ten per page. */
  const DefaultPage: Int32 := 1
  const DefaultPageSize: Int32 := 10
  const MaxPageSize: Int32 := 100

  /** The page and page size Validate leaves behind. */
  function Validated(page: Int32, pageSize: Int32): (r: (Int32, Int32))
    ensures 1 <= r.0 && 1 <= r.1 <= MaxPageSize
    ensures r.0 == if page < 1 then DefaultPage else page
    ensures r.1 == if pageSize < 1 then DefaultPageSize else if pageSize > MaxPageSize then MaxPageSize else pageSize
  {
    var p := if page < 1 then DefaultPage else page;
    var s := if pageSize < 1 then DefaultPageSize else pageSize;
    (p, if s > MaxPageSize then MaxPageSize else s)
  }

  /** Validating twice is validating once. */
  lemma ValidateIdempotent(page: Int32, pageSize: Int32)
    ensures Validated(Validated(page, pageSize).0, Validated(page, pageSize).1) == Validated(page, pageSize)
  {
  }

  /** Skip as written: (Page - 1) * PageSize, both steps in unchecked Int32. */
  function SkipOf(page: Int32, pageSize: Int32): (r: Int32)
    ensures var exact := (page as int - 1) * (pageSize as int);
      -0x8000_0000 <= exact < 0x8000_0000 ==> r == exact
  {
    Wrap32(Wrap32(page - 1) * pageSize)
  }

  /** Validate bounds the page size but not the page, so Skip can still
      overflow: page Int32.MaxValue with page size 100 skips -200 items. */
  lemma SkipOverflowsAfterValidate()
    ensures Validated(0x7FFF_FFFF, 100) == (0x7FFF_FFFF, 100)
    ensures SkipOf(0x7FFF_FFFF, 100) == -200
  {
    assert Wrap32(0x7FFF_FFFF - 1) == 0x7FFF_FFFE;
    assert 0x7FFF_FFFE * 100 == 214748364600;
  }

  /** The long (System.Int64) an unchecked operation yields for the exact result x. */
  function Wrap64(x: int): (r: int)
    ensures -0x8000_0000_0000_0000 <= x < 0x8000_0000_0000_0000 ==> r == x
  {
    (x + 0x8000_0000_0000_0000) % 0x1_0000_0000_0000_0000 - 0x8000_0000_0000_0000
  }

  /** Skip computed in 64-bit arithmetic (`(long)(Page - 1) * PageSize`),
      which cannot overflow for Int32 operands. */
  function SkipWide(page: Int32, pageSize: Int32): (r: int)
    ensures r == (page as int - 1) * (pageSize as int)
    ensures page >= 1 && pageSize >= 1 ==> r >= 0
  {
    var wide := (page as int - 1) * (pageSize as int);
    MulBound(page as int - 1, pageSize as int);
    assert page >= 1 && pageSize >= 1 ==> wide >= 0 by {
      if page >= 1 && pageSize >= 1 {
        MulMonotone(0, page as int - 1, pageSize as int);
      }
    }
    Wrap64(wide)
  }

  lemma MulBound(a: int, b: int)
    requires -0x8000_0001 <= a < 0x8000_0000 && -0x8000_0000 <= b < 0x8000_0000
    ensures -0x8000_0000_0000_0000 <= a * b < 0x8000_0000_0000_0000
  {
    var ua := if a < 0 then -a else a;
    var ub := if b < 0 then -b else b;
    if ub > 0 {
      MulMonotone(ua, 0x8000_0001, ub);
      MulMonotone(ub, 0x8000_0000, 0x8000_0001);
    }
    assert ua * ub <= 0x8000_0001 * 0x8000_0000;
    assert a * b == ua * ub || a * b == -(ua * ub);
  }

  /** After Validate the corrected Skip never goes negative and stays
      below (Int32.MaxValue - 1) * 100 items. */
  lemma ValidatedSkip(page: Int32, pageSize: Int32)
    ensures var v := Validated(page, pageSize);
      0 <= SkipWide(v.0, v.1) <= 0x7FFF_FFFE * MaxPageSize
  {
    var v := Validated(page, pageSize);
    var k, s := v.0 as int - 1, v.1 as int;
    assert SkipWide(v.0, v.1) == k * s;
    if k > 0 {
      MulMonotone(0, k, s);
      MulMonotone(s, 100, k);
      MulMonotone(k, 0x7FFF_FFFE, 100);
      assert k * s == s * k <= 100 * k == k * 100 <= 0x7FFF_FFFE * 100;
    }
  }

  class PagedQuery {
    var page: Int32
    var pageSize: Int32

    constructor ()
      ensures page == DefaultPage && pageSize == DefaultPageSize
    {
      page := DefaultPage;
      pageSize := DefaultPageSize;
    }

    /** The Skip property as written. */
    function Skip(): Int32
      reads this
    {
      SkipOf(page, pageSize)
    }

    method Validate()
      modifies this
      ensures (page, pageSize) == Validated(old(page), old(pageSize))
      ensures 1 <= page && 1 <= pageSize <= MaxPageSize
      ensures old(1 <= page && 1 <= pageSize <= MaxPageSize) ==> unchanged(this)
    {
      if page < 1 { page := 1; }
      if pageSize < 1 { pageSize := 10; }
      if pageSize > 100 { pageSize := 100; }
    }
  }
}
