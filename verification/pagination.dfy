/** Page numbers turned into offsets, on 64-bit integers, and the pages they cut out of a list. */
module Paginations {

  const MaxInt64: int := 0x7FFF_FFFF_FFFF_FFFF
  const TwoTo64: int := 0x1_0000_0000_0000_0000

  type Int64 = x: int | -MaxInt64 - 1 <= x <= MaxInt64

  /** The 64-bit value of x: overflow wraps around. */
  function Wrap(x: int): Int64
  {
    var r := x % TwoTo64;
    if r > MaxInt64 then r - TwoTo64 else r
  }

  const MaxPerPage: Int64 := 100
  const DefaultPerPage: Int64 := 50

  datatype OffsetPagination = OffsetPagination(offset: Int64, limit: Int64)

  function PageNumber(page: Int64): Int64 { if page > 0 then page else 1 }

  function PageSize(perPage: Int64): Int64
  {
    if perPage != 0 && 1 <= perPage then if perPage > MaxPerPage then MaxPerPage else perPage else DefaultPerPage
  }

  function ToPagination(page: Int64, perPage: Int64): OffsetPagination
  {
    OffsetPagination(Wrap(Wrap(PageNumber(page) - 1) * PageSize(perPage)), PageSize(perPage))
  }

  lemma WrapIff(x: int)
    ensures Wrap(x) == x <==> -MaxInt64 - 1 <= x <= MaxInt64
  {
  }

  /** The number of items on the pages before page k. */
  function Before(k: int, perPage: Int64): int { (k - 1) * PageSize(perPage) }

  lemma BeforeGrows(k: int, perPage: Int64)
    ensures Before(k + 1, perPage) == Before(k, perPage) + PageSize(perPage)
    ensures Before(1, perPage) == 0
    ensures k >= 1 ==> Before(k, perPage) >= 0
  {
  }

  lemma OffsetWraps(page: Int64, perPage: Int64)
    ensures ToPagination(page, perPage).offset == Wrap(Before(PageNumber(page), perPage))
  {
    WrapIff(PageNumber(page) - 1);
  }

  /** The limit is always from 1 to 100, and the offset is the number of items on the pages before
      exactly when this number is a 64-bit integer; then it is not negative. */
  lemma OffsetIsExactIff(page: Int64, perPage: Int64)
    ensures var p, before := ToPagination(page, perPage), Before(PageNumber(page), perPage);
      && 1 <= p.limit <= 100
      && (p.offset == before <==> before <= MaxInt64)
      && (before <= MaxInt64 ==> p.offset >= 0)
  {
    OffsetWraps(page, perPage);
    BeforeGrows(PageNumber(page), perPage);
    WrapIff(Before(PageNumber(page), perPage));
  }

  /** The limit is what was asked for from 1 to 100, at most 100, and 50 when nothing was asked for; a page
      number below 1 is page 1; and an offset that is not exact differs by a multiple of 2 to the 64. */
  lemma WhatIsAskedFor(page: Int64, perPage: Int64)
    ensures var p := ToPagination(page, perPage);
      && (perPage < 1 ==> p.limit == 50)
      && (1 <= perPage <= 100 ==> p.limit == perPage)
      && (perPage > 100 ==> p.limit == 100)
      && (page < 1 ==> p.offset == 0)
      && (page >= 1 ==> WrapsTo((page - 1) * p.limit, p.offset))
  {
    OffsetWraps(page, perPage);
    WrapIsCongruent(Before(PageNumber(page), perPage));
  }

  /** y is the 64-bit integer that differs from x by a multiple of 2 to the 64. */
  predicate WrapsTo(x: int, y: int)
  {
    && -0x8000_0000_0000_0000 <= y < 0x8000_0000_0000_0000
    && y % 0x1_0000_0000_0000_0000 == x % 0x1_0000_0000_0000_0000
  }

  lemma WrapIsCongruent(x: int)
    ensures WrapsTo(x, Wrap(x))
  {
  }

  /** The largest page number with full pages overflows to a negative offset. */
  lemma HugePageOverflows()
    ensures ToPagination(MaxInt64, 100).offset < 0
  {
  }

  // ----- the pages of a list

  function Min(a: int, b: int): int { if a < b then a else b }

  /** The items that a listing returns: the range is cut at the end of the list. */
  function Page<T>(items: seq<T>, p: OffsetPagination): seq<T>
    requires 0 <= p.offset && 0 <= p.limit
  {
    items[Min(p.offset, |items|)..Min(Min(p.offset, |items|) + p.limit, |items|)]
  }

  /** Page k exists in a list of n items: it starts within the list, or at its end. */
  predicate WithinList(n: nat, k: Int64, perPage: Int64) { 1 <= k && Before(k, perPage) <= n }

  lemma PageIsRange<T>(items: seq<T>, k: Int64, perPage: Int64)
    requires |items| <= MaxInt64 && WithinList(|items|, k, perPage)
    ensures ToPagination(k, perPage).offset >= 0
    ensures 0 <= Before(k, perPage) <= Min(Before(k + 1, perPage), |items|)
    ensures Page(items, ToPagination(k, perPage)) == items[Before(k, perPage)..Min(Before(k + 1, perPage), |items|)]
  {
    OffsetIsExactIff(k, perPage);
    BeforeGrows(k, perPage);
  }

  /** The pages 1 to k, one after the other. */
  function FirstPages<T>(items: seq<T>, k: Int64, perPage: Int64): seq<T>
    requires |items| <= MaxInt64 && 0 <= k && (k > 0 ==> WithinList(|items|, k, perPage))
    decreases k
  {
    if k == 0 then []
    else
      PageIsRange(items, k, perPage);
      BeforeGrows(k - 1, perPage);
      FirstPages(items, k - 1, perPage) + Page(items, ToPagination(k, perPage))
  }

  /** The first k pages are the first items of the list, without gap, overlap or repetition. */
  lemma {:induction false} PagesCutTheList<T>(items: seq<T>, k: Int64, perPage: Int64)
    requires |items| <= MaxInt64 && 0 <= k && (k > 0 ==> WithinList(|items|, k, perPage))
    ensures 0 <= Min(Before(k + 1, perPage), |items|)
    ensures FirstPages(items, k, perPage) == items[..Min(Before(k + 1, perPage), |items|)]
    decreases k
  {
    if k == 0 {
      BeforeGrows(1, perPage);
    } else {
      PageIsRange(items, k, perPage);
      BeforeGrows(k - 1, perPage);
      PagesCutTheList(items, k - 1, perPage);
      Adjacent(items, Before(k, perPage), Min(Before(k + 1, perPage), |items|));
    }
  }

  lemma Adjacent<T>(items: seq<T>, a: nat, b: nat)
    requires a <= b <= |items|
    ensures items[..a] + items[a..b] == items[..b]
  {
  }

  /** How many pages a list of n items has. */
  function PageCount(n: nat, perPage: Int64): (c: nat)
    ensures n <= Before(c + 1, perPage) && c <= n
    ensures n > 0 ==> c >= 1 && Before(c, perPage) < n
  {
    BeforeGrows(1, perPage);
    if n == 0 then 0
    else if n <= PageSize(perPage) then 1
    else
      var c := PageCount(n - PageSize(perPage), perPage);
      BeforeGrows(c, perPage);
      BeforeGrows(c + 1, perPage);
      c + 1
  }

  /** The pages up to the last make up the whole list. */
  lemma AllPagesMakeTheList<T>(items: seq<T>, perPage: Int64)
    requires 0 < |items| <= MaxInt64
    ensures var c := PageCount(|items|, perPage);
      c <= MaxInt64 && WithinList(|items|, c, perPage) && FirstPages(items, c, perPage) == items
  {
    PagesCutTheList(items, PageCount(|items|, perPage), perPage);
    assert items[..|items|] == items;
  }
}
