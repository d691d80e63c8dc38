/** Pagination arithmetic of pkg/utils/pagination.go: query defaults, the row offset,
    and the page metadata returned with a listing. Go's 64-bit `int` is explicit where
    it can overflow; `math.Ceil` of a float quotient becomes exact ceiling division. */
module Paging {
  import opened Response
  import opened Strconv

  datatype PaginationParams = PaginationParams(page: int, size: int, sort: string, order: string, search: string)

  /** The bounds the struct tags declare; nothing in the code enforces them. */
  predicate DeclaredBounds(p: PaginationParams) {
    p.page >= 1 && 1 <= p.size <= 100 && (p.order == "asc" || p.order == "desc")
  }

  /** Two's-complement wrap-around of a 64-bit signed result. */
  function Wrap64(x: int): (r: int)
    ensures MinInt64 <= r <= MaxInt64
    ensures MinInt64 <= x <= MaxInt64 ==> r == x
    ensures (x - r) % TwoTo64 == 0
  {
    (x - MinInt64) % TwoTo64 + MinInt64
  }

  /** Number of rows before the requested page. */
  function Offset(p: PaginationParams): (r: int)
    ensures MinInt64 <= r <= MaxInt64
    ensures p.page == 1 ==> r == 0
    ensures MinInt64 <= (p.page - 1) * p.size <= MaxInt64 ==> r == (p.page - 1) * p.size
  {
    Wrap64((p.page - 1) * p.size)
  }

  /** For a positive page and size without overflow, the offset is a whole number of
      pages: dividing it by the size recovers the page, and the next page starts
      exactly one size further on. */
  lemma OffsetLocatesPage(p: PaginationParams)
    requires p.page >= 1 && p.size > 0 && p.page * p.size <= MaxInt64
    ensures Offset(p) >= 0 && Offset(p) % p.size == 0 && Offset(p) / p.size == p.page - 1
    ensures Offset(p.(page := p.page + 1)) == Offset(p) + p.size
  {
    var k, s := p.page - 1, p.size;
    LemmaMulSub(p.page, 1, s);
    LemmaMulMono(0, k, s);
    assert 0 <= k * s <= p.page * s;
    assert Offset(p) == k * s;
    assert Offset(p.(page := p.page + 1)) == p.page * s;
    LemmaMultipleDiv(k, s);
  }

  lemma LemmaMultipleDiv(k: nat, s: int)
    requires s > 0
    ensures (k * s) / s == k && (k * s) % s == 0
  {
    var q, m := (k * s) / s, (k * s) % s;
    assert k * s == q * s + m && 0 <= m < s;
    assert (k - q) * s == m by { LemmaMulSub(k, q, s); }
    if k - q >= 1 {
      LemmaMulMono(1, k - q, s);
    } else if k - q <= -1 {
      LemmaMulMono(k - q, -1, s);
    }
  }

  lemma LemmaMulSub(x: int, y: int, s: int)
    ensures (x - y) * s == x * s - y * s
  {
  }

  /** Fills in the zero value of each field; every other value, negative ones
      included, is kept, and `search` is never touched. */
  function WithDefaults(p: PaginationParams): (q: PaginationParams)
    ensures q.page == (if p.page == 0 then 1 else p.page)
    ensures q.size == (if p.size == 0 then 10 else p.size)
    ensures q.sort == (if p.sort == "" then "id" else p.sort)
    ensures q.order == (if p.order == "" then "asc" else p.order)
    ensures q.search == p.search
  {
    var page := if p.page == 0 then 1 else p.page;
    var size := if p.size == 0 then 10 else p.size;
    var sort := if p.sort == "" then "id" else p.sort;
    var order := if p.order == "" then "asc" else p.order;
    PaginationParams(page, size, sort, order, p.search)
  }

  /** Defaulting twice is defaulting once; defaulted fields are never zero. */
  lemma WithDefaultsIdempotent(p: PaginationParams)
    ensures WithDefaults(WithDefaults(p)) == WithDefaults(p)
    ensures WithDefaults(p).page != 0 && WithDefaults(p).size != 0
    ensures WithDefaults(p).sort != "" && WithDefaults(p).order != ""
  {
  }

  /** Defaults bring an all-empty query inside the declared bounds but do not enforce
      them: an oversized page size and an unknown order pass through unchanged. */
  lemma DefaultsDoNotEnforceBounds()
    ensures DeclaredBounds(WithDefaults(PaginationParams(0, 0, "", "", "")))
    ensures var p := PaginationParams(-3, 500, "title", "sideways", "");
      WithDefaults(p) == p && !DeclaredBounds(WithDefaults(p))
  {
  }

  /** Ceiling of the rational quotient a/b, for either sign of b. */
  function CeilDiv(a: int, b: int): (q: int)
    requires b != 0
    ensures b > 0 ==> (q - 1) * b < a <= q * b
    ensures b < 0 ==> q * b <= a < (q - 1) * b
  {
    if b > 0 then
      var d := (-a) / b;
      CeilDivPositive(a, b, d);
      -d
    else
      var d := a / (-b);
      CeilDivNegative(a, b, d);
      -d
  }

  lemma CeilDivPositive(a: int, b: int, d: int)
    requires b > 0 && d == (-a) / b
    ensures (-d - 1) * b < a <= (-d) * b
  {
    var m := (-a) % b;
    assert -a == d * b + m && 0 <= m < b;
    LemmaMulSub(0, d, b);
    LemmaMulSub(-d, 1, b);
  }

  lemma CeilDivNegative(a: int, b: int, d: int)
    requires b < 0 && d == a / (-b)
    ensures (-d) * b <= a < (-d - 1) * b
  {
    var c := -b;
    var m := a % c;
    assert a == d * c + m && 0 <= m < c;
    assert (-d) * b == d * c;
    LemmaMulSub(-d, 1, b);
  }

  /** The metadata of a listing. The caller ensures size is not zero (the services
      always apply `WithDefaults` first). */
  function CalculatePagination(page: int, size: int, total: nat): (r: Pagination)
    requires size != 0
    ensures r.page == page && r.size == size && r.total == total
    ensures r.totalPages == CeilDiv(total, size)
    ensures r.hasNext <==> page < r.totalPages
    ensures r.hasPrev <==> page > 1
  {
    var totalPages := CeilDiv(total, size);
    Pagination(page, size, total, totalPages, page < totalPages, page > 1)
  }

  /** With a positive size the page count is the least number of pages that holds
      every row. */
  lemma {:induction false} TotalPagesIsLeastCover(page: int, size: int, total: nat, k: int)
    requires size > 0
    ensures var r := CalculatePagination(page, size, total);
      r.totalPages >= 0 && r.totalPages * size >= total && (k * size >= total ==> k >= r.totalPages)
  {
    var n := CalculatePagination(page, size, total).totalPages;
    if k * size >= total && k < n {
      assert k <= n - 1;
      LemmaMulMono(k, n - 1, size);
    }
  }

  lemma LemmaMulMono(x: int, y: int, s: int)
    requires x <= y && s > 0
    ensures x * s <= y * s
  {
    assert y * s - x * s == (y - x) * s;
  }

  /** With a positive size, a next page is announced exactly when rows remain after
      the current page, and a previous one exactly when the current page starts past
      the first row. */
  lemma {:induction false} NeighboursMatchRows(p: PaginationParams, total: nat)
    requires p.size > 0 && p.page >= 1 && p.page * p.size <= MaxInt64
    ensures CalculatePagination(p.page, p.size, total).hasNext <==> p.page * p.size < total
    ensures CalculatePagination(p.page, p.size, total).hasPrev <==> Offset(p) > 0
  {
    var n := CalculatePagination(p.page, p.size, total).totalPages;
    if p.page < n {
      LemmaMulMono(p.page, n - 1, p.size);
    }
    if p.page * p.size < total {
      TotalPagesIsLeastCover(p.page, p.size, total, p.page);
      if p.page >= n {
        LemmaMulMono(n, p.page, p.size);
      }
    }
    OffsetLocatesPage(p);
    if p.page > 1 {
      LemmaMulMono(1, p.page - 1, p.size);
    }
  }

  /** No rows means no pages and no next page, for any non-negative page; a negative
      page (which the book listing lets through) still announces a next page. */
  lemma EmptyListing(page: int, size: int)
    requires size != 0
    ensures page >= 0 ==> CalculatePagination(page, size, 0).totalPages == 0
    ensures page >= 0 ==> !CalculatePagination(page, size, 0).hasNext
    ensures CalculatePagination(-1, 10, 0).hasNext
  {
  }
}
