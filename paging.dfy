/** The pagination and ordering arithmetic of pkg/query/query.go: the page
    and page-size parameters with their defaults, the row offset, the
    " LIMIT <n> OFFSET <m>" suffix, the page metadata, and the ORDER BY text.
    Query parameters are a map from name to the list of values given. The
    database round trip of Paginate is not modelled. */
module Paging {
  import opened Wrappers
  import opened GoStrings

  /** url.Values */
  type Values = map<string, seq<string>>

  /** url.Values.Get: the first value, or "" when there is none. */
  function Get(q: Values, key: string): (v: string)
    ensures key in q && |q[key]| > 0 ==> v == q[key][0]
    ensures key !in q || |q[key]| == 0 ==> v == ""
  {
    if key in q && |q[key]| > 0 then q[key][0] else ""
  }

  /** A positive integer parameter: strconv.Atoi's result (its error
      ignored), replaced by `fallback` when it is not positive. */
  function PositiveParam(q: Values, key: string, fallback: int): (n: int)
    requires 1 <= fallback <= MaxInt64
    ensures n >= 1 && n <= MaxInt64
    ensures ParseInt(Get(q, key)).Success? && ParseInt(Get(q, key)).value > 0 ==> n == ParseInt(Get(q, key)).value
    ensures ParseInt(Get(q, key)).Success? && ParseInt(Get(q, key)).value <= 0 ==> n == fallback
    ensures ParseInt(Get(q, key)) == Failure(ErrSyntax) ==> n == fallback
    ensures ParseInt(Get(q, key)) == Failure(ErrRange) ==> n == if Negative(Get(q, key)) then fallback else MaxInt64
  {
    var v := AtoiValue(Get(q, key));
    if v <= 0 then fallback else v
  }

  /** The page number: "page", 1 by default. */
  function Page(q: Values): int
  {
    PositiveParam(q, "page", 1)
  }

  /** The page size: "pageSize", 10 by default. */
  function PageSize(q: Values): int
  {
    PositiveParam(q, "pageSize", 10)
  }

  /** The rows that come before page `page`. */
  function Offset(page: int, pageSize: int): (offset: int)
    requires page >= 1 && pageSize >= 1
    ensures offset >= 0
  {
    (page - 1) * pageSize
  }

  /** One page further on starts exactly one page of rows later, and the first page at row 0. */
  lemma OffsetStep(page: int, pageSize: int)
    requires page >= 1 && pageSize >= 1
    ensures Offset(1, pageSize) == 0
    ensures Offset(page + 1, pageSize) == Offset(page, pageSize) + pageSize
  {
  }

  /** " LIMIT <pageSize> OFFSET <offset>" */
  function LimitClause(pageSize: int, offset: int): string
  {
    " LIMIT " + Itoa(pageSize) + " OFFSET " + Itoa(offset)
  }

  /** RawPagination: the query followed by the LIMIT/OFFSET clause of the requested page. */
  function RawPagination(sqlQuery: string, q: Values): (r: string)
    ensures |r| > |sqlQuery| && r[..|sqlQuery|] == sqlQuery
    ensures r[|sqlQuery|..] == LimitClause(PageSize(q), Offset(Page(q), PageSize(q)))
  {
    sqlQuery + LimitClause(PageSize(q), Offset(Page(q), PageSize(q)))
  }

  /** Pagination: the same clause, written with %d, and the arguments passed through. */
  function Pagination<A>(q: Values, query: string, args: seq<A>): (r: (string, seq<A>))
    ensures r.1 == args
    ensures |r.0| > |query| && r.0[..|query|] == query
    ensures r.0[|query|..] == LimitClause(PageSize(q), Offset(Page(q), PageSize(q)))
  {
    (query + LimitClause(PageSize(q), Offset(Page(q), PageSize(q))), args)
  }

  /** Itoa never prints a space. */
  lemma ItoaHasNoSpace(n: int)
    ensures ' ' !in Itoa(n)
  {
    var s := Itoa(n);
    var digits := if n < 0 then NatToString(-n) else NatToString(n);
    assert n < 0 ==> s == "-" + digits;
    assert forall i :: 0 <= i < |digits| ==> IsDigit(digits[i]);
  }

  /** The clause splits on spaces into its words, and both numbers parse back. */
  lemma LimitClauseParses(pageSize: int, offset: int)
    requires MinInt64 <= pageSize <= MaxInt64 && MinInt64 <= offset <= MaxInt64
    ensures Split(LimitClause(pageSize, offset), ' ') == ["", "LIMIT", Itoa(pageSize), "OFFSET", Itoa(offset)]
    ensures ParseInt(Split(LimitClause(pageSize, offset), ' ')[2]) == Success(pageSize)
    ensures ParseInt(Split(LimitClause(pageSize, offset), ' ')[4]) == Success(offset)
  {
    LimitClauseSplits(pageSize, offset);
    ParseItoa(pageSize);
    ParseItoa(offset);
  }

  lemma LimitClauseSplits(pageSize: int, offset: int)
    ensures Split(LimitClause(pageSize, offset), ' ') == ["", "LIMIT", Itoa(pageSize), "OFFSET", Itoa(offset)]
  {
    var parts := ["", "LIMIT", Itoa(pageSize), "OFFSET", Itoa(offset)];
    ItoaHasNoSpace(pageSize);
    ItoaHasNoSpace(offset);
    LimitClauseJoin(pageSize, offset);
    assert ' ' !in parts[0] && ' ' !in parts[1] && ' ' !in parts[3];
    assert forall i :: 0 <= i < |parts| ==> ' ' !in parts[i];
    SplitJoin(parts, ' ');
  }

  /** The clause is its five words joined with single spaces. */
  lemma LimitClauseJoin(pageSize: int, offset: int)
    ensures Join(["", "LIMIT", Itoa(pageSize), "OFFSET", Itoa(offset)], " ") == LimitClause(pageSize, offset)
  {
    var parts := ["", "LIMIT", Itoa(pageSize), "OFFSET", Itoa(offset)];
    assert Join(parts[4..], " ") == Itoa(offset);
    assert Join(parts[3..], " ") == "OFFSET" + " " + Itoa(offset);
    assert Join(parts[2..], " ") == Itoa(pageSize) + " " + ("OFFSET" + " " + Itoa(offset));
    assert Join(parts[1..], " ") == "LIMIT" + " " + (Itoa(pageSize) + " " + ("OFFSET" + " " + Itoa(offset)));
  }

  /** ⌈a / b⌉ in integers. */
  function CeilDiv(a: int, b: int): (c: int)
    requires b > 0
    ensures (c - 1) * b < a <= c * b
  {
    -((-a) / b)
  }

  /** The coreEntity.Pagination record. */
  datatype PageMeta = PageMeta(
    totalItems: int,
    totalPages: int,
    currentPage: int,
    nextPage: Option<int>,
    previousPage: Option<int>,
    firstPage: int,
    lastPage: int)

  /** The pagination metadata Paginate returns beside the rows. */
  function Paginate(q: Values, totalItems: int): (m: PageMeta)
    ensures m.previousPage.Some? <==> Page(q) > 1
    ensures m.previousPage.Some? ==> m.previousPage.value == Page(q) - 1
    ensures m.nextPage.Some? <==> Offset(Page(q), PageSize(q)) + PageSize(q) < totalItems
    ensures m.nextPage.Some? ==> m.nextPage.value == Page(q) + 1
    ensures m.totalItems == totalItems && m.currentPage == Page(q) && m.firstPage == 1
    ensures m.lastPage == m.totalPages
    ensures (m.totalPages - 1) * PageSize(q) < totalItems <= m.totalPages * PageSize(q)
  {
    var page := Page(q);
    var pageSize := PageSize(q);
    var offset := Offset(page, pageSize);
    var previousPage := if page > 1 then Some(page - 1) else None;
    var nextPage := if offset + pageSize < totalItems then Some(page + 1) else None;
    var pages := CeilDiv(totalItems, pageSize);
    PageMeta(totalItems, pages, page, nextPage, previousPage, 1, pages)
  }

  /** A next page exists only before the last page, and then it is a page that exists. */
  lemma NextPageExists(q: Values, totalItems: int)
    ensures Paginate(q, totalItems).nextPage.Some? ==>
      Paginate(q, totalItems).currentPage < Paginate(q, totalItems).totalPages
      && Paginate(q, totalItems).nextPage.value <= Paginate(q, totalItems).lastPage
  {
    var m := Paginate(q, totalItems);
    if m.nextPage.Some? {
      var page, size := Page(q), PageSize(q);
      assert Offset(page, size) + size == page * size;
      BelowCeiling(page, size, totalItems, m.totalPages);
    }
  }

  lemma BelowCeiling(page: int, size: int, total: int, pages: int)
    requires size > 0 && page * size < total && total <= pages * size
    ensures page < pages
  {
    assert page * size < pages * size;
  }

  /** With a page beyond the data there is no next page and a previous one. */
  lemma PastTheEnd(q: Values, totalItems: int)
    requires totalItems >= 0 && (Page(q) - 1) * PageSize(q) >= totalItems && Page(q) > 1
    ensures Paginate(q, totalItems).nextPage == None
    ensures Paginate(q, totalItems).previousPage == Some(Page(q) - 1)
  {
  }

  /** OrderBy: the first "orderBy" value (by default created_at), a space, the
      first "sortBy" value (by default asc). Without either parameter the
      order is "created_at asc"; a given column keeps the default direction,
      and a given direction the default column. */
  function OrderBy(q: Values): (r: string)
    ensures ("orderBy" !in q || |q["orderBy"]| == 0) && ("sortBy" !in q || |q["sortBy"]| == 0) ==>
      r == "created_at asc"
    ensures "orderBy" in q && |q["orderBy"]| > 0 && ("sortBy" !in q || |q["sortBy"]| == 0) ==>
      r == q["orderBy"][0] + " asc"
    ensures ("orderBy" !in q || |q["orderBy"]| == 0) && "sortBy" in q && |q["sortBy"]| > 0 ==>
      r == "created_at " + q["sortBy"][0]
    ensures "orderBy" in q && |q["orderBy"]| > 0 && "sortBy" in q && |q["sortBy"]| > 0 ==>
      r == q["orderBy"][0] + " " + q["sortBy"][0]
  {
    var orderBy := if "orderBy" in q && |q["orderBy"]| > 0 then q["orderBy"][0] else "created_at";
    var sortOrder := if "sortBy" in q && |q["sortBy"]| > 0 then q["sortBy"][0] else "asc";
    orderBy + " " + sortOrder
  }

  /** When neither value holds a space, the result splits back into them. */
  lemma OrderBySplits(q: Values, column: string, direction: string)
    requires "orderBy" in q && |q["orderBy"]| > 0 && q["orderBy"][0] == column
    requires "sortBy" in q && |q["sortBy"]| > 0 && q["sortBy"][0] == direction
    requires ' ' !in column && ' ' !in direction
    ensures Split(OrderBy(q), ' ') == [column, direction]
  {
    assert OrderBy(q) == column + [' '] + direction;
    SplitAtFirst(column, direction, ' ');
    SplitWithoutSeparator(direction, ' ');
  }

  // ---------------------------------------------------------------------
  // The offset as the int64 product computes it

  const TwoTo64: int := 0x1_0000_0000_0000_0000

  /** A mathematical integer reduced to int64 two's complement. */
  function Wrap64(x: int): (w: int)
    ensures MinInt64 <= w <= MaxInt64
    ensures MinInt64 <= x <= MaxInt64 ==> w == x
  {
    (x - MinInt64) % TwoTo64 + MinInt64
  }

  /** offset := (page - 1) * pageSize on Go's 64-bit int. */
  function OffsetAsWritten(page: int, pageSize: int): (offset: int)
    requires 1 <= page <= MaxInt64 && 1 <= pageSize <= MaxInt64
    ensures MinInt64 <= offset <= MaxInt64
    ensures Offset(page, pageSize) <= MaxInt64 ==> offset == Offset(page, pageSize)
  {
    Wrap64((page - 1) * pageSize)
  }

  /** page=4611686018427387905 with pageSize=2 wraps to the most negative offset. */
  lemma OffsetWraps()
    ensures OffsetAsWritten(0x4000_0000_0000_0001, 2) == MinInt64
    ensures Offset(0x4000_0000_0000_0001, 2) == 0x8000_0000_0000_0000
  {
  }

  /** That page is reachable from a query string. */
  lemma LargePageParses(q: Values)
    requires q == map["page" := [Itoa(0x4000_0000_0000_0001)], "pageSize" := [Itoa(2)]]
    ensures Page(q) == 0x4000_0000_0000_0001 && PageSize(q) == 2
  {
    assert Get(q, "page") == Itoa(0x4000_0000_0000_0001);
    ParseItoa(0x4000_0000_0000_0001);
    assert Get(q, "pageSize") == Itoa(2);
    ParseItoa(2);
  }

  /** The next page as Paginate's int64 arithmetic decides it: offset,
      offset + pageSize and page + 1 all wrap. It is the mathematical
      decision whenever page * pageSize fits. */
  function NextPageAsWritten(page: int, pageSize: int, totalItems: int): (n: Option<int>)
    requires 1 <= page <= MaxInt64 && 1 <= pageSize <= MaxInt64
    ensures n.Some? ==> MinInt64 <= n.value <= MaxInt64
    ensures page * pageSize <= MaxInt64 && totalItems <= MaxInt64 ==>
      n == if Offset(page, pageSize) + pageSize < totalItems then Some(page + 1) else None
  {
    var offset := OffsetAsWritten(page, pageSize);
    if Wrap64(offset + pageSize) < totalItems then Some(Wrap64(page + 1)) else None
  }

  /** Paginate's metadata with that next page; everything else is computed
      without overflow. */
  function PaginateAsWritten(q: Values, totalItems: int): (m: PageMeta)
    ensures m.nextPage == NextPageAsWritten(Page(q), PageSize(q), totalItems)
    ensures Page(q) * PageSize(q) <= MaxInt64 && totalItems <= MaxInt64 ==> m == Paginate(q, totalItems)
  {
    Paginate(q, totalItems).(nextPage := NextPageAsWritten(Page(q), PageSize(q), totalItems))
  }

  /** page=9223372036854775807 (as "page=99999999999999999999" also clamps
      to) is reachable from a query string, with the default page size. */
  lemma LastPageParses(q: Values)
    requires q == map["page" := [Itoa(MaxInt64)]]
    ensures Page(q) == MaxInt64 && PageSize(q) == 10
  {
    assert Get(q, "page") == Itoa(MaxInt64);
    ParseItoa(MaxInt64);
    assert Get(q, "pageSize") == "";
    assert ParseInt("") == Failure(ErrSyntax);
  }

  /** On that page with no rows the offset wraps to -20, so -10 < 0
      announces a next page, numbered MinInt64, although there are zero
      pages; the mathematical decision announces none. */
  lemma NextPageWraps()
    ensures OffsetAsWritten(MaxInt64, 10) == -20
    ensures NextPageAsWritten(MaxInt64, 10, 0) == Some(MinInt64)
    ensures CeilDiv(0, 10) == 0 && MaxInt64 >= CeilDiv(0, 10)
    ensures !(Offset(MaxInt64, 10) + 10 < 0)
  {
    assert (MaxInt64 - 1) * 10 == 92233720368547758060;
    assert Wrap64(-20 + 10) == -10;
    assert Wrap64(MaxInt64 + 1) == MinInt64;
  }

  /** So NextPageExists fails of the int64 code: "page=9223372036854775807"
      with no rows has a next page but is not before the last page. */
  lemma NextPageExistsAsWritten(q: Values)
    requires q == map["page" := [Itoa(MaxInt64)]]
    ensures PaginateAsWritten(q, 0).nextPage == Some(MinInt64)
    ensures PaginateAsWritten(q, 0).currentPage >= PaginateAsWritten(q, 0).totalPages
    ensures Paginate(q, 0).nextPage == None
  {
    LastPageParses(q);
    NextPageWraps();
    var m := Paginate(q, 0);
    assert m.totalPages == CeilDiv(0, 10);
  }
}
