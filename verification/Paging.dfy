/** Page arithmetic of the list endpoints: clamping, offsets, page counts, and the pages themselves. */
module Paging {

  const DEFAULT_PAGE_SIZE := 10
  const MAX_PAGE_SIZE := 100
  const STATUSES := {"available", "borrowed", "reserved", "maintenance"}

  const TWO_63 := 0x8000_0000_0000_0000

  /** Go's `int` on a 64-bit machine. */
  function Wrap64(x: int): int {
    (x + TWO_63) % (2 * TWO_63) - TWO_63
  }

  function ClampPage(page: int): int {
    if page <= 0 then 1 else page
  }

  function ClampLimit(limit: int): int {
    if limit <= 0 then DEFAULT_PAGE_SIZE else if limit > MAX_PAGE_SIZE then MAX_PAGE_SIZE else limit
  }

  function Offset(page: int, limit: int): int {
    Wrap64(Wrap64(page - 1) * limit)
  }

  /** SQL's OFFSET and LIMIT over one fixed row order. */
  function Slice<T>(rows: seq<T>, offset: nat, limit: nat): seq<T> {
    var from := if offset < |rows| then offset else |rows|;
    var to := if from + limit < |rows| then from + limit else |rows|;
    rows[from..to]
  }

  function PageOf<T>(rows: seq<T>, page: int, limit: int): seq<T>
    requires 1 <= page && 1 <= limit
  {
    Slice(rows, (page - 1) * limit, limit)
  }

  function FirstPages<T>(rows: seq<T>, k: nat, limit: int): seq<T>
    requires 1 <= limit
  {
    if k == 0 then [] else FirstPages(rows, k - 1, limit) + PageOf(rows, k, limit)
  }

  /** The page count the services report. */
  function TotalPages(count: nat, limit: int): int
    requires 1 <= limit
  {
    (count + limit - 1) / limit
  }

  // ---------- The offset ----------

  /** The offset sent to the database is the intended one exactly as long as it fits in 64 bits. */
  lemma OffsetIsExact(page: int, limit: int)
    requires 1 <= page < TWO_63 && 1 <= limit
    ensures Offset(page, limit) == (page - 1) * limit <==> (page - 1) * limit < TWO_63
  {
    assert Wrap64(page - 1) == page - 1;
    var x := (page - 1) * limit;
    if x < TWO_63 {
      assert 0 <= x;
      assert (x + TWO_63) % (2 * TWO_63) == x + TWO_63;
    }
  }

  /** Wrapping: into the range, and by a multiple of 2 to the 64. */
  lemma WrapMeans(x: int)
    ensures -0x8000_0000_0000_0000 <= Wrap64(x) < 0x8000_0000_0000_0000
    ensures (Wrap64(x) - x) % 0x1_0000_0000_0000_0000 == 0
  {
    var m := 2 * TWO_63;
    assert x + TWO_63 == (x + TWO_63) / m * m + (x + TWO_63) % m;
    DivIs(Wrap64(x) - x, m, -((x + TWO_63) / m), 0);
  }

  /** A page number that a client can send and whose offset comes out negative. */
  lemma OffsetWrapsAround()
    ensures Offset(0x4000_0000_0000_0001, 2) == -TWO_63
  {
  }

  lemma MulMonotone(a: int, b: int, d: int)
    requires a <= b && 0 <= d
    ensures a * d <= b * d
  {
  }

  lemma DivIs(x: int, d: int, q: int, r: int)
    requires x == q * d + r && 0 <= r < d
    ensures x / d == q && x % d == r
  {
    var q', r' := x / d, x % d;
    assert x == q' * d + r';
    if q < q' {
      MulMonotone(q + 1, q', d);
    } else if q' < q {
      MulMonotone(q' + 1, q, d);
    }
  }

  // ---------- Pages partition the rows ----------

  lemma {:induction false} FirstPagesArePrefix<T>(rows: seq<T>, k: nat, limit: int)
    requires 1 <= limit
    ensures FirstPages(rows, k, limit) == rows[..if k * limit < |rows| then k * limit else |rows|]
  {
    if k != 0 {
      FirstPagesArePrefix(rows, k - 1, limit);
      assert k * limit == (k - 1) * limit + limit;
    }
  }

  /** Row i of a page is row (page - 1) * limit + i of the result, and a page is full unless the rows run out. */
  lemma PageIs<T>(rows: seq<T>, page: int, limit: int)
    requires 1 <= page && 1 <= limit
    ensures var from, got := (page - 1) * limit, PageOf(rows, page, limit);
            && |got| == (if |rows| <= from then 0 else if from + limit <= |rows| then limit else |rows| - from)
            && forall i :: 0 <= i < |got| ==> from + i < |rows| && got[i] == rows[from + i]
  {
  }

  lemma TotalPagesSuffice(count: nat, limit: int)
    requires 1 <= limit
    ensures 0 <= TotalPages(count, limit)
    ensures (TotalPages(count, limit) - 1) * limit < count <= TotalPages(count, limit) * limit
         || count == TotalPages(count, limit) == 0
  {
  }

  lemma LaterPageIsEmpty<T>(rows: seq<T>, limit: int, page: int)
    requires 1 <= limit && TotalPages(|rows|, limit) < page
    ensures PageOf(rows, page, limit) == []
  {
    TotalPagesSuffice(|rows|, limit);
    MulMonotone(TotalPages(|rows|, limit), page - 1, limit);
  }

  /** Concatenating pages 1 to TotalPages gives every row exactly once, no shorter run of pages does,
      and every later page is empty. */
  lemma PagesPartition<T>(rows: seq<T>, limit: int)
    requires 1 <= limit
    ensures var total := TotalPages(|rows|, limit);
            && FirstPages(rows, total, limit) == rows
            && (forall k :: 0 <= k < total ==> FirstPages(rows, k, limit) < rows)
            && (forall page :: total < page ==> PageOf(rows, page, limit) == [])
  {
    hide PageOf, FirstPages, TotalPages;
    var total := TotalPages(|rows|, limit);
    TotalPagesSuffice(|rows|, limit);
    FirstPagesArePrefix(rows, total, limit);
    forall k | 0 <= k < total ensures FirstPages(rows, k, limit) < rows {
      MulMonotone(k, total - 1, limit);
      FirstPagesArePrefix(rows, k, limit);
    }
    forall page | total < page ensures PageOf(rows, page, limit) == [] {
      LaterPageIsEmpty(rows, limit, page);
    }
  }

  /** The services round up; the response helper divides and adds one for a remainder. They agree. */
  lemma {:induction false} CountsAgree(count: nat, limit: int)
    requires 1 <= limit
    ensures TotalPages(count, limit) == count / limit + (if count % limit > 0 then 1 else 0)
  {
    var q, r := count / limit, count % limit;
    assert count == q * limit + r;
    if r == 0 {
      DivIs(count + limit - 1, limit, q, limit - 1);
    } else {
      assert (q + 1) * limit == q * limit + limit;
      DivIs(count + limit - 1, limit, q + 1, r - 1);
    }
  }

  // ---------- The code ----------

  datatype ListResponse<T> = ListResponse(items: seq<T>, totalItems: nat, totalPages: int, currentPage: int, pageSize: int)

  class BookFilter {
    var page: int
    var limit: int
    var status: string

    constructor (page: int, limit: int, status: string)
      ensures this.page == page && this.limit == limit && this.status == status
    {
      this.page, this.limit, this.status := page, limit, status;
    }

    method Validate()
      modifies this
      ensures page == ClampPage(old(page)) && limit == ClampLimit(old(limit))
      ensures page == if old(page) < 1 then 1 else old(page)
      ensures limit == if old(limit) < 1 then 10 else if 100 < old(limit) then 100 else old(limit)
      ensures status == if old(status) in {"available", "borrowed", "reserved", "maintenance"} then old(status) else ""
    {
      if page <= 0 {
        page := 1;
      }
      if limit <= 0 {
        limit := DEFAULT_PAGE_SIZE;
      } else if limit > MAX_PAGE_SIZE {
        limit := MAX_PAGE_SIZE;
      }
      if status != "" && status !in STATUSES {
        status := "";
      }
    }
  }

  /** `ListBooks` over the rows that match the filter. `query` is the database's answer to an offset and a limit:
      the slice of the rows when the offset is not negative, and else whatever the database layer makes of it.
      Every page whose offset fits gets its own rows of the partition. */
  method ListRows<T>(filter: BookFilter, rows: seq<T>, query: (int, int) -> seq<T>) returns (response: ListResponse<T>)
    requires filter.page < TWO_63
    requires forall offset: nat, limit: nat :: query(offset, limit) == Slice(rows, offset, limit)
    modifies filter
    ensures var page, limit := ClampPage(old(filter.page)), ClampLimit(old(filter.limit));
            && response == ListResponse(query(Offset(page, limit), limit), |rows|, TotalPages(|rows|, limit), page, limit)
            && ((page - 1) * limit < TWO_63 ==> response.items == PageOf(rows, page, limit))
            && 1 <= page && 1 <= limit <= 100
  {
    filter.Validate();
    OffsetIsExact(filter.page, filter.limit);
    MulMonotone(0, filter.page - 1, filter.limit);
    var found := query(Offset(filter.page, filter.limit), filter.limit);

    var items := [];
    for i := 0 to |found|
      invariant items == found[..i]
    {
      items := items + [found[i]];
    }
    response := ListResponse(items, |rows|, (|rows| + filter.limit - 1) / filter.limit, filter.page, filter.limit);
  }

  /** The page count of the response helper. It takes any page size but 0, where it would panic: for a positive
      one the number of pages, for a negative one the truncated quotient, and one more for a remainder. */
  method PageCount(totalItems: nat, pageSize: int) returns (totalPages: int)
    requires pageSize != 0
    ensures 0 < pageSize ==> totalPages == TotalPages(totalItems, pageSize)
    ensures pageSize < 0 ==> totalPages == (if totalItems % -pageSize == 0 then 0 else 1) - totalItems / -pageSize
  {
    totalPages := totalItems / pageSize;
    if totalItems % pageSize > 0 {
      totalPages := totalPages + 1;
    }
    if 0 < pageSize {
      CountsAgree(totalItems, pageSize);
    } else {
      DivIs(totalItems, -pageSize, -(totalItems / pageSize), totalItems % pageSize);
    }
  }
}
