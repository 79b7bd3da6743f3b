/** How the pages of GetListBlogCategory fit together when every call sees
    the rows in one and the same order (an assumption: the query itself
    guarantees no order): adjacent pages join into the larger page, stepping through the
    table page by page reaches every row, and a page past the end is empty. */
module BlogCategoryPaging {
  import opened BlogCategoryTypes
  import opened BlogCategoryOps

  /** A list request; the sort fields are never inspected. */
  function PageRequest(limit: int, offset: int): ListBlogCategoryRequestDto {
    ListBlogCategoryRequestDto(limit, offset, None, None)
  }

  /** Skip/take over any sequence: two adjacent pages join into one. */
  lemma PagesJoin<T>(rows: seq<T>, offset: nat, limit: nat, more: nat)
    ensures Page(rows, offset, limit) + Page(rows, offset + limit, more) == Page(rows, offset, limit + more)
  {
  }

  /** The page of `limit` rows at `offset` followed by the page of `more` rows
      right after it is the page of `limit + more` rows at `offset`. */
  lemma AdjacentPagesJoin(t: Table, order: seq<Guid>, offset: int, limit: int, more: int)
    requires IsOrdering(t, order)
    requires offset >= 0 && limit > 0 && more > 0
    ensures List(t, order, PageRequest(limit, offset)).value + List(t, order, PageRequest(more, offset + limit)).value
              == List(t, order, PageRequest(limit + more, offset)).value
  {
    var rows := Rows(t, order);
    assert List(t, order, PageRequest(limit, offset)) == Ok(Page(rows, offset, limit));
    assert List(t, order, PageRequest(more, offset + limit)) == Ok(Page(rows, offset + limit, more));
    assert List(t, order, PageRequest(limit + more, offset)) == Ok(Page(rows, offset, limit + more));
    PagesJoin(rows, offset, limit, more);
  }

  /** Position of a key in the row order. */
  function IndexOf(order: seq<Guid>, k: Guid): (i: nat)
    requires k in order
    ensures i < |order| && order[i] == k
  {
    if order[0] == k then 0 else 1 + IndexOf(order[1..], k)
  }

  /** The offset of the page of `limit` rows that holds position `i`, for
      pages laid end to end from offset 0. */
  function PageStart(i: nat, limit: int): (start: nat)
    requires limit > 0
    ensures start <= i < start + limit
  {
    var n := i / limit;
    assert i == n * limit + i % limit;
    n * limit
  }

  /** Stepping through the table in pages of `limit` rows from offset 0, every
      row turns up on one of the pages. */
  lemma EveryRowOnSomePage(t: Table, order: seq<Guid>, limit: int, k: Guid)
    requires IsOrdering(t, order)
    requires limit > 0 && k in t
    ensures var start := PageStart(IndexOf(order, k), limit);
            var page := List(t, order, PageRequest(limit, start));
            page.Ok? && t[k] in page.value
  {
    var i := IndexOf(order, k);
    var start := PageStart(i, limit);
    var page := List(t, order, PageRequest(limit, start)).value;
    OrderingLength(t, order);
    assert |page| > i - start;
    assert page[i - start] == t[k];
  }

  /** One page as large as the table, from offset 0, holds every row. */
  lemma OnePageHoldsAll(t: Table, order: seq<Guid>, limit: int)
    requires IsOrdering(t, order)
    requires limit >= |t| && limit > 0
    ensures var page := List(t, order, PageRequest(limit, 0));
            page.Ok? && |page.value| == |t| &&
            (forall k :: k in t ==> t[k] in page.value) &&
            (forall c :: c in page.value ==> c.id in t && t[c.id] == c)
  {
    var page := List(t, order, PageRequest(limit, 0)).value;
    forall k | k in t
      ensures t[k] in page
    {
      var i := IndexOf(order, k);
      OrderingLength(t, order);
      assert page[i] == t[k];
    }
  }

  /** A page that starts at or after the last row is empty, not an error. */
  lemma PagePastEndIsEmpty(t: Table, order: seq<Guid>, limit: int, offset: int)
    requires IsOrdering(t, order)
    requires limit > 0 && offset >= |t|
    ensures List(t, order, PageRequest(limit, offset)) == Ok([])
  {
  }
}
