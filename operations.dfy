/** The five operations of the blog-category service as functions from the
    table before a call to the outcome of the call and the table after it.
    Each one validates the request, then checks existence against the table,
    then performs at most one write, in that order. */
module BlogCategoryOps {
  import opened BlogCategoryTypes

  /** The outcome of a call and the table it leaves behind. */
  datatype Step<+T> = Step(out: Outcome<T>, table: Table)

  /** What the service maintains of every row it writes: a non-empty id and a
      non-empty name. A parent reference is checked only when it is written,
      so it is not part of this invariant. */
  ghost predicate WellFormed(t: Table) {
    forall k :: k in t ==> k != EmptyGuid && t[k].name != ""
  }

  /** `SELECT * ... WHERE Id = @Id` through `QuerySingleOrDefault`: the row, or null. */
  function Find(t: Table, id: Guid): (r: Option<BlogCategory>)
    ensures r.Some? <==> id in t
    ensures r.Some? ==> r.value == t[id] && r.value.id == id
  {
    if id in t then Some(t[id]) else None
  }

  /** The request passes both checks of Create: a name, and a parent that exists if one is given. */
  predicate CreateAccepted(t: Table, request: CreateBlogCategoryDto) {
    !IsNullOrEmpty(request.name) && (request.parent.Some? ==> request.parent.value in t)
  }

  /** CreateBlogCategory. `freshId` stands for `Guid.NewGuid()`; `rowsAffected`
      is what the store reports for the INSERT. */
  function Create(t: Table, request: CreateBlogCategoryDto, freshId: Guid, rowsAffected: int): (r: Step<Guid>)
    requires freshId != EmptyGuid && freshId !in t
    // a missing name is rejected whatever the table holds
    ensures IsNullOrEmpty(request.name) ==> r == Step(Business(ClientError), t)
    ensures r.out.Business? ==> IsNullOrEmpty(request.name)
    // a dangling parent is reported only for a request that has a name
    ensures r.out == Technical(NotFound) <==>
              !IsNullOrEmpty(request.name) && request.parent.Some? && request.parent.value !in t
    ensures r.out == Technical(WriteFailed) <==> CreateAccepted(t, request) && rowsAffected <= 0
    ensures r.out.Ok? <==> CreateAccepted(t, request) && rowsAffected > 0
    // a failed call leaves the table as it was
    ensures !r.out.Ok? ==> r.table == t
    // a successful call adds exactly the new row under the fresh id, whose parent exists
    ensures r.out.Ok? ==>
              r.out.value == freshId && r.table.Keys == t.Keys + {freshId} &&
              r.table[freshId] == BlogCategory(freshId, request.parent, request.name.value) &&
              (forall k :: k in t ==> r.table[k] == t[k]) &&
              (request.parent.Some? ==> request.parent.value in r.table)
    ensures WellFormed(t) ==> WellFormed(r.table)
  {
    if IsNullOrEmpty(request.name) then Step(Business(ClientError), t)
    else if request.parent.Some? && Find(t, request.parent.value).None? then Step(Technical(NotFound), t)
    else
      var row := BlogCategory(freshId, request.parent, request.name.value);
      if rowsAffected > 0 then Step(Ok(freshId), t[freshId := row])
      else Step(Technical(WriteFailed), t)
  }

  /** GetBlogCategory. */
  function Get(t: Table, request: BlogCategoryRequestDto): (r: Outcome<BlogCategory>)
    ensures r == Business(ClientError) <==> request.id == EmptyGuid
    ensures r == Technical(NotFound) <==> request.id != EmptyGuid && request.id !in t
    ensures r.Ok? <==> request.id != EmptyGuid && request.id in t
    ensures r.Ok? ==> r.value == t[request.id] && r.value.id == request.id
  {
    if request.id == EmptyGuid then Business(ClientError)
    else match Find(t, request.id)
      case Some(row) => Ok(row)
      case None => Technical(NotFound)
  }

  /** UpdateBlogCategory: both Parent and Name of the stored row are replaced
      by the request's; the new parent is not looked up. */
  function Update(t: Table, request: UpdateBlogCategoryDto, rowsAffected: int): (r: Step<Guid>)
    ensures r.out == Business(ClientError) <==> request.id == EmptyGuid || IsNullOrEmpty(request.name)
    ensures r.out == Technical(NotFound) <==>
              request.id != EmptyGuid && !IsNullOrEmpty(request.name) && request.id !in t
    ensures r.out == Technical(WriteFailed) <==>
              request.id != EmptyGuid && !IsNullOrEmpty(request.name) && request.id in t && rowsAffected <= 0
    ensures r.out.Ok? <==>
              request.id != EmptyGuid && !IsNullOrEmpty(request.name) && request.id in t && rowsAffected > 0
    ensures !r.out.Ok? ==> r.table == t
    // success: same keys, the row under the id fully replaced, every other row untouched
    ensures r.out.Ok? ==>
              r.out.value == request.id && r.table.Keys == t.Keys &&
              r.table[request.id] == BlogCategory(request.id, request.parent, request.name.value) &&
              (forall k :: k in t && k != request.id ==> r.table[k] == t[k])
    ensures WellFormed(t) ==> WellFormed(r.table)
  {
    if request.id == EmptyGuid || IsNullOrEmpty(request.name) then Step(Business(ClientError), t)
    else match Find(t, request.id)
      case None => Step(Technical(NotFound), t)
      case Some(existing) =>
        var changed := existing.(parent := request.parent, name := request.name.value);
        if rowsAffected > 0 then Step(Ok(changed.id), t[request.id := changed])
        else Step(Technical(WriteFailed), t)
  }

  /** DeleteBlogCategory. */
  function Delete(t: Table, request: DeleteBlogCategoryDto, rowsAffected: int): (r: Step<bool>)
    ensures r.out == Business(ClientError) <==> request.id == EmptyGuid
    ensures r.out == Technical(NotFound) <==> request.id != EmptyGuid && request.id !in t
    ensures r.out == Technical(WriteFailed) <==> request.id != EmptyGuid && request.id in t && rowsAffected <= 0
    ensures r.out == Ok(true) <==> request.id != EmptyGuid && request.id in t && rowsAffected > 0
    ensures r.out != Ok(false)
    ensures !r.out.Ok? ==> r.table == t
    // success: exactly that key is gone, every other row untouched
    ensures r.out.Ok? ==>
              r.table.Keys == t.Keys - {request.id} && request.id in t &&
              (forall k :: k in r.table ==> r.table[k] == t[k])
    ensures WellFormed(t) ==> WellFormed(r.table)
  {
    if request.id == EmptyGuid then Step(Business(ClientError), t)
    else if Find(t, request.id).None? then Step(Technical(NotFound), t)
    else if rowsAffected > 0 then Step(Ok(true), t - {request.id})
    else Step(Technical(WriteFailed), t)
  }

  /** `order` is the order in which the store yields the table's rows: every
      key exactly once. The service asks for a sort, but binds the column
      and the direction as values, so no particular order is promised. */
  ghost predicate IsOrdering(t: Table, order: seq<Guid>) {
    (forall i :: 0 <= i < |order| ==> order[i] in t) &&
    (forall k :: k in t ==> k in order) &&
    (forall i, j :: 0 <= i < j < |order| ==> order[i] != order[j])
  }

  /** The rows of `t` in the order `order`. */
  function Rows(t: Table, order: seq<Guid>): (r: seq<BlogCategory>)
    requires forall i :: 0 <= i < |order| ==> order[i] in t
    ensures |r| == |order|
    ensures forall i :: 0 <= i < |r| ==> r[i] == t[order[i]] && r[i].id == order[i]
  {
    if order == [] then [] else [t[order[0]]] + Rows(t, order[1..])
  }

  lemma {:induction false} DistinctCount(s: seq<Guid>)
    requires forall i, j :: 0 <= i < j < |s| ==> s[i] != s[j]
    ensures |set x | x in s| == |s|
  {
    if s != [] {
      DistinctCount(s[1..]);
      assert (set x | x in s) == (set x | x in s[1..]) + {s[0]};
      assert s[0] !in (set x | x in s[1..]);
    }
  }

  /** An ordering lists as many keys as the table holds. */
  lemma OrderingLength(t: Table, order: seq<Guid>)
    requires IsOrdering(t, order)
    ensures |order| == |t|
  {
    DistinctCount(order);
    assert (set x | x in order) == t.Keys;
  }

  function Min(a: int, b: int): int { if a <= b then a else b }
  function Max(a: int, b: int): int { if a <= b then b else a }

  /** `LIMIT limit OFFSET offset`: skip `offset` rows, then take at most `limit`. */
  function Page<T>(rows: seq<T>, offset: nat, limit: nat): (r: seq<T>)
    ensures |r| == Min(limit, Max(0, |rows| - offset))
    ensures forall i :: 0 <= i < |r| ==> offset + i < |rows| && r[i] == rows[offset + i]
  {
    if offset >= |rows| then [] else rows[offset..Min(offset + limit, |rows|)]
  }

  /** `page` is the run of rows that starts at position `offset` of `order`. */
  ghost predicate StartsAt(t: Table, order: seq<Guid>, offset: int, page: seq<BlogCategory>) {
    forall i :: 0 <= i < |page| ==>
      0 <= offset + i < |order| && order[offset + i] in t && page[i] == t[order[offset + i]]
  }

  /** A page of the rows in the store's order, described by positions in that order. */
  function OrderedPage(t: Table, order: seq<Guid>, offset: nat, limit: nat): (p: seq<BlogCategory>)
    requires IsOrdering(t, order)
    ensures |p| == Min(limit, Max(0, |t| - offset))
    ensures StartsAt(t, order, offset, p)
  {
    OrderingLength(t, order);
    Page(Rows(t, order), offset, limit)
  }

  /** GetListBlogCategory: one page of the rows, taken in the store's order. */
  function List(t: Table, order: seq<Guid>, request: ListBlogCategoryRequestDto): (r: Outcome<seq<BlogCategory>>)
    requires IsOrdering(t, order)
    ensures r == Business(ClientError) <==> request.pageLimit <= 0 || request.pageOffset < 0
    ensures r.Ok? <==> request.pageLimit > 0 && request.pageOffset >= 0
    ensures r.Ok? ==> |r.value| <= request.pageLimit
    ensures r.Ok? ==> |r.value| == Min(request.pageLimit, Max(0, |t| - request.pageOffset))
    // the page is the run of rows that starts after skipping pageOffset of them
    ensures r.Ok? ==> StartsAt(t, order, request.pageOffset, r.value)
  {
    if request.pageLimit <= 0 || request.pageOffset < 0 then Business(ClientError)
    else Ok(OrderedPage(t, order, request.pageOffset, request.pageLimit))
  }
}
