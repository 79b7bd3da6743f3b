# Blog-category service, modelled in Dafny

This project models `BlogCategoryService`. The service does create, get,
update, delete and paged list over one self-referencing table,
`BlogCategories`, whose rows are `{Id, Parent?, Name}`. Each operation
does three things in order:

1. It validates the request.
2. It looks the id or the parent up in the table.
3. It performs at most one write, judged by the number of rows the store
   reports.

Every failure is one of three outcomes:

- `BusinessException("DP-422")` for bad input.
- `TechnicalException("DP-404")` for a missing row or missing parent.
- `TechnicalException("DP-500")` for a write that affected no row.

The files:

- `types.dfy` (module `BlogCategoryTypes`) holds the values:
  - `Guid` is a 128-bit integer, and `EmptyGuid` is `Guid.Empty`.
  - `BlogCategory` is the row.
  - There is one request datatype per operation.
  - `Outcome` is `Ok | Business(code) | Technical(code)`.
  - `Table` is a map from id to row in which every row is stored under its
    own id (the primary key).
- `operations.dfy` (module `BlogCategoryOps`) states each operation as a
  function. The function takes the table before the call and returns the
  outcome and the table after it (`Step`). Its contract states the error
  classification in both directions, which rows change, and the invariant
  `WellFormed` that it keeps: every stored row has a non-empty id and a
  non-empty name.
- `service.dfy` (module `BlogCategoryServices`) holds the class
  `BlogCategoryService`. The table is a field of the class. Create, Update
  and Delete change that field in place, under `modifies this`, following
  the source's steps. Each method is proved equal to its function in
  `BlogCategoryOps`.
- `properties.dfy` proves what a sequence of calls observes:
  - Create then Get.
  - Update then Get, which shows that Update replaces the whole row.
  - Delete twice.
  - Parent links that Update and Delete leave dangling.
  - An example with a root category and a child category.
- `paging.dfy` proves how the pages of the list operation fit together.

The model has the following inputs:

- **Fresh id.** `Guid.NewGuid()` is the parameter `freshId`. It must be
  non-empty and must not already be a key of the table.
- **Rows affected.** The count that the store reports for INSERT, UPDATE
  and DELETE is the parameter `rowsAffected`. As in the source, only a
  count `> 0` counts as success. A count of zero leaves the table as it
  was and gives DP-500.
- **Row order.** The order in which the store yields rows to the list
  query is the parameter `order`. It must list every key exactly once.
  The model makes no claim about that order.

## Model

| member | source | states |
|---|---|---|
| BlogCategoryOps.Create | Implementations/BlogCategoryService.cs:23-65 | A null or empty name gives DP-422, whatever the table holds, and leaves the table unchanged. A named request whose parent is not a key gives DP-404. DP-500 exactly when both checks pass and no row is reported. Otherwise it returns the fresh id, adds exactly the row {fresh id, request parent, request name}, keeps every other row, and the new row's parent exists. It keeps WellFormed. |
| BlogCategoryOps.Get | Implementations/BlogCategoryService.cs:67-88 | DP-422 if and only if the id is empty. DP-404 if and only if the id is non-empty and absent. Otherwise it returns exactly the stored row, whose id is the requested one. |
| BlogCategoryOps.Update | Implementations/BlogCategoryService.cs:90-125 | DP-422 if and only if the id is empty or the name is null or empty. DP-404 if and only if the input is valid and the id is absent. DP-500 if and only if the input is valid, the row exists and no row is reported. Ok if and only if the input is valid, the row exists and a row is reported. A failure leaves the table unchanged. Success returns the id, keeps the key set, and replaces the row with {id, request parent, request name}, so an absent parent clears it and the new parent is not checked. Every other row is untouched. It keeps WellFormed. |
| BlogCategoryOps.Delete | Implementations/BlogCategoryService.cs:127-158 | DP-422 if and only if the id is empty. DP-404 if and only if the id is non-empty and absent. DP-500 if and only if the id is non-empty, the row exists and no row is reported. Ok(true) if and only if the id is non-empty, the row exists and a row is reported; it never returns false. A failure leaves the table unchanged. Success removes exactly that key and keeps every other row. It keeps WellFormed. |
| BlogCategoryOps.List | Implementations/BlogCategoryService.cs:160-182 | DP-422 if and only if PageLimit <= 0 or PageOffset < 0, and it never fails otherwise. A page holds at most PageLimit rows, exactly min(PageLimit, max(0, rows - PageOffset)) of them. They are the rows found at positions PageOffset, PageOffset+1, … of the given order. |
| BlogCategoryOps.Find | Implementations/BlogCategoryService.cs:76-77 | The row lookup by primary key used by Get, Update and Delete (`QuerySingleOrDefault`): a row exactly when the id is a key, and then the row stored under it, whose id is the requested one; otherwise nothing (null). |
| BlogCategoryOps.OrderedPage | Implementations/BlogCategoryService.cs:169-178 | LIMIT/OFFSET over the given row order. Its length is min(limit, max(0, rows - offset)), and its element i is the row at position offset+i. |
| BlogCategoryOps.Page | Implementations/BlogCategoryService.cs:169 | Skip/take over a sequence. Its length is min(limit, max(0, length - offset)), and its element i is element offset+i of the input. |
| BlogCategoryOps.Rows | Implementations/BlogCategoryService.cs:178 | The rows the query yields in the given order. There is one per key listed, and element i is the row stored under key i of the order. |
| BlogCategoryOps.OrderingLength | Implementations/BlogCategoryService.cs:178 | An order that lists every key exactly once has as many entries as the table has rows. |
| BlogCategoryServices.BlogCategoryService.constructor | Implementations/BlogCategoryService.cs:18-21 | The service starts over the table it is given and is valid. |
| BlogCategoryServices.BlogCategoryService.CreateBlogCategory | Implementations/BlogCategoryService.cs:23-65 | Checks the name, then the parent, then inserts. The returned outcome and the new table are those of BlogCategoryOps.Create on the old table. It keeps Valid. |
| BlogCategoryServices.BlogCategoryService.GetBlogCategory | Implementations/BlogCategoryService.cs:67-88 | Returns BlogCategoryOps.Get of the current table and changes nothing. On a valid service a returned row has a non-empty id and a non-empty name. |
| BlogCategoryServices.BlogCategoryService.UpdateBlogCategory | Implementations/BlogCategoryService.cs:90-125 | Checks the id and name, fetches the row, sets its Parent and Name, then writes it. The outcome and the new table are those of BlogCategoryOps.Update on the old table. It keeps Valid. |
| BlogCategoryServices.BlogCategoryService.DeleteBlogCategory | Implementations/BlogCategoryService.cs:127-158 | Checks the id, fetches the row, then deletes it. The outcome and the new table are those of BlogCategoryOps.Delete on the old table. It keeps Valid. |
| BlogCategoryServices.BlogCategoryService.GetListBlogCategory | Implementations/BlogCategoryService.cs:160-182 | Returns BlogCategoryOps.List of the current table in the given order and changes nothing. |
| BlogCategoryProperties.CreateThenGet | Implementations/BlogCategoryService.cs:45-59 | After a successful Create, Get of the returned id yields {fresh id, request parent, request name}. |
| BlogCategoryProperties.UpdateThenGet | Implementations/BlogCategoryService.cs:108-119 | After a successful Update, Get yields the request's parent and name. An Update without a parent leaves the row with no parent. |
| BlogCategoryProperties.UpdateMayLeaveDanglingParent | Implementations/BlogCategoryService.cs:93-119 | Update accepts a parent id that is not in the table and stores it. |
| BlogCategoryProperties.DeleteThenDeleteAgain | Implementations/BlogCategoryService.cs:130-152 | After a successful Delete, Get of that id gives DP-404. A second Delete gives DP-404 and leaves the table unchanged, whatever the store reports. |
| BlogCategoryProperties.DeleteMayOrphanChildren | Implementations/BlogCategoryService.cs:146-147 | Deleting a parent does not cascade: its child stays, still pointing at the removed id. |
| BlogCategoryProperties.WritesNeedRowsAffected | Implementations/BlogCategoryService.cs:54-63 | When the store reports no row, Create, Update and Delete all leave the table unchanged. |
| BlogCategoryProperties.CreateChildExample | Implementations/BlogCategoryService.cs:23-65 | Create "Tech" as A, then "Gadgets" under A as B. Get(B) is {B, A, "Gadgets"}. A Create with "" gives DP-422, and an Update of an unknown id gives DP-404. |
| BlogCategoryPaging.PagesJoin | Implementations/BlogCategoryService.cs:169 | Two adjacent skip/take pages over any sequence concatenate to the single larger page. |
| BlogCategoryPaging.AdjacentPagesJoin | Implementations/BlogCategoryService.cs:169-181 | The list page (limit, offset) followed by the page (more, offset+limit) equals the page (limit+more, offset). This holds for one order shared by all the calls, which the query does not guarantee (see Left out). |
| BlogCategoryPaging.EveryRowOnSomePage | Implementations/BlogCategoryService.cs:169-181 | Paging from offset 0 in steps of limit, every row of the table lies on one page. This holds for one order shared by all the calls, which the query does not guarantee (see Left out). |
| BlogCategoryPaging.OnePageHoldsAll | Implementations/BlogCategoryService.cs:169-181 | A page from offset 0 at least as large as the table holds exactly the table's rows, each one exactly as stored. |
| BlogCategoryPaging.PagePastEndIsEmpty | Implementations/BlogCategoryService.cs:169-181 | A valid request whose offset is at or past the last row returns an empty list, not an error. |

## Left out

- The HTTP controller (`Controllers/BlogCategoryController.cs`) is not part of this model. It only forwards each request to the service and wraps the result in a response envelope.
- The interface (`Interfaces/IBlogCategoryService.cs`) is not part of this model. It holds only signatures.
- Dapper, the SQL text, `IDbConnection` and `async`/`Task` are replaced by the `table` field. The exceptions are `Outcome` values. The message strings ("Client Error", "Technical Error") are dropped; only the codes are kept.
- Exceptions thrown by the store itself are not modelled. The source does not catch them, so they reach the caller unchanged. Only the zero-rows outcome of a write is modelled, through `rowsAffected`.
- Concurrency is not modelled. A row that vanishes between the lookup and the write shows up only as `rowsAffected <= 0`.
- Sorting is not modelled. The query binds `SortField` and `SortOrder` as parameter values, not as a column and a direction, so it does not sort by the requested field. The list operation is skip/take over an order the model fixes for the table, given as `order`. `SortField` and `SortOrder` are never validated.
- BlogCategoryPaging.AdjacentPagesJoin: assumes the store returns the rows in the same order on every call, whatever the LIMIT and OFFSET, because it passes one `order` to several list calls. The query orders by two bound constant values, so SQL guarantees no row order at all, and a real store may order different pages differently; the source does not promise this property.
- BlogCategoryPaging.EveryRowOnSomePage: rests on the same assumption of one row order shared by every page, which the query does not guarantee.
- GUID generation and `Guid.ToString()` formatting are not modelled. The fresh id is an input, and Create and Update return the id itself rather than its text.
- No list-by-parent operation exists in the service, so none is modelled.
- BlogCategoryServices.BlogCategoryService.CreateBlogCategory: requires the table to satisfy `WellFormed` (every row with a non-empty id and name). So do `UpdateBlogCategory`, `DeleteBlogCategory` and the constructor. The source assumes nothing about rows written by other programs. The model assumes this only to state the invariant the service keeps.
- The type of `PageLimit` and `PageOffset` is not part of this model (the request type is defined outside the service). The service only compares them with 0 and passes them to the query, so they are unbounded integers here.
- A write that reports more than one row counts as success, as `rowsAffected > 0` does in the source. Each statement touches at most one row: the INSERT has one VALUES row, and the UPDATE and DELETE filter by primary key.
- A null request and a stored row with a null `Name` cannot be represented: the request datatypes and `BlogCategory.name` are never null. In the source a null payload, which the controller passes through unchecked, throws `NullReferenceException` on the service's first field access.
- The parent checks are exactly those of the code:
  - A missing parent on Create is a `TechnicalException` with DP-404.
  - Update does not check that the new parent exists.
  - List does not check `SortField` or `SortOrder`.
