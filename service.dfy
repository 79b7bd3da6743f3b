/** BlogCategoryService: the object that holds the connection to the
    BlogCategories table. The table is a field that Create, Update and Delete
    change in place; each method follows the source's steps and is proved to
    do what the corresponding function of BlogCategoryOps says. */
module BlogCategoryServices {
  import opened BlogCategoryTypes
  import opened BlogCategoryOps

  class BlogCategoryService {
    /** The rows reachable through the database connection. */
    var table: Table

    ghost predicate Valid()
      reads this
    {
      WellFormed(table)
    }

    constructor (initial: Table)
      requires WellFormed(initial)
      ensures Valid() && table == initial
    {
      table := initial;
    }

    /** `freshId` is the `Guid.NewGuid()` of the call; `rowsAffected` is what
        the store reports for the INSERT. */
    method CreateBlogCategory(request: CreateBlogCategoryDto, freshId: Guid, rowsAffected: int)
      returns (r: Outcome<Guid>)
      requires Valid()
      requires freshId != EmptyGuid && freshId !in table
      modifies this
      ensures Valid()
      ensures Step(r, table) == Create(old(table), request, freshId, rowsAffected)
    {
      if IsNullOrEmpty(request.name) {
        return Business(ClientError);
      }
      if request.parent.Some? {
        var parentExists := Find(table, request.parent.value).Some?;
        if !parentExists {
          return Technical(NotFound);
        }
      }
      var blogCategory := BlogCategory(freshId, request.parent, request.name.value);
      if rowsAffected > 0 {
        table := table[freshId := blogCategory];
        return Ok(blogCategory.id);
      } else {
        return Technical(WriteFailed);
      }
    }

    method GetBlogCategory(request: BlogCategoryRequestDto) returns (r: Outcome<BlogCategory>)
      ensures r == Get(table, request)
      ensures Valid() && r.Ok? ==> r.value.name != "" && r.value.id != EmptyGuid
    {
      if request.id == EmptyGuid {
        return Business(ClientError);
      }
      var blogCategory := Find(table, request.id);
      if blogCategory.Some? {
        return Ok(blogCategory.value);
      } else {
        return Technical(NotFound);
      }
    }

    /** `rowsAffected` is what the store reports for the UPDATE. */
    method UpdateBlogCategory(request: UpdateBlogCategoryDto, rowsAffected: int) returns (r: Outcome<Guid>)
      requires Valid()
      modifies this
      ensures Valid()
      ensures Step(r, table) == Update(old(table), request, rowsAffected)
    {
      if request.id == EmptyGuid || IsNullOrEmpty(request.name) {
        return Business(ClientError);
      }
      var existingCategory := Find(table, request.id);
      if existingCategory.None? {
        return Technical(NotFound);
      }
      var category := existingCategory.value;
      category := category.(parent := request.parent);
      category := category.(name := request.name.value);
      if rowsAffected > 0 {
        table := table[request.id := category];
        return Ok(category.id);
      } else {
        return Technical(WriteFailed);
      }
    }

    /** `rowsAffected` is what the store reports for the DELETE. */
    method DeleteBlogCategory(request: DeleteBlogCategoryDto, rowsAffected: int) returns (r: Outcome<bool>)
      requires Valid()
      modifies this
      ensures Valid()
      ensures Step(r, table) == Delete(old(table), request, rowsAffected)
    {
      if request.id == EmptyGuid {
        return Business(ClientError);
      }
      var existingCategory := Find(table, request.id);
      if existingCategory.None? {
        return Technical(NotFound);
      }
      if rowsAffected > 0 {
        table := table - {request.id};
        return Ok(true);
      } else {
        return Technical(WriteFailed);
      }
    }

    /** `order` is the order in which the store yields the rows. */
    method GetListBlogCategory(request: ListBlogCategoryRequestDto, order: seq<Guid>)
      returns (r: Outcome<seq<BlogCategory>>)
      requires IsOrdering(table, order)
      ensures r == List(table, order, request)
    {
      if request.pageLimit <= 0 || request.pageOffset < 0 {
        return Business(ClientError);
      }
      var blogCategories := OrderedPage(table, order, request.pageOffset, request.pageLimit);
      return Ok(blogCategories);
    }
  }
}
