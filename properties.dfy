/** What a sequence of calls observes: a row written by one operation as seen
    by the next, the parent links that are and are not kept valid, and a worked
    example. */
module BlogCategoryProperties {
  import opened BlogCategoryTypes
  import opened BlogCategoryOps

  /** A created row is found by Get under the id Create returned, with the
      request's parent and name. */
  lemma CreateThenGet(t: Table, request: CreateBlogCategoryDto, freshId: Guid, rowsAffected: int)
    requires freshId != EmptyGuid && freshId !in t
    requires Create(t, request, freshId, rowsAffected).out.Ok?
    ensures var s := Create(t, request, freshId, rowsAffected);
            Get(s.table, BlogCategoryRequestDto(s.out.value))
              == Ok(BlogCategory(freshId, request.parent, request.name.value))
  {
  }

  /** Update replaces the whole row: Get afterwards sees the request's parent
      and name, so a request without a parent clears the old one. */
  lemma UpdateThenGet(t: Table, request: UpdateBlogCategoryDto, rowsAffected: int)
    requires Update(t, request, rowsAffected).out.Ok?
    ensures var s := Update(t, request, rowsAffected);
            Get(s.table, BlogCategoryRequestDto(request.id))
              == Ok(BlogCategory(request.id, request.parent, request.name.value))
    ensures request.parent.None? ==>
              Get(Update(t, request, rowsAffected).table, BlogCategoryRequestDto(request.id)).value.parent.None?
  {
  }

  /** Update does not look the new parent up: it can point a row at a
      category that does not exist. */
  lemma UpdateMayLeaveDanglingParent()
    ensures var root := BlogCategory(1, None, "Tech");
            var t: Table := map[1 := root];
            var s := Update(t, UpdateBlogCategoryDto(1, Some(2), Some("Tech")), 1);
            s.out == Ok(1) && s.table[1].parent == Some(2) && 2 !in s.table
  {
  }

  /** After a successful Delete the id is gone: Get and a second Delete of it
      both fail with DP-404, whatever the store reports. */
  lemma DeleteThenDeleteAgain(t: Table, id: Guid, rows1: int, rows2: int)
    requires Delete(t, DeleteBlogCategoryDto(id), rows1).out.Ok?
    ensures var s := Delete(t, DeleteBlogCategoryDto(id), rows1);
            Get(s.table, BlogCategoryRequestDto(id)) == Technical(NotFound) &&
            Delete(s.table, DeleteBlogCategoryDto(id), rows2) == Step(Technical(NotFound), s.table)
  {
  }

  /** Delete does not cascade: the children of a deleted category keep their
      parent id. */
  lemma DeleteMayOrphanChildren()
    ensures var t: Table := map[1 := BlogCategory(1, None, "Tech"), 2 := BlogCategory(2, Some(1), "Gadgets")];
            var s := Delete(t, DeleteBlogCategoryDto(1), 1);
            s.out == Ok(true) && s.table == map[2 := BlogCategory(2, Some(1), "Gadgets")] && 1 !in s.table
  {
  }

  /** The table changes only when the store reports a row written. */
  lemma WritesNeedRowsAffected(t: Table, create: CreateBlogCategoryDto, freshId: Guid,
                               update: UpdateBlogCategoryDto, delete: DeleteBlogCategoryDto, rowsAffected: int)
    requires freshId != EmptyGuid && freshId !in t
    requires rowsAffected <= 0
    ensures Create(t, create, freshId, rowsAffected).table == t
    ensures Update(t, update, rowsAffected).table == t
    ensures Delete(t, delete, rowsAffected).table == t
  {
  }

  /** Create a root "Tech" as A, then "Gadgets" under A as B: Get(B) returns
      {B, A, "Gadgets"}. Then an unnamed Create is refused, and so is an
      Update of an id that was never created. */
  lemma CreateChildExample(a: Guid, b: Guid, c: Guid)
    requires a != EmptyGuid && b != EmptyGuid && c != EmptyGuid && a != b && c != a && c != b
    ensures var s1 := Create(map[], CreateBlogCategoryDto(None, Some("Tech")), a, 1);
            var s2 := Create(s1.table, CreateBlogCategoryDto(Some(a), Some("Gadgets")), b, 1);
            s1.out == Ok(a) && s2.out == Ok(b) &&
            Get(s2.table, BlogCategoryRequestDto(b)) == Ok(BlogCategory(b, Some(a), "Gadgets")) &&
            Create(s2.table, CreateBlogCategoryDto(None, Some("")), c, 1).out == Business(ClientError) &&
            Update(s2.table, UpdateBlogCategoryDto(c, None, Some("X")), 1).out == Technical(NotFound)
  {
  }
}
