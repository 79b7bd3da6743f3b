/** The values the blog-category service works with: identifiers, the stored
    record, the request payloads of its five operations and their outcomes. */
module BlogCategoryTypes {

  /** A GUID, as the integer value of its 128 bits. */
  newtype Guid = n: int | 0 <= n < 0x1_0000_0000_0000_0000_0000_0000_0000_0000

  /** `Guid.Empty`: all bits zero. */
  const EmptyGuid: Guid := 0

  datatype Option<+T> = None | Some(value: T)

  /** `string.IsNullOrEmpty` on a nullable string: null and "" are both missing. */
  predicate IsNullOrEmpty(s: Option<string>) {
    s.None? || s.value == ""
  }

  /** One row of the BlogCategories table. */
  datatype BlogCategory = BlogCategory(id: Guid, parent: Option<Guid>, name: string)

  /** Request payloads, one per operation. */
  datatype CreateBlogCategoryDto = CreateBlogCategoryDto(parent: Option<Guid>, name: Option<string>)
  datatype BlogCategoryRequestDto = BlogCategoryRequestDto(id: Guid)
  datatype UpdateBlogCategoryDto = UpdateBlogCategoryDto(id: Guid, parent: Option<Guid>, name: Option<string>)
  datatype DeleteBlogCategoryDto = DeleteBlogCategoryDto(id: Guid)
  /** `sortField` and `sortOrder` are carried but never inspected by the service. */
  datatype ListBlogCategoryRequestDto =
    ListBlogCategoryRequestDto(pageLimit: int, pageOffset: int, sortField: Option<string>, sortOrder: Option<string>)

  /** Error codes: bad input, missing record or parent, a write that affected no row. */
  const ClientError: string := "DP-422"
  const NotFound: string := "DP-404"
  const WriteFailed: string := "DP-500"

  /** What an operation returns: a value, or the exception it throws
      (`BusinessException` or `TechnicalException`, with its code). */
  datatype Outcome<+T> = Ok(value: T) | Business(code: string) | Technical(code: string)

  /** The BlogCategories table, keyed by its primary key: every record is
      stored under its own id. */
  type Table = t: map<Guid, BlogCategory> | forall k :: k in t ==> t[k].id == k
    witness map[]
}
