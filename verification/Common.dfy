/** Types and constants shared by every layer of the storage engine. */
module Common {

  datatype Option<+T> = None | Some(value: T)

  /** The error codes of `Status` that the modelled operations return. */
  datatype Error =
    | NotFound
    | Corruption
    | IOError
    | InvalidArgument
    | BufferPoolFull
    | PageFull
    | DuplicateKey
    | Internal

  datatype Result<+T> = Ok(value: T) | Err(error: Error)

  type PageId = int

  const INVALID_PAGE: PageId := -1
  const META_PAGE_ID: PageId := 0
  const CATALOG_ROOT_PAGE_ID: PageId := 1

  /** A page that can be handed out: neither "none" nor one of the two reserved pages. */
  predicate IsDataPage(p: PageId) {
    p != INVALID_PAGE && p > CATALOG_ROOT_PAGE_ID
  }

  /** The buffer pool refuses to fetch the meta page and "no page"; any other id it tries. */
  predicate CanFetch(p: PageId) {
    p != META_PAGE_ID && p != INVALID_PAGE
  }

  /** A row address. A default-constructed one names INVALID_PAGE and is not valid. */
  datatype RID = RID(pageId: PageId, slot: nat) {
    predicate IsValid() { pageId != INVALID_PAGE }
  }

  const PAGE_SIZE: nat := 4096
  const PAGE_HEADER_SIZE: nat := 32
  const PAGE_BODY_SIZE: nat := PAGE_SIZE - PAGE_HEADER_SIZE
}
