/** The resource record the application stores in `ResourceManager.resources`:
    one saved link with its display fields. */
module Records {

  /** `createdAt` is an ISO-8601 timestamp in the application; here it is the
      instant it denotes, as an integer, which is all the ordering looks at. */
  datatype Resource = Resource(
    title: string,
    url: string,
    email: string,
    category: string,
    notes: string,
    pinned: bool,
    createdAt: int)

  /** The category given to a record whose category was left empty. */
  const Uncategorized := "Sin Categoría"
}
