/** The entry records shared by the client library and the entry cache. */
module EntryTypes {

  /** The two kinds of entry the application shows. */
  datatype EntryType = Quote | Journal

  /** One row of the entry table after client-side normalisation. */
  datatype EntryMeta = EntryMeta(id: string, kind: EntryType, author: string, date: string, pageTitle: string)
}
