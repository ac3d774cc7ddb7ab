/**
 * The persisted table of extracted rows, viewed abstractly: either no file
 * exists, or a file holds a single column "Context" of text rows.
 */
module DataHandler {
  import opened Wrappers

  /** The rows of the "Context" column, in file order. */
  type Table = seq<string>

  /** The file on disk: `None` when it does not exist. */
  type Store = Option<Table>

  /** Reading the table: a missing file reads as the empty table. */
  function Load(store: Store): (rows: Table)
    ensures store.None? ==> rows == []
    ensures store.Some? ==> rows == store.value
  {
    match store
    case Some(rows) => rows
    case None => []
  }

  /** Writing the table: the file is replaced in full by `data`, whatever it held before. */
  function Save(store: Store, data: Table): (store': Store)
    ensures store'.Some?
  {
    Some(data)
  }

  /** Loading what was saved gives back exactly the saved rows, in order, regardless of the prior file. */
  lemma LoadAfterSave(store: Store, data: Table)
    ensures Load(Save(store, data)) == data
  {
  }

  /** A second save wholly supersedes the first: no rows of the earlier write survive. */
  lemma SaveOverwrites(store: Store, first: Table, second: Table)
    ensures Save(Save(store, first), second) == Save(store, second)
  {
  }
}
