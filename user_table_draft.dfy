/**
 * The one piece of behaviour the paginated draft of the user table adds to
 * the column definitions: its page-size select, which hands the table an
 * updater that goes back to the first page.
 */
module UserTableDraft {
  import opened Wrappers
  import opened UrlPagination
  import opened SearchParams

  /** The values the page-size select offers. */
  const PageSizeOptions: seq<int> := [5, 10, 15, 20]

  /** `old => ({...old, pageIndex: 0, pageSize: newSize})`; a cursor has no other fields to keep. */
  function PageSizeChange(newSize: int): Updater {
    Apply(prev => Cursor(Some(0), Some(newSize)))
  }

  /** Whatever the current cursor, the updater gives page 0 at the new size. */
  lemma PageSizeChangeResets(newSize: int, current: Cursor)
    ensures Resolve(PageSizeChange(newSize), current) == Cursor(Some(0), Some(newSize))
  {
  }

  /**
   * Choosing any option of the select and writing the result into the URL,
   * the table then reads back the first page at that size.
   */
  lemma PageSizeChangeRoundTrip(q: Query, k: nat)
    requires k < |PageSizeOptions|
    ensures var next := Resolve(PageSizeChange(PageSizeOptions[k]), Derive(q));
      Derive(Write(q, next)) == Cursor(Some(0), Some(PageSizeOptions[k]))
  {
    var next := Resolve(PageSizeChange(PageSizeOptions[k]), Derive(q));
    WriteThenDerive(q, next);
  }
}
