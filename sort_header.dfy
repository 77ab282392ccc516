/**
 * The sort directions and the sortable column header: `SortTypes`,
 * `reverseSortDirection` and `SortHeaderCell._onSortChange`, which turns a
 * click on a header into a request to sort its column.
 */
module SortHeader {
  import opened JsValue

  const ASC: string := "ASC"
  const DESC: string := "DESC"

  /** `reverseSortDirection`: `DESC` becomes `ASC`, anything else `DESC`. */
  function ReverseSortDirection(sortDir: string): (r: string)
    ensures r == ASC || r == DESC
    ensures r == ASC <==> sortDir == DESC
  {
    if sortDir == DESC then ASC else DESC
  }

  /** Reversing twice is the identity on the two directions; any other
      string is sent to `ASC`. */
  lemma ReverseTwice(sortDir: string)
    ensures sortDir == ASC || sortDir == DESC ==> ReverseSortDirection(ReverseSortDirection(sortDir)) == sortDir
    ensures sortDir != ASC && sortDir != DESC ==> ReverseSortDirection(ReverseSortDirection(sortDir)) == ASC
  {
  }

  /** The `(columnKey, sortDir)` pair a header passes to `onSortChange`. */
  datatype SortRequest = SortRequest(columnKey: string, sortDir: string)

  /** The direction the table shows on a column's header,
      `colSortDirs[columnKey]`: `undefined` (here `None`) when absent. */
  function DirOf(colSortDirs: map<string, string>, columnKey: string): (d: Option<string>)
    ensures d.Some? <==> columnKey in colSortDirs
    ensures d.Some? ==> d.value == colSortDirs[columnKey]
  {
    if columnKey in colSortDirs then Some(colSortDirs[columnKey]) else None
  }

  /** `SortHeaderCell._onSortChange`: when the header has an `onSortChange`
      handler, it asks for its column to be sorted `DESC` if its current
      direction is falsy (absent or empty) and in the reverse of the current
      direction otherwise; without a handler nothing happens. */
  function OnHeaderClick(columnKey: string, sortDir: Option<string>, hasHandler: bool): (r: Option<SortRequest>)
    ensures r.Some? <==> hasHandler
    ensures r.Some? ==> r.value.columnKey == columnKey
    ensures r.Some? ==> r.value.sortDir == ASC || r.value.sortDir == DESC
    ensures r.Some? && (sortDir == None || sortDir == Some("")) ==> r.value.sortDir == DESC
    ensures r.Some? && sortDir.Some? && sortDir.value != "" ==>
      (r.value.sortDir == ASC <==> sortDir.value == DESC)
  {
    if !hasHandler then None
    else
      var dirTruthy := sortDir.Some? && sortDir.value != "";
      Some(SortRequest(columnKey, if dirTruthy then ReverseSortDirection(sortDir.value) else DESC))
  }

  /** Repeated clicks on one header, each applied to the table before the
      next, alternate between two different directions: the first click asks
      for `DESC` from a falsy direction and for the reverse of the current
      direction otherwise. */
  lemma ClicksAlternate(columnKey: string, sortDir: Option<string>)
    ensures var first := OnHeaderClick(columnKey, sortDir, true).value.sortDir;
            var second := OnHeaderClick(columnKey, Some(first), true).value.sortDir;
            second != first && OnHeaderClick(columnKey, Some(second), true).value.sortDir == first
  {
  }

  /** After a sort of `columnKey` in direction `sortDir` the table shows
      `sortDir` on that header alone, so clicking it again asks for the
      reverse direction and clicking any other header asks for `DESC`. */
  lemma ClickAfterSort(columnKey: string, sortDir: string, other: string)
    requires sortDir != "" && other != columnKey
    ensures OnHeaderClick(columnKey, DirOf(map[columnKey := sortDir], columnKey), true) ==
      Some(SortRequest(columnKey, ReverseSortDirection(sortDir)))
    ensures OnHeaderClick(other, DirOf(map[columnKey := sortDir], other), true) ==
      Some(SortRequest(other, DESC))
  {
  }
}
