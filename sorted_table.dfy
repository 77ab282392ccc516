/**
 * `SortedTable`, the older table component: it loads the records once, builds
 * the default index map, and on a header click replaces the displayed index
 * map with a sorted copy of the default one.
 */
module SortedTableComponent {
  import opened JsValue
  import opened DataList
  import opened SortIndex

  class SortedTable {
    /** `this._dataList`: the records, as loaded. */
    var dataList: seq<Value>
    /** `this._defaultSortIndexes`: the index map in data order. */
    var defaultSortIndexes: seq<nat>
    /** `state.sortedDataList`: what the table displays. */
    var sortedDataList: DataListWrapper
    /** `state.colSortDirs`: the direction shown on each column's header. */
    var colSortDirs: map<string, string>

    /** Every index map refers to loaded records, and the displayed one reads
        the loaded list. */
    ghost predicate Valid()
      reads this
    {
      InRange(defaultSortIndexes, |dataList|) &&
      sortedDataList.data == dataList && sortedDataList.Valid()
    }

    constructor ()
      ensures Valid()
      ensures dataList == [] && defaultSortIndexes == []
      ensures sortedDataList == DataListWrapper([], []) && colSortDirs == map[]
    {
      dataList := [];
      defaultSortIndexes := [];
      sortedDataList := DataListWrapper([], []);
      colSortDirs := map[];
    }

    /** `_index`: pushes the indexes of all loaded records onto the default
        index map. */
    method Index()
      modifies this`defaultSortIndexes
      ensures defaultSortIndexes == old(defaultSortIndexes) + Range(|dataList|)
    {
      defaultSortIndexes := PushIndexes(defaultSortIndexes, |dataList|);
    }

    /** `componentDidMount`: with a data source (the list it resolves to is
        passed in), stores the records, indexes them, and displays them in data
        order. React mounts a component once, on its constructed state. */
    method ComponentDidMount(source: Option<seq<Value>>)
      requires Valid() && defaultSortIndexes == []
      modifies this
      ensures Valid()
      ensures source.None? ==> unchanged(this)
      ensures source.Some? ==> dataList == source.value && defaultSortIndexes == Range(|dataList|)
      ensures source.Some? ==> sortedDataList == DataListWrapper(Range(|dataList|), dataList)
      ensures colSortDirs == old(colSortDirs)
    {
      if source.Some? {
        dataList := source.value;
        Index();
        sortedDataList := DataListWrapper(defaultSortIndexes, dataList);
      }
    }

    /** `_onSortChange(columnKey, sortDir)`: displays a sorted copy of the
        default index map, which itself is left as it was, and shows `sortDir`
        on the sorted column only. */
    method OnSortChange(columnKey: string, sortDir: string)
      requires Valid() && Sortable(dataList, columnKey)
      modifies this`sortedDataList, this`colSortDirs
      ensures Valid()
      ensures defaultSortIndexes == old(defaultSortIndexes) && dataList == old(dataList)
      ensures sortedDataList.data == dataList
      ensures multiset(sortedDataList.indexMap) == multiset(defaultSortIndexes)
      ensures SortedBy(sortedDataList.indexMap, Keys(dataList, columnKey), sortDir)
      ensures colSortDirs == map[columnKey := sortDir]
    {
      var sortIndexes := SortedCopy(defaultSortIndexes, Keys(dataList, columnKey), sortDir);
      sortedDataList := DataListWrapper(sortIndexes, dataList);
      colSortDirs := map[columnKey := sortDir];
    }
  }
}
