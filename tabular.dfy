/**
 * `Tabular`, the table component the example application uses. Beside the
 * sorting of `SortedTable` it remembers the last sorted column (`_mainKey`),
 * filters the records on it, and keeps its own vertical scroll offset, moved
 * by pan gestures and clamped to the scrollable height.
 */
module TabularComponent {
  import opened JsValue
  import opened DataList
  import opened SortIndex
  import opened TextFilter

  /** The state field a scroll handler writes (`topProps`): `scrollTop` for
      `swipe`/`pan` events, `top` for `panend`. */
  datatype ScrollField = ScrollTop | Top

  /** The new offset the scroll handler stores: `candidate` when it lies
      strictly between 0 and `maxScrollY`, otherwise the bound it crossed
      (0 is tested first). */
  function Clamp(candidate: int, maxScrollY: int): (r: int)
    ensures candidate <= 0 ==> r == 0
    ensures 0 < candidate < maxScrollY ==> r == candidate
    ensures 0 < candidate && maxScrollY <= candidate ==> r == maxScrollY
  {
    if candidate <= 0 then 0
    else if candidate >= maxScrollY then maxScrollY
    else candidate
  }

  /** With a non-negative scrollable height the offset stays within it, and
      clamping again changes nothing. */
  lemma ClampBounds(candidate: int, maxScrollY: int)
    requires maxScrollY >= 0
    ensures 0 <= Clamp(candidate, maxScrollY) <= maxScrollY
    ensures Clamp(Clamp(candidate, maxScrollY), maxScrollY) == Clamp(candidate, maxScrollY)
  {
  }

  /** When the content is shorter than the table, `maxScrollY` is negative
      and any offset past 0 is set to it: the bound is not kept then. */
  lemma ClampNegativeBound(candidate: int, maxScrollY: int)
    requires maxScrollY < 0 < candidate
    ensures Clamp(candidate, maxScrollY) == maxScrollY < 0
  {
  }

  /** The clamped offset moves the same way as the candidate. */
  lemma ClampMonotone(c1: int, c2: int, maxScrollY: int)
    requires c1 <= c2 && maxScrollY >= 0
    ensures Clamp(c1, maxScrollY) <= Clamp(c2, maxScrollY)
  {
  }

  class Tabular {
    /** `props.tableHeight`, `props.tableWidth`, and the keys of `props.columns`. */
    const tableHeight: int
    const tableWidth: int
    const columnKeys: seq<string>

    /** `this._mainKey`: the last sorted column, `null` before any sort. */
    var mainKey: Option<string>
    var dataList: seq<Value>
    var defaultSortIndexes: seq<nat>
    var sortedDataList: DataListWrapper
    var colSortDirs: map<string, string>
    var top: int
    var left: int
    var scrollTop: int
    var scrollLeft: int
    var maxScrollY: int
    var maxScrollX: int

    ghost predicate Valid()
      reads this
    {
      InRange(defaultSortIndexes, |dataList|) &&
      sortedDataList.data == dataList && sortedDataList.Valid()
    }

    constructor (tableHeight: int, tableWidth: int, columnKeys: seq<string>)
      ensures Valid()
      ensures this.tableHeight == tableHeight && this.tableWidth == tableWidth && this.columnKeys == columnKeys
      ensures mainKey == None && dataList == [] && defaultSortIndexes == []
      ensures sortedDataList == DataListWrapper([], []) && colSortDirs == map[]
      ensures top == 0 && left == 0 && scrollTop == 0 && scrollLeft == 0
      ensures maxScrollY == tableHeight && maxScrollX == tableWidth
    {
      this.tableHeight := tableHeight;
      this.tableWidth := tableWidth;
      this.columnKeys := columnKeys;
      mainKey := None;
      dataList := [];
      defaultSortIndexes := [];
      sortedDataList := DataListWrapper([], []);
      colSortDirs := map[];
      top, left, scrollTop, scrollLeft := 0, 0, 0, 0;
      maxScrollY := tableHeight;
      maxScrollX := tableWidth;
    }

    /** The handler `_getScrollHanle(field, ...)` returns, run on an event
        with vertical displacement `deltaY`: it sets `field` alone to
        `top - deltaY` clamped, measured from `top` whichever field it sets. */
    method ScrollHandle(field: ScrollField, deltaY: int)
      modifies this`top, this`scrollTop
      ensures field == ScrollTop ==> scrollTop == Clamp(old(top) - deltaY, maxScrollY) && top == old(top)
      ensures field == Top ==> top == Clamp(old(top) - deltaY, maxScrollY) && scrollTop == old(scrollTop)
    {
      var candidate := top - deltaY;
      var next;
      if candidate <= 0 {
        next := 0;
      } else if candidate >= maxScrollY {
        next := maxScrollY;
      } else {
        next := candidate;
      }
      if field == ScrollTop {
        scrollTop := next;
      } else {
        top := next;
      }
    }

    /** `_onContentHeightChange`: the scrollable height is what the content
        exceeds the table by. */
    method OnContentHeightChange(contentHeight: int)
      modifies this`maxScrollY
      ensures maxScrollY == contentHeight - tableHeight
    {
      maxScrollY := contentHeight - tableHeight;
    }

    /** `_index`: pushes the indexes of all loaded records onto the default
        index map. */
    method Index()
      modifies this`defaultSortIndexes
      ensures defaultSortIndexes == old(defaultSortIndexes) + Range(|dataList|)
    {
      defaultSortIndexes := PushIndexes(defaultSortIndexes, |dataList|);
    }

    /** `componentDidMount`: with a data source (the list it resolves to is
        passed in), stores the records, indexes them and displays them in data
        order. React mounts a component once, on its constructed state. */
    method ComponentDidMount(source: Option<seq<Value>>)
      requires Valid() && defaultSortIndexes == []
      modifies this`dataList, this`defaultSortIndexes, this`sortedDataList
      ensures Valid()
      ensures source.None? ==> dataList == old(dataList) && defaultSortIndexes == [] && sortedDataList == old(sortedDataList)
      ensures source.Some? ==> dataList == source.value && defaultSortIndexes == Range(|dataList|)
      ensures source.Some? ==> sortedDataList == DataListWrapper(Range(|dataList|), dataList)
    {
      if source.Some? {
        dataList := source.value;
        Index();
        sortedDataList := DataListWrapper(defaultSortIndexes, dataList);
      }
    }

    /** `filter(input)`: displays, in data order, the records whose value at
        the filter property contains `input` once lower-cased. When the
        property cannot be found or a value is not a string it throws, and the
        display is left as it was. */
    method Filter(input: string) returns (r: Result<()>)
      requires Valid()
      modifies this`sortedDataList
      ensures Valid()
      ensures FilterProperty(mainKey, columnKeys).Thrown? ==> r.Thrown? && sortedDataList == old(sortedDataList)
      ensures FilterProperty(mainKey, columnKeys).Ok? ==>
        var kept := FilterPrefix(dataList, FilterProperty(mainKey, columnKeys).value, input, |dataList|);
        (kept.Thrown? ==> r.Thrown? && sortedDataList == old(sortedDataList)) &&
        (kept.Ok? ==> r.Ok? && sortedDataList == DataListWrapper(kept.value, dataList))
    {
      var filterProperty := FilterProperty(mainKey, columnKeys);
      if filterProperty.Thrown? {
        return Thrown(filterProperty.error);
      }
      var filteredIndexes := FilterIndexes(dataList, filterProperty.value, input);
      if filteredIndexes.Thrown? {
        return Thrown(filteredIndexes.error);
      }
      FilterIncreasing(dataList, filterProperty.value, input, |dataList|);
      sortedDataList := DataListWrapper(filteredIndexes.value, dataList);
      r := Ok(());
    }

    /** `_onSortChange(columnKey, sortDir)`: records the column as the filter
        key, displays a sorted copy of the default index map, which itself is
        left as it was, and shows `sortDir` on the sorted column only. */
    method OnSortChange(columnKey: string, sortDir: string)
      requires Valid() && Sortable(dataList, columnKey)
      modifies this`mainKey, this`sortedDataList, this`colSortDirs
      ensures Valid()
      ensures mainKey == Some(columnKey)
      ensures defaultSortIndexes == old(defaultSortIndexes) && dataList == old(dataList)
      ensures sortedDataList.data == dataList
      ensures multiset(sortedDataList.indexMap) == multiset(defaultSortIndexes)
      ensures SortedBy(sortedDataList.indexMap, Keys(dataList, columnKey), sortDir)
      ensures colSortDirs == map[columnKey := sortDir]
    {
      mainKey := Some(columnKey);
      var sortIndexes := SortedCopy(defaultSortIndexes, Keys(dataList, columnKey), sortDir);
      sortedDataList := DataListWrapper(sortIndexes, dataList);
      colSortDirs := map[columnKey := sortDir];
    }
  }
}
