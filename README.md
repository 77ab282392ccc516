# react-touchable-tabular: the sort, filter and scroll logic

This project models, in Dafny, the logic of the react-touchable-tabular data-grid widget.
Rendering is left out. What is modelled is the indirection layer between the loaded records and the displayed rows:

- the dotted key-path lookup `getValueByNamespace`;
- the `DataListWrapper` index map;
- the default index map built by `_index`;
- the sort that `_onSortChange` performs on a copy of that map;
- the sort-direction toggle of the column headers;
- the substring filter of `Tabular.filter`;
- the clamped vertical scroll update of `Tabular`.

The repository carries this logic twice. `src/index.js` holds the older `SortedTable` component, and `src/index.jsx` holds `Tabular`, which the example application uses. The helpers the two files share are modelled once, and each component is a class:

- `JsValue`: JavaScript values (records are string-keyed maps), truthiness, property access, and `<` on numbers and on strings.
- `Namespace`: `getValueByNamespace`, with its do-while loop as a method proved equal to a recursive specification.
- `SortHeader`: `SortTypes`, `reverseSortDirection` and `SortHeaderCell._onSortChange`.
- `DataList`: `DataListWrapper`.
- `SortIndex`: `_index` and the comparator sort of `_onSortChange`.
- `TextFilter`: the scan of `filter`.
- `SortedTableComponent`: the class `SortedTable` (src/index.js).
- `TabularComponent`: the class `Tabular` (src/index.jsx) and its scroll clamp.

Points where the code says something the names do not:

- **The comparator is inverted.** It returns 1 when `valueA > valueB` and negates the result for `ASC`. So an `ASC` sort puts keys in descending order, and a `DESC` sort (or any direction other than `ASC`) puts them in ascending order. The model follows the code.
- **The lookup's first step is unconditional.** The loop in `getValueByNamespace` is a do-while, so the first segment is applied before any truthiness test. A falsy number or string then yields `undefined`, and `null` or `undefined` throws. Later segments are applied only to truthy values.
- **The filter query is not lower-cased.** `filter` lower-cases each record's value but not the query. A query containing an upper-case letter therefore keeps no row.
- **The scroll bound can go negative.** The clamp keeps the offset in `[0, maxScrollY]` only while `maxScrollY` is non-negative. When the content is shorter than the table, any offset past 0 becomes the negative `maxScrollY`.

## Model

| member | source | states |
|---|---|---|
| `JsValue.Get` | src/index.js:140 | `curr[key]` throws exactly on `null`/`undefined`, reads an object's own property, and gives `undefined` for a missing one and on every other primitive |
| `JsValue.StrLessTransitive` | src/index.js:238-243 | string `<` is transitive |
| `JsValue.StrLessTotal` | src/index.js:238-243 | two different strings are ordered one way or the other by `<` |
| `JsValue.LessStrictTotalOrder` | src/index.js:238-243 | on two numbers or two strings, `<` is irreflexive, asymmetric, transitive and total |
| `Namespace.GetValueByNamespace` | src/index.js:133-151 | the do-while loop returns the coerced result of the recursive specification `Resolve`, including the exception |
| `Namespace.JoinSplit` | src/index.js:135 | joining the pieces of `namespace.split('.')` with dots gives the path back |
| `Namespace.SplitJoin` | src/index.js:135 | splitting a dot-joined list of dot-free segments gives the list back |
| `Namespace.EmptyPath` | src/index.js:137-143 | the first segment is empty exactly when the path is empty or starts with a dot, and then the record itself is returned |
| `Namespace.InnerEmptySegment` | src/index.js:137-143 | an empty segment after a non-empty first one ends the lookup: `k..rest` gives what `k` alone gives |
| `Namespace.SingleSegment` | src/index.js:137-143 | a one-segment path reads that property even from a falsy record, since the loop tests after its first step |
| `Namespace.ResolveFirstSegment` | src/index.js:137-143 | segments apply left to right: the rest of the path is applied only to a truthy value, and a falsy one is returned at once |
| `Namespace.ResolveThrows` | src/index.js:137-143 | the lookup throws if and only if the record is `null`/`undefined` and the first segment is non-empty |
| `Namespace.BoolAndRawCoercion` | src/index.js:146-150 | type `'bool'` gives `'Yes'` exactly for a truthy value and `'No'` otherwise; no type gives the raw value |
| `SortHeader.ReverseSortDirection` | src/index.js:129-131 | the result is `ASC` or `DESC`, and it is `ASC` exactly when the input is `DESC` |
| `SortHeader.ReverseTwice` | src/index.js:129-131 | reversing twice is the identity on `ASC`/`DESC` and maps every other string to `ASC` |
| `SortHeader.OnHeaderClick` | src/index.js:168-178 | with a handler, a click requests its own column: `DESC` when the current direction is falsy, otherwise the reverse of the current direction; without a handler, nothing |
| `SortHeader.ClicksAlternate` | src/index.js:168-178 | repeated clicks on one header alternate between two directions |
| `SortHeader.DirOf` | src/index.js:273 | a header's direction is present exactly when the column has an entry in `colSortDirs` |
| `SortHeader.ClickAfterSort` | src/index.js:249-254 | after a sort, clicking the sorted header requests the reverse direction and clicking any other header requests `DESC` |
| `DataList.DataListWrapper.GetSize` | src/index.js:196-198 | the size is the number of displayed rows, one per index-map entry |
| `DataList.DataListWrapper.GetObjectAt` | src/index.js:199-203 | row `i` is `data[indexMap[i]]`, and `undefined` outside the map |
| `DataList.RowsAt` | src/index.js:199-203 | the displayed row sequence agrees with `getObjectAt` at every row |
| `DataList.RowsPermutation` | src/index.js:191-204 | two index maps holding the same indexes display the same records, each the same number of times |
| `SortIndex.Range` | src/index.js:226-231 | the default index map has length `n` and holds `i` at position `i` |
| `SortIndex.PushIndexes` | src/index.js:226-231 | the loop of `_index` appends `0..n-1` to the existing indexes |
| `SortIndex.RangeRows` | src/index.js:220-223 | the default index map displays every record in data order |
| `SortIndex.Compare` | src/index.js:234-248 | the comparator always returns -1, 0 or 1 |
| `SortIndex.CompareMeaning` | src/index.js:234-248 | on keys of one kind the comparator is antisymmetric; "not after" means "no smaller" for directions other than `ASC` and "no larger" for `ASC` |
| `SortIndex.CompareTransitive` | src/index.js:234-248 | "not after" is transitive, so the comparator is a consistent total preorder |
| `SortIndex.SortedByMeaning` | src/index.js:234-248 | a map sorted by the comparator has no key smaller than an earlier one for directions other than `ASC`, and no key larger than an earlier one for `ASC` (both directions of the equivalence) |
| `SortIndex.SortInPlace` | src/index.js:234 | sorting the index array in place leaves it in the comparator's order and a permutation of its former contents |
| `SortIndex.SortedCopy` | src/index.js:233-248 | the sorted copy is a permutation of the default indexes and is in the comparator's order |
| `SortIndex.SortedRowsArePermutation` | src/index.js:233-250 | a sort of the default map displays every record exactly once |
| `SortedTableComponent.SortedTable.constructor` | src/index.js:207-216 | the table starts with no records, an empty default map, an empty display and no header directions |
| `SortedTableComponent.SortedTable.Index` | src/index.js:226-231 | `_index` appends `0..n-1` to the default map, for `n` loaded records |
| `SortedTableComponent.SortedTable.ComponentDidMount` | src/index.js:217-225 | with a data source, the default map becomes `0..n-1` and the display shows the records in data order; without one, nothing changes |
| `SortedTableComponent.SortedTable.OnSortChange` | src/index.js:232-255 | the display becomes a sorted permutation of the unchanged default map, and `colSortDirs` holds only the clicked column |
| `TabularComponent.Clamp` | src/index.jsx:123-130 | an offset at or below 0 becomes 0, one at or past `maxScrollY` becomes `maxScrollY`, and one in between is kept |
| `TabularComponent.ClampBounds` | src/index.jsx:121-131 | when `maxScrollY >= 0` the stored offset lies in `[0, maxScrollY]`, and clamping twice changes nothing |
| `TabularComponent.ClampNegativeBound` | src/index.jsx:121-131 | when `maxScrollY < 0` a positive candidate is set to the negative bound |
| `TabularComponent.ClampMonotone` | src/index.jsx:121-131 | for `maxScrollY >= 0`, a larger candidate never gives a smaller offset |
| `TabularComponent.Tabular.constructor` | src/index.jsx:100-119 | the table starts empty with offsets 0, no main key, and `maxScrollY` equal to the table height |
| `TabularComponent.Tabular.ScrollHandle` | src/index.jsx:121-131 | the handler sets only its named field, to `top - deltaY` clamped |
| `TabularComponent.Tabular.OnContentHeightChange` | src/index.jsx:203-205 | `maxScrollY` becomes the content height minus the table height |
| `TabularComponent.Tabular.Index` | src/index.jsx:168-173 | `_index` appends `0..n-1` to the default map |
| `TabularComponent.Tabular.ComponentDidMount` | src/index.jsx:134-141 | with a data source, the default map becomes `0..n-1` and the display shows the records in data order |
| `TabularComponent.Tabular.Filter` | src/index.jsx:154-167 | the display becomes the filter scan's result over the filter property; when the property or a value throws, the display is unchanged |
| `TabularComponent.Tabular.OnSortChange` | src/index.jsx:175-201 | records the column as the main key; the display becomes a sorted permutation of the unchanged default map; only the clicked column keeps a direction |
| `TextFilter.ToLowerCase` | src/index.jsx:160 | lower-casing keeps the length, replaces each upper-case letter by its lower-case letter, keeps every other character, and leaves no upper-case letter |
| `TextFilter.IndexOf` | src/index.jsx:160 | `indexOf` is -1 exactly when the query occurs nowhere; otherwise the query occurs at the result and at no earlier position |
| `TextFilter.FilterProperty` | src/index.jsx:157 | the filter key is the main key when it is truthy, else the first column's key, and reading it throws when there are no columns |
| `TextFilter.FilterIndexes` | src/index.jsx:158-163 | the loop returns the specification's kept indexes, or the exception of the first record that cannot be matched |
| `TextFilter.FilterThrownStays` | src/index.jsx:158-163 | once the scan throws, later records do not change the outcome |
| `TextFilter.FilterIncreasing` | src/index.jsx:154-165 | the kept indexes are strictly increasing and each is below the number of records |
| `TextFilter.FilterMembership` | src/index.jsx:158-163 | index `x` is kept if and only if record `x`'s lower-cased value contains the query |
| `TextFilter.FilterThrows` | src/index.jsx:158-163 | the scan throws if and only if some record's lookup throws or gives a non-string |
| `TextFilter.EmptyInputKeepsAll` | src/index.jsx:158-163 | an empty query keeps every row, in data order, discarding any previous sort |
| `TextFilter.UpperCaseInputKeepsNone` | src/index.jsx:160 | a query containing an upper-case letter keeps no row |

## Left out

- Rendering is not modelled. This covers every `render` method, `TextCell`, `renderColumn` and the `Table`/`Column`/`Cell` composition, which only produce output for the fixed-data-table virtualizer.
- Touch handling is not modelled. This covers `isTouchDevice`, `TouchableArea`, `TouchableWrapper` and the Hammer manager setup, which probe the DOM and forward events to the scroller and hammerjs libraries. The gesture-to-handler wiring appears only as the `ScrollField` parameter of `ScrollHandle`.
- The `'date'` coercion calls the Moment library. It is a function parameter `formatDate` of `GetValueByNamespace`, since the two files format differently (`fromNow` and `format('lll')`).
- The asynchronous data fetch is not modelled. The list that `getDataSource` resolves to is a parameter of `ComponentDidMount`. React calls `componentDidMount` once per component, so it requires the constructed (empty) default map.
- `setState` is modelled as an immediate assignment. React's batching and asynchronous update are not modelled.
- `SortedTable._onContentHeightChange` is not modelled, nor are the column widths. Both are floating-point layout values, and the former reads an unbound `this`.
- The horizontal offsets `left`, `scrollLeft` and `maxScrollX` are only initialised. No handler ever writes them (`leftProps` is unused).
- `SortIndex.SortInPlace`: `Array.prototype.sort` is a library call. An insertion sort stands in for it, and only its result (ordered by the comparator, a permutation) is claimed. The relative order of equal keys, which depends on the library's algorithm, is not.
- `SortedTableComponent.SortedTable.OnSortChange` and `TabularComponent.Tabular.OnSortChange` require a column whose lookup succeeds on every record and yields only numbers or only strings. JavaScript's `<` on mixed types, on `NaN` and on objects, and a lookup that throws inside the comparator, are not modelled.
- `JsValue.StrLessTotal`: strings are compared by Unicode scalar value. JavaScript compares UTF-16 code units, which orders characters outside the Basic Multilingual Plane differently.
- `TextFilter.ToLowerCase` lowers only the ASCII letters `A`-`Z`. JavaScript's full Unicode case mapping is not modelled.
- `JsValue.Get` models an object's own properties only. Properties of primitive values (a string's `length` and indexed characters) and inherited properties (`Object.prototype` members) read as `undefined` here.
- Numbers are integers. Floating-point values of sort keys, `deltaY` and heights are not modelled.
- The initial `Tabular` wrapper shares `_defaultSortIndexes` with the component, so `_index` also grows the wrapper's index map. This aliasing is not modelled, because the wrapper is replaced as soon as the data is indexed.
