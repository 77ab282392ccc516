/**
 * The sort engine shared by both table components: the default index map
 * built by `_index`, and the re-sort of a copy of it done by
 * `_onSortChange` with its three-way comparator.
 *
 * The comparator returns 1 when `valueA > valueB`, -1 when `valueA <
 * valueB`, 0 otherwise, and negates a non-zero result when the direction is
 * `ASC`. An array sorted with it is therefore in ascending key order for
 * `DESC` (and any direction other than `ASC`), and in descending key order
 * for `ASC`.
 */
module SortIndex {
  import opened JsValue
  import opened Namespace
  import opened DataList
  import opened SortHeader

  /** `[0, 1, ..., n - 1]`, the default index map. */
  function Range(n: nat): (r: seq<nat>)
    ensures |r| == n
    ensures forall i :: 0 <= i < n ==> r[i] == i
  {
    if n == 0 then [] else Range(n - 1) + [n - 1]
  }

  /** The loop of `_index`: push `0, 1, ..., n - 1` onto `indexes`. */
  method PushIndexes(indexes: seq<nat>, n: nat) returns (r: seq<nat>)
    ensures r == indexes + Range(n)
  {
    r := indexes;
    var index := 0;
    while index < n
      invariant 0 <= index <= n
      invariant r == indexes + Range(index)
    {
      r := r + [index];
      index := index + 1;
    }
  }

  /** The default index map shows every record, in data order. */
  lemma RangeRows(data: seq<Value>)
    ensures Rows(Range(|data|), data) == data
  {
    var r := Range(|data|);
    forall i | 0 <= i < |data|
      ensures Rows(r, data)[i] == data[i]
    {
      RowsAt(r, data, i);
    }
  }

  /** Every index in `s` names one of `n` records. */
  predicate InRange(s: seq<nat>, n: nat) {
    forall i :: 0 <= i < |s| ==> s[i] < n
  }

  /** The value the comparator reads for a record: `getValueByNamespace`
      without a type. (`undefined` stands in where the lookup throws; the
      sort is only modelled on columns where it does not.) */
  function SortKey(record: Value, columnKey: string): Value {
    match Resolve(record, columnKey)
    case Ok(v) => v
    case Thrown(_) => Undefined
  }

  /** The sort key of every record. */
  function Keys(data: seq<Value>, columnKey: string): (keys: seq<Value>)
    ensures |keys| == |data|
    ensures forall x :: 0 <= x < |data| ==> keys[x] == SortKey(data[x], columnKey)
  {
    seq(|data|, x requires 0 <= x < |data| => SortKey(data[x], columnKey))
  }

  /** All keys are numbers, or all keys are strings. */
  predicate Homogeneous(keys: seq<Value>) {
    (forall x :: 0 <= x < |keys| ==> keys[x].Num?) ||
    (forall x :: 0 <= x < |keys| ==> keys[x].Str?)
  }

  /** A column the sort is modelled on: the lookup succeeds on every record
      and yields values of one kind. */
  predicate Sortable(data: seq<Value>, columnKey: string) {
    (forall x :: 0 <= x < |data| ==> Resolve(data[x], columnKey).Ok?) &&
    Homogeneous(Keys(data, columnKey))
  }

  /** The comparator of `_onSortChange`, applied to the two keys. */
  function Compare(sortDir: string, valueA: Value, valueB: Value): (c: int)
    ensures -1 <= c <= 1
  {
    var sortVal := if Less(valueA, valueB) then -1 else if Less(valueB, valueA) then 1 else 0;
    if sortVal != 0 && sortDir == ASC then -sortVal else sortVal
  }

  /** What the comparator means on keys of one kind: it is antisymmetric, and
      "not after" is "no smaller" for `ASC`'s opposite and "no larger" for
      `ASC`. */
  lemma CompareMeaning(sortDir: string, a: Value, b: Value)
    requires SameKind(a, b)
    ensures Compare(sortDir, a, b) == -Compare(sortDir, b, a)
    ensures sortDir != ASC ==> (Compare(sortDir, a, b) <= 0 <==> !Less(b, a))
    ensures sortDir == ASC ==> (Compare(sortDir, a, b) <= 0 <==> !Less(a, b))
  {
    LessStrictTotalOrder(a, b, a);
  }

  /** "Not after" is a total preorder on keys of one kind. */
  lemma CompareTransitive(sortDir: string, a: Value, b: Value, c: Value)
    requires SameKind(a, b) && SameKind(b, c)
    requires Compare(sortDir, a, b) <= 0 && Compare(sortDir, b, c) <= 0
    ensures Compare(sortDir, a, c) <= 0
  {
    CompareMeaning(sortDir, a, b);
    CompareMeaning(sortDir, b, c);
    CompareMeaning(sortDir, a, c);
    LessStrictTotalOrder(a, b, c);
    LessStrictTotalOrder(c, b, a);
    LessStrictTotalOrder(a, c, b);
    LessStrictTotalOrder(b, a, c);
  }

  /** The index map `s` is in the comparator's order. */
  predicate SortedBy(s: seq<nat>, keys: seq<Value>, sortDir: string) {
    InRange(s, |keys|) &&
    forall p, q :: 0 <= p < q < |s| ==> Compare(sortDir, keys[s[p]], keys[s[q]]) <= 0
  }

  /** A sorted index map, read back through the keys: for any direction but
      `ASC` no key is smaller than one before it, for `ASC` no key is larger. */
  lemma {:induction false} SortedByMeaning(s: seq<nat>, keys: seq<Value>, sortDir: string)
    requires Homogeneous(keys) && InRange(s, |keys|)
    ensures sortDir != ASC ==>
      (SortedBy(s, keys, sortDir) <==> forall p, q :: 0 <= p < q < |s| ==> !Less(keys[s[q]], keys[s[p]]))
    ensures sortDir == ASC ==>
      (SortedBy(s, keys, sortDir) <==> forall p, q :: 0 <= p < q < |s| ==> !Less(keys[s[p]], keys[s[q]]))
  {
    forall p, q | 0 <= p < q < |s|
      ensures Compare(sortDir, keys[s[p]], keys[s[q]]) <= 0 <==>
        (if sortDir != ASC then !Less(keys[s[q]], keys[s[p]]) else !Less(keys[s[p]], keys[s[q]]))
    {
      CompareMeaning(sortDir, keys[s[p]], keys[s[q]]);
    }
  }

  /** Any two keys of a homogeneous list are of one kind. */
  lemma HomogeneousSameKind(keys: seq<Value>, x: nat, y: nat)
    requires Homogeneous(keys) && x < |keys| && y < |keys|
    ensures SameKind(keys[x], keys[y])
  {
  }

  /** The first `n` entries of `s` are in the comparator's order. */
  predicate SortedPrefix(s: seq<nat>, n: nat, keys: seq<Value>, sortDir: string)
    requires n <= |s| && InRange(s, |keys|)
  {
    forall p, q :: 0 <= p < q < n ==> Compare(sortDir, keys[s[p]], keys[s[q]]) <= 0
  }

  /** The invariant of one insertion pass, with the entry being inserted at
      `j`: the entries up to `i` other than it are in order, and it comes
      before every entry to its right. */
  predicate InsertionInv(s: seq<nat>, i: nat, j: nat, keys: seq<Value>, sortDir: string) {
    j <= i < |s| && InRange(s, |keys|) &&
    (forall p, q :: 0 <= p < q <= i && p != j && q != j ==> Compare(sortDir, keys[s[p]], keys[s[q]]) <= 0) &&
    (forall q :: j < q <= i ==> Compare(sortDir, keys[s[j]], keys[s[q]]) <= 0)
  }

  /** A pass starts with the new entry at `i` and a sorted prefix before it. */
  lemma InsertionStart(s: seq<nat>, i: nat, keys: seq<Value>, sortDir: string)
    requires i < |s| && InRange(s, |keys|)
    requires SortedPrefix(s, i, keys, sortDir)
    ensures InsertionInv(s, i, i, keys, sortDir)
  {
  }

  /** Swapping the entry being inserted with a neighbour that must come after
      it keeps the invariant, one place to the left. */
  lemma InsertionStep(s: seq<nat>, t: seq<nat>, i: nat, j: nat, keys: seq<Value>, sortDir: string)
    requires Homogeneous(keys) && InsertionInv(s, i, j, keys, sortDir) && 0 < j
    requires t == s[j - 1 := s[j]][j := s[j - 1]]
    requires Compare(sortDir, keys[s[j - 1]], keys[s[j]]) > 0
    ensures InsertionInv(t, i, j - 1, keys, sortDir)
  {
    HomogeneousSameKind(keys, s[j - 1], s[j]);
    CompareMeaning(sortDir, keys[s[j - 1]], keys[s[j]]);
  }

  /** When the entry being inserted stops at `j`, the prefix up to `i` is in
      order: the only pairs not covered by the invariant go through the entry
      at `j - 1`, by transitivity. */
  lemma InsertionClosed(s: seq<nat>, i: nat, j: nat, keys: seq<Value>, sortDir: string)
    requires Homogeneous(keys) && InsertionInv(s, i, j, keys, sortDir)
    requires j > 0 ==> Compare(sortDir, keys[s[j - 1]], keys[s[j]]) <= 0
    ensures SortedPrefix(s, i + 1, keys, sortDir)
  {
    forall p | 0 <= p < j - 1
      ensures Compare(sortDir, keys[s[p]], keys[s[j]]) <= 0
    {
      HomogeneousSameKind(keys, s[p], s[j - 1]);
      HomogeneousSameKind(keys, s[j - 1], s[j]);
      CompareTransitive(sortDir, keys[s[p]], keys[s[j - 1]], keys[s[j]]);
    }
  }

  /** One pass of the insertion sort: moves `a[i]` left past the entries
      that must come after it. */
  method InsertInto(a: array<nat>, i: nat, keys: seq<Value>, sortDir: string)
    requires i < a.Length
    requires Homogeneous(keys) && InRange(a[..], |keys|)
    requires SortedPrefix(a[..], i, keys, sortDir)
    modifies a
    ensures InRange(a[..], |keys|)
    ensures SortedPrefix(a[..], i + 1, keys, sortDir)
    ensures multiset(a[..]) == multiset(old(a[..]))
    ensures a[i + 1..] == old(a[i + 1..])
  {
    var j: nat := i;
    InsertionStart(a[..], i, keys, sortDir);
    while j > 0 && Compare(sortDir, keys[a[j - 1]], keys[a[j]]) > 0
      invariant InsertionInv(a[..], i, j, keys, sortDir)
      invariant multiset(a[..]) == multiset(old(a[..]))
      invariant a[i + 1..] == old(a[i + 1..])
    {
      ghost var before := a[..];
      a[j - 1], a[j] := a[j], a[j - 1];
      InsertionStep(before, a[..], i, j, keys, sortDir);
      j := j - 1;
    }
    InsertionClosed(a[..], i, j, keys, sortDir);
  }

  /** `sortIndexes.sort(comparator)`: sorts the index array in place. The
      library's algorithm is not specified; an insertion sort stands in for
      it, and only its result (sorted, a permutation) is claimed. */
  method SortInPlace(a: array<nat>, keys: seq<Value>, sortDir: string)
    requires Homogeneous(keys) && InRange(a[..], |keys|)
    modifies a
    ensures SortedBy(a[..], keys, sortDir)
    ensures multiset(a[..]) == multiset(old(a[..]))
  {
    var i := 0;
    while i < a.Length
      invariant 0 <= i <= a.Length
      invariant InRange(a[..], |keys|)
      invariant SortedPrefix(a[..], i, keys, sortDir)
      invariant multiset(a[..]) == multiset(old(a[..]))
    {
      InsertInto(a, i, keys, sortDir);
      i := i + 1;
    }
  }

  /** `this._defaultSortIndexes.slice()` sorted by the comparator: the
      default indexes reordered, in the comparator's order. */
  method SortedCopy(defaults: seq<nat>, keys: seq<Value>, sortDir: string) returns (sorted: seq<nat>)
    requires Homogeneous(keys) && InRange(defaults, |keys|)
    ensures multiset(sorted) == multiset(defaults)
    ensures SortedBy(sorted, keys, sortDir)
  {
    var a := new nat[|defaults|](i requires 0 <= i < |defaults| => defaults[i]);
    assert a[..] == defaults;
    SortInPlace(a, keys, sortDir);
    sorted := a[..];
  }

  /** Sorting the default index map shows every record exactly once. */
  lemma SortedRowsArePermutation(sorted: seq<nat>, data: seq<Value>)
    requires multiset(sorted) == multiset(Range(|data|))
    ensures multiset(Rows(sorted, data)) == multiset(data)
  {
    RowsPermutation(sorted, Range(|data|), data);
    RangeRows(data);
  }
}
