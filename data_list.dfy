/**
 * `DataListWrapper`: the indirection the table renders through. Display row
 * `i` shows record `data[indexMap[i]]`, so sorting and filtering only build a
 * new index map and never move the records.
 */
module DataList {
  import opened JsValue

  /** `data[x]`, which JavaScript reads as `undefined` past the end. */
  function Record(data: seq<Value>, x: nat): (v: Value)
    ensures x < |data| ==> v == data[x]
    ensures x >= |data| ==> v == Undefined
  {
    if x < |data| then data[x] else Undefined
  }

  /** The records an index map shows, in display order. */
  function Rows(indexMap: seq<nat>, data: seq<Value>): (rows: seq<Value>)
    ensures |rows| == |indexMap|
  {
    if indexMap == [] then [] else [Record(data, indexMap[0])] + Rows(indexMap[1..], data)
  }

  datatype DataListWrapper = DataListWrapper(indexMap: seq<nat>, data: seq<Value>) {

    /** Every display row refers to a record. */
    predicate Valid() {
      forall i :: 0 <= i < |indexMap| ==> indexMap[i] < |data|
    }

    /** `getSize()`: the number of display rows. */
    function GetSize(): (n: nat)
      ensures n == |Rows(indexMap, data)|
    {
      |indexMap|
    }

    /** `getObjectAt(index)`: `data[indexMap[index]]`, and `undefined` for an
        index outside the map (JavaScript reads both lookups as `undefined`). */
    function GetObjectAt(index: int): (v: Value)
      ensures 0 <= index < GetSize() && Valid() ==> v == data[indexMap[index]]
      ensures !(0 <= index < GetSize()) ==> v == Undefined
    {
      if 0 <= index < |indexMap| then Record(data, indexMap[index]) else Undefined
    }
  }

  lemma {:induction false} RowsAt(indexMap: seq<nat>, data: seq<Value>, i: nat)
    requires i < |indexMap|
    ensures Rows(indexMap, data)[i] == DataListWrapper(indexMap, data).GetObjectAt(i)
    decreases |indexMap|
  {
    if i > 0 {
      RowsAt(indexMap[1..], data, i - 1);
    }
  }

  lemma {:induction false} RowsAppend(a: seq<nat>, b: seq<nat>, data: seq<Value>)
    ensures Rows(a + b, data) == Rows(a, data) + Rows(b, data)
    decreases |a|
  {
    if a == [] {
      assert a + b == b;
    } else {
      assert (a + b)[1..] == a[1..] + b;
      RowsAppend(a[1..], b, data);
    }
  }

  /** Taking the entry at `j` out of an index map takes its record out of
      the rows. */
  lemma RowsRemoveAt(b: seq<nat>, j: nat, data: seq<Value>)
    requires j < |b|
    ensures multiset(b) == multiset(b[..j] + b[j + 1..]) + multiset{b[j]}
    ensures multiset(Rows(b, data)) == multiset(Rows(b[..j] + b[j + 1..], data)) + multiset{Record(data, b[j])}
  {
    assert b == b[..j] + ([b[j]] + b[j + 1..]);
    RowsAppend(b[..j], [b[j]] + b[j + 1..], data);
    RowsAppend([b[j]], b[j + 1..], data);
    RowsAppend(b[..j], b[j + 1..], data);
  }

  lemma MultisetCancel<T>(m1: multiset<T>, m2: multiset<T>, x: T)
    requires m1 + multiset{x} == m2 + multiset{x}
    ensures m1 == m2
  {
    assert forall y :: m1[y] == (m1 + multiset{x})[y] - multiset{x}[y];
    assert forall y :: m2[y] == (m2 + multiset{x})[y] - multiset{x}[y];
  }

  /** Two index maps holding the same indexes show the same records, each as
      many times: reordering the map only reorders the rows. */
  lemma {:induction false} RowsPermutation(a: seq<nat>, b: seq<nat>, data: seq<Value>)
    requires multiset(a) == multiset(b)
    ensures multiset(Rows(a, data)) == multiset(Rows(b, data))
    decreases |a|
  {
    if a != [] {
      var x := a[0];
      assert x in b by {
        assert x in multiset(b);
      }
      var j :| 0 <= j < |b| && b[j] == x;
      var rest := b[..j] + b[j + 1..];
      RowsRemoveAt(b, j, data);
      RowsRemoveAt(a, 0, data);
      assert a[..0] + a[1..] == a[1..];
      MultisetCancel(multiset(a[1..]), multiset(rest), x);
      RowsPermutation(a[1..], rest, data);
    }
  }
}
