/**
 * The substring filter of `Tabular.filter`: a scan over the records in data
 * order that keeps the index of every record whose filter value, lower-cased,
 * contains the query. The query itself is not lower-cased.
 */
module TextFilter {
  import opened JsValue
  import opened Namespace
  import opened SortIndex

  /** `toLowerCase` on one character (ASCII letters only). */
  function LowerChar(c: char): char {
    if 'A' <= c <= 'Z' then (c as int + 32) as char else c
  }

  predicate IsUpper(c: char) {
    'A' <= c <= 'Z'
  }

  /** `s.toLowerCase()`: same length, each upper-case letter replaced by its
      lower-case letter, every other character kept, and no upper-case letter
      left. */
  function ToLowerCase(s: string): (r: string)
    ensures |r| == |s|
    ensures forall i :: 0 <= i < |s| && IsUpper(s[i]) ==> r[i] == (s[i] as int + 32) as char
    ensures forall i :: 0 <= i < |s| && !IsUpper(s[i]) ==> r[i] == s[i]
    ensures forall i :: 0 <= i < |s| ==> !IsUpper(r[i])
  {
    if s == [] then [] else [LowerChar(s[0])] + ToLowerCase(s[1..])
  }

  /** `needle` occurs in `hay` starting at position `p`. */
  predicate OccursAt(hay: string, needle: string, p: int) {
    0 <= p && p + |needle| <= |hay| && hay[p..p + |needle|] == needle
  }

  /** `hay.indexOf(needle, from)`: the first position at or after `from`
      where `needle` occurs, and -1 when there is none. */
  function IndexOf(hay: string, needle: string, from: nat): (k: int)
    ensures k == -1 <==> forall p :: from <= p ==> !OccursAt(hay, needle, p)
    ensures k != -1 ==> from <= k && OccursAt(hay, needle, k)
    ensures k != -1 ==> forall p :: from <= p < k ==> !OccursAt(hay, needle, p)
    decreases |hay| - from
  {
    if from + |needle| > |hay| then -1
    else if hay[from..from + |needle|] == needle then
      assert OccursAt(hay, needle, from);
      from
    else IndexOf(hay, needle, from + 1)
  }

  /** The key the filter reads: `this._mainKey || this.props.columns[0].key`.
      With no sorted column and no columns, reading `columns[0].key` throws. */
  function FilterProperty(mainKey: Option<string>, columnKeys: seq<string>): (r: Result<string>)
    ensures mainKey.Some? && mainKey.value != "" ==> r == Ok(mainKey.value)
    ensures (mainKey == None || mainKey == Some("")) && |columnKeys| > 0 ==> r == Ok(columnKeys[0])
    ensures (mainKey == None || mainKey == Some("")) && |columnKeys| == 0 ==> r.Thrown?
  {
    if mainKey.Some? && mainKey.value != "" then Ok(mainKey.value)
    else if |columnKeys| > 0 then Ok(columnKeys[0])
    else Thrown(TypeError)
  }

  /** Whether one record passes: its value at `filterProperty`, which must be
      a string (`toLowerCase` throws on anything else), lower-cased, contains
      `input`. */
  function Matches(record: Value, filterProperty: string, input: string): Result<bool> {
    match Resolve(record, filterProperty)
    case Thrown(e) => Thrown(e)
    case Ok(key) =>
      if key.Str? then Ok(IndexOf(ToLowerCase(key.s), input, 0) != -1)
      else Thrown(TypeError)
  }

  /** The indexes the scan has pushed after its first `n` records, or the
      exception it threw on one of them. */
  function FilterPrefix(data: seq<Value>, filterProperty: string, input: string, n: nat): Result<seq<nat>>
    requires n <= |data|
  {
    if n == 0 then Ok([])
    else
      match FilterPrefix(data, filterProperty, input, n - 1)
      case Thrown(e) => Thrown(e)
      case Ok(kept) =>
        match Matches(data[n - 1], filterProperty, input)
        case Thrown(e) => Thrown(e)
        case Ok(keep) => Ok(if keep then kept + [n - 1] else kept)
  }

  /** The loop of `filter`, with `getValueByNamespace` called as a method. */
  method FilterIndexes(data: seq<Value>, filterProperty: string, input: string) returns (r: Result<seq<nat>>)
    ensures r == FilterPrefix(data, filterProperty, input, |data|)
  {
    var filteredIndexes: seq<nat> := [];
    var index := 0;
    while index < |data|
      invariant 0 <= index <= |data|
      invariant FilterPrefix(data, filterProperty, input, index) == Ok(filteredIndexes)
    {
      var key := GetValueByNamespace(data[index], filterProperty, None, v => v);
      if key.Thrown? {
        FilterThrownStays(data, filterProperty, input, index + 1, |data|);
        return Thrown(key.error);
      }
      if !key.value.Str? {
        FilterThrownStays(data, filterProperty, input, index + 1, |data|);
        return Thrown(TypeError);
      }
      if IndexOf(ToLowerCase(key.value.s), input, 0) != -1 {
        filteredIndexes := filteredIndexes + [index];
      }
      index := index + 1;
    }
    r := Ok(filteredIndexes);
  }

  /** Once the scan has thrown it stops: the later records change nothing. */
  lemma {:induction false} FilterThrownStays(data: seq<Value>, filterProperty: string, input: string, n: nat, m: nat)
    requires n <= m <= |data| && FilterPrefix(data, filterProperty, input, n).Thrown?
    ensures FilterPrefix(data, filterProperty, input, m) == FilterPrefix(data, filterProperty, input, n)
    decreases m - n
  {
    if n < m {
      FilterThrownStays(data, filterProperty, input, n, m - 1);
    }
  }

  // ---------------------------------------------------------------------
  // What the filter keeps

  /** The kept indexes are strictly increasing and each names a record. */
  lemma {:induction false} FilterIncreasing(data: seq<Value>, filterProperty: string, input: string, n: nat)
    requires n <= |data| && FilterPrefix(data, filterProperty, input, n).Ok?
    ensures var kept := FilterPrefix(data, filterProperty, input, n).value;
      (forall i :: 0 <= i < |kept| ==> kept[i] < n) &&
      (forall i, j :: 0 <= i < j < |kept| ==> kept[i] < kept[j])
  {
    if n > 0 {
      FilterIncreasing(data, filterProperty, input, n - 1);
    }
  }

  /** A record is kept exactly when it matches. */
  lemma {:induction false} FilterMembership(data: seq<Value>, filterProperty: string, input: string, n: nat)
    requires n <= |data| && FilterPrefix(data, filterProperty, input, n).Ok?
    ensures forall x :: x in FilterPrefix(data, filterProperty, input, n).value <==>
      0 <= x < n && Matches(data[x], filterProperty, input) == Ok(true)
  {
    if n > 0 {
      FilterMembership(data, filterProperty, input, n - 1);
      FilterIncreasing(data, filterProperty, input, n - 1);
    }
  }

  /** The scan throws exactly when some record's value cannot be matched:
      the lookup throws, or the value is not a string. */
  lemma {:induction false} FilterThrows(data: seq<Value>, filterProperty: string, input: string, n: nat)
    requires n <= |data|
    ensures FilterPrefix(data, filterProperty, input, n).Thrown? <==>
      exists x :: 0 <= x < n && Matches(data[x], filterProperty, input).Thrown?
  {
    if n > 0 {
      FilterThrows(data, filterProperty, input, n - 1);
    }
  }

  /** An empty query keeps every row, in data order: the order of a previous
      sort is discarded. */
  lemma {:induction false} EmptyInputKeepsAll(data: seq<Value>, filterProperty: string, n: nat)
    requires n <= |data| && FilterPrefix(data, filterProperty, "", n).Ok?
    ensures FilterPrefix(data, filterProperty, "", n).value == Range(n)
  {
    if n > 0 {
      EmptyInputKeepsAll(data, filterProperty, n - 1);
      var key := Resolve(data[n - 1], filterProperty).value;
      assert OccursAt(ToLowerCase(key.s), "", 0);
    }
  }

  /** Since only the values are lower-cased, a query holding an upper-case
      letter keeps no row. */
  lemma {:induction false} UpperCaseInputKeepsNone(data: seq<Value>, filterProperty: string, input: string, n: nat)
    requires n <= |data| && FilterPrefix(data, filterProperty, input, n).Ok?
    requires exists c :: c in input && IsUpper(c)
    ensures FilterPrefix(data, filterProperty, input, n).value == []
  {
    if n > 0 {
      UpperCaseInputKeepsNone(data, filterProperty, input, n - 1);
      var key := Resolve(data[n - 1], filterProperty).value;
      var lower := ToLowerCase(key.s);
      var c :| c in input && IsUpper(c);
      var m :| 0 <= m < |input| && input[m] == c;
      forall p | 0 <= p
        ensures !OccursAt(lower, input, p)
      {
        if p + |input| <= |lower| {
          assert lower[p..p + |input|][m] == lower[p + m];
        }
      }
    }
  }
}
