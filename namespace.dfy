/**
 * `getValueByNamespace`: reads the value a dotted key path such as
 * `"owner.address.city"` selects in a record, then optionally coerces it for
 * display. The path is split on `'.'` and the segments are applied left to
 * right by a do-while loop that stops after an empty segment, after the last
 * segment, or as soon as the value reached is falsy.
 */
module Namespace {
  import opened JsValue

  /** `s.split('.')`: the pieces between the dots, never an empty list. */
  function Split(s: string): (parts: seq<string>)
    ensures |parts| >= 1
    ensures forall i :: 0 <= i < |parts| ==> '.' !in parts[i]
  {
    if |s| == 0 then [""]
    else
      var rest := Split(s[1..]);
      if s[0] == '.' then [""] + rest
      else [[s[0]] + rest[0]] + rest[1..]
  }

  /** `parts.join('.')`, the inverse of `Split`. */
  function Join(parts: seq<string>): string
    requires |parts| >= 1
  {
    if |parts| == 1 then parts[0] else parts[0] + "." + Join(parts[1..])
  }

  /** The body of the do-while loop, then its test, repeated: `curr` is the
      value reached so far and `names` the segments not yet shifted off.
      `names.shift()` on an empty list gives `undefined`, which, like an empty
      segment, is falsy and ends the loop without a step. A step is taken
      whatever `curr` is (the test comes after the body), and the loop goes
      on only while the value it reached is truthy. */
  function Walk(curr: Value, names: seq<string>): Result<Value>
    decreases |names|
  {
    if |names| == 0 || names[0] == "" then Ok(curr)
    else
      match Get(curr, names[0])
      case Thrown(e) => Thrown(e)
      case Ok(next) => if Truthy(next) then Walk(next, names[1..]) else Ok(next)
  }

  /** The raw value at `namespace` in `obj`, as the loop computes it. */
  function Resolve(obj: Value, namespace: string): Result<Value> {
    Walk(obj, Split(namespace))
  }

  /** The display coercion chosen by the column's `type`: `'date'` formats the
      value with the date library (a parameter here), `'bool'` gives `'Yes'`
      or `'No'`, anything else leaves it as it is. An exception passes through. */
  function Coerce(r: Result<Value>, ty: Option<string>, formatDate: Value -> Value): Result<Value> {
    match r
    case Thrown(e) => Thrown(e)
    case Ok(v) =>
      if ty == Some("date") then Ok(formatDate(v))
      else if ty == Some("bool") then Ok(if Truthy(v) then Str("Yes") else Str("No"))
      else Ok(v)
  }

  /** `getValueByNamespace(obj, namespace, type)`, with its do-while loop. */
  method GetValueByNamespace(obj: Value, namespace: string, ty: Option<string>, formatDate: Value -> Value)
    returns (r: Result<Value>)
    ensures r == Coerce(Resolve(obj, namespace), ty, formatDate)
  {
    var curr := obj;
    var names := Split(namespace);
    while true
      invariant Walk(curr, names) == Resolve(obj, namespace)
      decreases |names|
    {
      // key = names.shift()
      var key: Option<string> := None;
      if |names| > 0 {
        key := Some(names[0]);
        names := names[1..];
      }
      var keyTruthy := key.Some? && key.value != "";
      if keyTruthy {
        var next := Get(curr, key.value);
        if next.Thrown? {
          return Thrown(next.error);
        }
        curr := next.value;
      }
      if !(keyTruthy && Truthy(curr)) {
        break;
      }
    }
    r := Coerce(Ok(curr), ty, formatDate);
  }

  // ---------------------------------------------------------------------
  // The path syntax

  lemma {:induction false} JoinCons(x: string, y: string, t: seq<string>)
    ensures Join([x + y] + t) == x + Join([y] + t)
  {
    if |t| > 0 {
      assert ([x + y] + t)[1..] == t;
      assert ([y] + t)[1..] == t;
    }
  }

  /** Joining the pieces of a path gives the path back. */
  lemma {:induction false} JoinSplit(s: string)
    ensures Join(Split(s)) == s
    decreases |s|
  {
    if |s| > 0 {
      var rest := Split(s[1..]);
      JoinSplit(s[1..]);
      if s[0] == '.' {
        assert ([""] + rest)[1..] == rest;
      } else {
        JoinCons([s[0]], rest[0], rest[1..]);
        assert [rest[0]] + rest[1..] == rest;
      }
      assert s == [s[0]] + s[1..];
    }
  }

  /** A segment without a dot splits to itself. */
  lemma {:induction false} SplitSegment(k: string)
    requires '.' !in k
    ensures Split(k) == [k]
    decreases |k|
  {
    if |k| > 0 {
      SplitSegment(k[1..]);
      assert k == [k[0]] + k[1..];
    }
  }

  /** A leading segment followed by a dot splits off first. */
  lemma {:induction false} SplitFirst(k: string, rest: string)
    requires '.' !in k
    ensures Split(k + "." + rest) == [k] + Split(rest)
    decreases |k|
  {
    var s := k + "." + rest;
    if |k| == 0 {
      assert s[1..] == rest;
    } else {
      assert s[1..] == k[1..] + "." + rest;
      SplitFirst(k[1..], rest);
      assert [k[0]] + k[1..] == k;
    }
  }

  /** Splitting a joined list of dot-free segments gives the list back. */
  lemma {:induction false} SplitJoin(parts: seq<string>)
    requires |parts| >= 1
    requires forall i :: 0 <= i < |parts| ==> '.' !in parts[i]
    ensures Split(Join(parts)) == parts
    decreases |parts|
  {
    if |parts| == 1 {
      SplitSegment(parts[0]);
    } else {
      SplitJoin(parts[1..]);
      SplitFirst(parts[0], Join(parts[1..]));
      assert [parts[0]] + parts[1..] == parts;
    }
  }

  // ---------------------------------------------------------------------
  // What the lookup returns

  /** The lookup stops at an empty segment. The first segment is empty
      exactly when the path is empty or starts with a dot, and such a path
      returns the record itself, whatever follows. */
  lemma {:induction false} EmptyPath(obj: Value, namespace: string)
    ensures Split(namespace)[0] == "" <==> namespace == "" || namespace[0] == '.'
    ensures Split(namespace)[0] == "" ==> Resolve(obj, namespace) == Ok(obj)
  {
  }

  /** One non-empty segment reads that property, whatever the record is: the
      do-while takes its first step before it tests anything, so a falsy
      number or string yields `undefined` and `null`/`undefined` throw. */
  lemma {:induction false} SingleSegment(obj: Value, k: string)
    requires k != "" && '.' !in k
    ensures Resolve(obj, k) == Get(obj, k)
  {
    SplitSegment(k);
    assert [k][1..] == [];
    if Get(obj, k).Ok? {
      assert Walk(Get(obj, k).value, []) == Ok(Get(obj, k).value);
    }
  }

  /** Segments are applied left to right: the first one is read, and the rest
      of the path is applied to its value only when that value is truthy;
      a falsy value is returned at once. */
  lemma {:induction false} ResolveFirstSegment(obj: Value, k: string, rest: string)
    requires k != "" && '.' !in k
    ensures Resolve(obj, k + "." + rest) ==
      match Get(obj, k)
      case Thrown(e) => Thrown(e)
      case Ok(next) => if Truthy(next) then Resolve(next, rest) else Ok(next)
  {
    SplitFirst(k, rest);
    assert ([k] + Split(rest))[1..] == Split(rest);
  }

  /** An empty segment after the first ends the lookup there: `k..rest`
      gives what `k` alone gives, whatever `rest` holds. */
  lemma {:induction false} InnerEmptySegment(obj: Value, k: string, rest: string)
    requires k != "" && '.' !in k
    ensures Resolve(obj, k + ".." + rest) == Get(obj, k)
  {
    assert k + ".." + rest == k + "." + ("." + rest);
    ResolveFirstSegment(obj, k, "." + rest);
    if Get(obj, k).Ok? {
      EmptyPath(Get(obj, k).value, "." + rest);
    }
  }

  /** The lookup throws only when the record itself is `null` or `undefined`
      and the path starts with a non-empty segment: every later step starts
      from a truthy value. */
  lemma {:induction false} ResolveThrows(obj: Value, namespace: string)
    ensures Resolve(obj, namespace).Thrown? <==>
      (obj.Undefined? || obj.Null?) && Split(namespace)[0] != ""
  {
    var names := Split(namespace);
    if names[0] != "" && Get(obj, names[0]).Ok? {
      var next := Get(obj, names[0]).value;
      if Truthy(next) {
        WalkFromTruthy(next, names[1..]);
      }
    }
  }

  lemma {:induction false} WalkFromTruthy(curr: Value, names: seq<string>)
    requires Truthy(curr)
    ensures Walk(curr, names).Ok?
    decreases |names|
  {
    if |names| > 0 && names[0] != "" {
      var next := Get(curr, names[0]).value;
      if Truthy(next) {
        WalkFromTruthy(next, names[1..]);
      }
    }
  }

  /** With type `'bool'` the result is `'Yes'` exactly when the raw value is
      truthy and `'No'` otherwise; with no type it is the raw value. */
  lemma BoolAndRawCoercion(obj: Value, namespace: string, formatDate: Value -> Value)
    requires Resolve(obj, namespace).Ok?
    ensures Coerce(Resolve(obj, namespace), Some("bool"), formatDate) ==
      Ok(Str(if Truthy(Resolve(obj, namespace).value) then "Yes" else "No"))
    ensures Coerce(Resolve(obj, namespace), None, formatDate) == Resolve(obj, namespace)
  {
  }
}
