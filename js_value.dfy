/**
 * The JavaScript values the table widget handles: the records of the data
 * source, the values found along a key path, and the result of an operation
 * that may throw. Only the parts of JavaScript's semantics that the widget's
 * logic depends on are modelled: truthiness, property access and the
 * relational operators `<` / `>` on numbers and on strings.
 */
module JsValue {

  /** A JavaScript value. Objects (and arrays, whose indexes are string keys)
      are string-keyed maps; numbers are restricted to integers. */
  datatype Value =
    | Undefined
    | Null
    | Bool(b: bool)
    | Num(n: int)
    | Str(s: string)
    | Obj(fields: map<string, Value>)

  /** The exception an operation can raise. */
  datatype JsError = TypeError

  /** Either the value an expression evaluates to, or the exception it throws. */
  datatype Result<T> = Ok(value: T) | Thrown(error: JsError)

  datatype Option<T> = None | Some(value: T)

  /** JavaScript's ToBoolean: `undefined`, `null`, `false`, `0` and `""` are
      falsy; every other value, every object included, is truthy. */
  predicate Truthy(v: Value) {
    match v
    case Undefined => false
    case Null => false
    case Bool(b) => b
    case Num(n) => n != 0
    case Str(s) => s != ""
    case Obj(_) => true
  }

  /** Property access `v[key]`: throws on `undefined` and `null`, reads an own
      property of an object (a missing one reads as `undefined`), and yields
      `undefined` on the other primitives. */
  function Get(v: Value, key: string): (r: Result<Value>)
    ensures r.Thrown? <==> v.Undefined? || v.Null?
    ensures v.Obj? && key in v.fields ==> r == Ok(v.fields[key])
    ensures v.Obj? && key !in v.fields ==> r == Ok(Undefined)
    ensures !v.Obj? && !v.Undefined? && !v.Null? ==> r == Ok(Undefined)
  {
    match v
    case Undefined => Thrown(TypeError)
    case Null => Thrown(TypeError)
    case Obj(m) => if key in m then Ok(m[key]) else Ok(Undefined)
    case _ => Ok(Undefined)
  }

  /** JavaScript's `<` on two strings: lexicographic order of the characters,
      where a proper prefix is smaller than the longer string. */
  predicate StrLess(a: string, b: string)
    decreases |a|
  {
    if |b| == 0 then false
    else if |a| == 0 then true
    else if a[0] != b[0] then a[0] < b[0]
    else StrLess(a[1..], b[1..])
  }

  /** JavaScript's `a < b` on two numbers or two strings. Other combinations
      convert their operands first; the widget is modelled only on columns
      whose values share one of these two kinds, so they are `false` here. */
  predicate Less(a: Value, b: Value) {
    if a.Num? && b.Num? then a.n < b.n
    else if a.Str? && b.Str? then StrLess(a.s, b.s)
    else false
  }

  /** Two values that `Less` orders: both numbers or both strings. */
  predicate SameKind(a: Value, b: Value) {
    (a.Num? && b.Num?) || (a.Str? && b.Str?)
  }

  lemma {:induction false} StrLessIrreflexive(a: string)
    ensures !StrLess(a, a)
    decreases |a|
  {
    if |a| > 0 {
      StrLessIrreflexive(a[1..]);
    }
  }

  lemma {:induction false} StrLessAsymmetric(a: string, b: string)
    ensures StrLess(a, b) ==> !StrLess(b, a)
    decreases |a|
  {
    if |a| > 0 && |b| > 0 && a[0] == b[0] {
      StrLessAsymmetric(a[1..], b[1..]);
    }
  }

  lemma {:induction false} StrLessTransitive(a: string, b: string, c: string)
    ensures StrLess(a, b) && StrLess(b, c) ==> StrLess(a, c)
    decreases |a|
  {
    if |a| > 0 && |b| > 0 && |c| > 0 && a[0] == b[0] && b[0] == c[0] {
      StrLessTransitive(a[1..], b[1..], c[1..]);
    }
  }

  lemma {:induction false} StrLessTotal(a: string, b: string)
    ensures a == b || StrLess(a, b) || StrLess(b, a)
    decreases |a|
  {
    if |a| > 0 && |b| > 0 && a[0] == b[0] {
      StrLessTotal(a[1..], b[1..]);
      if a[1..] == b[1..] {
        assert a == [a[0]] + a[1..] && b == [b[0]] + b[1..];
      }
    }
  }

  /** On values of one kind, `Less` is a strict total order. */
  lemma LessStrictTotalOrder(a: Value, b: Value, c: Value)
    requires SameKind(a, b) && SameKind(b, c)
    ensures !Less(a, a)
    ensures Less(a, b) ==> !Less(b, a)
    ensures Less(a, b) && Less(b, c) ==> Less(a, c)
    ensures a == b || Less(a, b) || Less(b, a)
  {
    if a.Str? {
      StrLessIrreflexive(a.s);
      StrLessAsymmetric(a.s, b.s);
      StrLessTransitive(a.s, b.s, c.s);
      StrLessTotal(a.s, b.s);
    }
  }
}
