/**
 The slice of the Ruby object model that configuration resolution touches:
 the values a YAML or JSON document loads into, Ruby truthiness, and the
 `receiver[key]` operator with the exception each receiver class raises.
 */
module Values {

  /** Conventional Some/None. */
  datatype Option<+T> = None | Some(value: T)

  /** The Ruby exception classes the modelled code can raise. */
  datatype Fault = NoMethodError | TypeError

  /** A computation that either returns a value or raises. */
  datatype Result<+T> = Ok(value: T) | Raise(fault: Fault)

  /** A loaded YAML/JSON document: nil, booleans, integers, strings, arrays, hashes. */
  datatype Value =
    | Null
    | Bool(b: bool)
    | Num(n: int)
    | Str(s: string)
    | Arr(items: seq<Value>)
    | Obj(fields: map<string, Value>)

  /** The empty hash `{}`, the fallback of every lenient lookup. */
  const EmptyHash: Value := Obj(map[])

  /** Ruby truthiness: everything except `nil` and `false`. */
  predicate Truthy(v: Value) {
    !v.Null? && v != Bool(false)
  }

  /** `hash[key]` on a hash without a default. */
  function Lookup(h: map<string, Value>, key: string): (r: Value)
    ensures key !in h ==> r == Null
    ensures key in h ==> r == h[key]
  {
    if key in h then h[key] else Null
  }

  /** Whether `key` occurs as a contiguous substring of `s`. */
  predicate Contains(s: string, key: string)
    decreases |s|
  {
    if |s| < |key| then false
    else if s[..|key|] == key then true
    else |s| > 0 && Contains(s[1..], key)
  }

  /**
   `receiver[key]` with a String key: a Hash looks the key up, a String
   returns the key when it occurs in it (String#[]) and nil otherwise;
   nil, true and false have no `[]`, and Integer and Array refuse a
   String index.
   */
  function Index(v: Value, key: string): (r: Result<Value>)
    ensures r.Ok? <==> v.Obj? || v.Str?
    ensures r.Raise? && (v.Num? || v.Arr?) ==> r.fault == TypeError
    ensures r.Raise? && (v.Null? || v.Bool?) ==> r.fault == NoMethodError
    ensures v.Str? ==> r == Ok(Null) || r == Ok(Str(key))
    ensures v.Obj? ==> r == Ok(Lookup(v.fields, key))
  {
    match v
    case Obj(h) => Ok(Lookup(h, key))
    case Str(s) => Ok(if Contains(s, key) then Str(key) else Null)
    case Null => Raise(NoMethodError)
    case Bool(_) => Raise(NoMethodError)
    case Num(_) => Raise(TypeError)
    case Arr(_) => Raise(TypeError)
  }
}
