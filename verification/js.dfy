/** JavaScript runtime values as the dashboard's code observes them: optional
    values, loosely typed JSON-like values, and JavaScript truthiness. */
module Js {

  /** `undefined`-or-value, used for optional record fields and absent keys. */
  datatype Option<+T> = None | Some(value: T) {
    function GetOr(default: T): T {
      match this
      case Some(v) => v
      case None => default
    }
  }

  /** A value received from the network or kept in a store. `List` holds the
      records of an array; `Obj` holds the properties of a plain object. */
  datatype Value<T> =
    | Undefined
    | Null
    | Bool(b: bool)
    | Num(n: real)
    | Str(s: string)
    | List(items: seq<T>)
    | Obj(fields: map<string, Value<T>>)

  /** JavaScript truthiness: `undefined`, `null`, `false`, `0` and `""` are
      falsy, every array and object is truthy. */
  predicate Truthy<T>(v: Value<T>) {
    match v
    case Undefined => false
    case Null => false
    case Bool(b) => b
    case Num(n) => n != 0.0
    case Str(s) => s != ""
    case List(_) => true
    case Obj(_) => true
  }

  /** Property read `v[key]`: a missing property, or a property of a
      primitive or an array, reads as `undefined`. Reading a property of
      `null` or `undefined` throws; callers rule those out first. */
  function Get<T>(v: Value<T>, key: string): (r: Value<T>)
    ensures r != Undefined ==> v.Obj? && key in v.fields && r == v.fields[key]
    ensures v.Obj? && key in v.fields ==> r == v.fields[key]
  {
    if v.Obj? && key in v.fields then v.fields[key] else Undefined
  }

  /** Truthiness of an optional string (`undefined` or `""` is falsy). */
  predicate Present(s: Option<string>) {
    s.Some? && s.value != ""
  }
  /** The UTF-16 code units one character takes in a JavaScript string: two
      for a character outside the Basic Multilingual Plane (a surrogate
      pair), one otherwise. */
  function CodeUnits(c: char): nat {
    if c as int >= 0x1_0000 then 2 else 1
  }

  /** `s.length` of a JavaScript string, which counts UTF-16 code units and
      not characters. */
  function Utf16Length(s: string): (r: nat)
    ensures |s| <= r <= 2 * |s|
    ensures r == 0 <==> s == []
    ensures (forall i :: 0 <= i < |s| ==> s[i] as int < 0x1_0000) ==> r == |s|
    ensures (forall i :: 0 <= i < |s| ==> s[i] as int >= 0x1_0000) ==> r == 2 * |s|
  {
    if s == [] then 0 else CodeUnits(s[0]) + Utf16Length(s[1..])
  }

  /** `(a + b).length == a.length + b.length`. */
  lemma {:induction false} Utf16LengthAppend(a: string, b: string)
    ensures Utf16Length(a + b) == Utf16Length(a) + Utf16Length(b)
  {
    if a != [] {
      assert (a + b)[0] == a[0] && (a + b)[1..] == a[1..] + b;
      Utf16LengthAppend(a[1..], b);
    } else {
      assert a + b == b;
    }
  }

  /** An emoji is one character but two code units. */
  lemma EmojiIsTwoUnits()
    ensures |"\U{1F600}"| == 1 && Utf16Length("\U{1F600}") == 2
  {
  }
}
