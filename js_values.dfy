/**
 * The JavaScript values the relay touches: everything `JSON.parse` can
 * produce, plus `undefined` for a property that is absent. Only the
 * operations the server applies to them are defined: truthiness, the
 * nullish test that decides whether a property read throws, and reading
 * the `name` property of a controller's registration payload.
 */
module JsValues {

  datatype Value =
    | Undefined
    | Null
    | Bool(b: bool)
    | Num(n: real)
    | Str(s: string)
    | Arr(items: seq<Value>)
    | Obj(fields: seq<(string, Value)>)

  /** JavaScript truthiness, as used by `if (v)` and `v || w`. */
  predicate Truthy(v: Value) {
    match v
    case Undefined => false
    case Null => false
    case Bool(b) => b
    case Num(n) => n != 0.0
    case Str(s) => s != ""
    case Arr(_) => true
    case Obj(_) => true
  }

  /** `null` and `undefined`: reading any property of these throws a TypeError. */
  predicate Nullish(v: Value) {
    v.Undefined? || v.Null?
  }

  /** `String(v)`, as a template literal applies it, throws a TypeError.
      A parsed object with its own `toString` member shadows the inherited
      method with a value that is not callable, and its inherited `valueOf`
      returns the object itself, so no primitive is reached. An array is
      converted by joining its items, so it throws when one of them does.
      Every other JSON value converts. */
  predicate ToStringThrows(v: Value) {
    match v
    case Obj(fields) => exists i :: 0 <= i < |fields| && fields[i].0 == "toString"
    case Arr(items) => exists i :: 0 <= i < |items| && ToStringThrows(items[i])
    case _ => false
  }

  /** The member `key` of a parsed object: when the JSON text repeats a key,
      the last occurrence wins; an absent key reads as `undefined`. */
  function LastMember(fields: seq<(string, Value)>, key: string): Value
  {
    if fields == [] then Undefined
    else if fields[|fields| - 1].0 == key then fields[|fields| - 1].1
    else LastMember(fields[..|fields| - 1], key)
  }

  /** `LastMember` yields the value of the last field named `key`, and
      `undefined` exactly when no field has that name. */
  lemma {:induction false} LastMemberSpec(fields: seq<(string, Value)>, key: string, i: nat)
    requires i < |fields| && fields[i].0 == key
    requires forall j :: i < j < |fields| ==> fields[j].0 != key
    ensures LastMember(fields, key) == fields[i].1
  {
    if i < |fields| - 1 {
      LastMemberSpec(fields[..|fields| - 1], key, i);
    }
  }

  lemma {:induction false} LastMemberAbsent(fields: seq<(string, Value)>, key: string)
    requires forall j :: 0 <= j < |fields| ==> fields[j].0 != key
    ensures LastMember(fields, key) == Undefined
  {
    if fields != [] {
      LastMemberAbsent(fields[..|fields| - 1], key);
    }
  }

  /** `v.name` for a value that is not nullish. Strings, numbers, booleans
      and arrays have no `name` property, so only an object can supply one. */
  function NameProperty(v: Value): (r: Value)
    requires !Nullish(v)
    ensures !v.Obj? ==> r == Undefined
  {
    if v.Obj? then LastMember(v.fields, "name") else Undefined
  }
}
