/**
 The few JavaScript value rules the task manager leans on: a request-body
 field may be missing, `null` or a value; `a || b` falls back on a falsy
 left operand; and object spread `{...a, ...b}` lets every key present in
 `b` override `a`.
 */
module Js {

  /** A stored nullable reference, e.g. a task's assigned user. */
  datatype Option<+T> = None | Some(value: T)

  /** A field of a JSON body: absent (undefined), null, or a value. */
  datatype Field<+T> = Absent | Null | Val(v: T)

  /** JavaScript truthiness of a string-valued field: only a non-empty string is truthy. */
  predicate Truthy(f: Field<string>) {
    f.Val? && f.v != ""
  }

  /** `a || b` for string-valued fields. */
  function StrOr(a: Field<string>, b: Field<string>): (r: Field<string>)
    ensures Truthy(a) ==> r == a
    ensures !Truthy(a) ==> r == b
  {
    if Truthy(a) then a else b
  }

  /** `a || fallback` for reference-valued fields: every id is truthy. */
  function RefOr<T>(a: Field<T>, fallback: Option<T>): (r: Option<T>)
    ensures a.Val? ==> r == Some(a.v)
    ensures !a.Val? ==> r == fallback
  {
    if a.Val? then Some(a.v) else fallback
  }

  /** The key-wise effect of `{...under, ...over}` on a body that went through JSON:
      a key absent from `over` keeps `under`'s value; a key present in `over`, even as null, wins. */
  function Spread<T>(under: Field<T>, over: Field<T>): (r: Field<T>)
    ensures over.Absent? ==> r == under
    ensures !over.Absent? ==> r == over
  {
    if over.Absent? then under else over
  }

  /** Lifts a stored nullable reference into a JSON field. */
  function FromOption<T>(o: Option<T>): (f: Field<T>)
    ensures o.Some? <==> f.Val?
    ensures f.Val? ==> f.v == o.value
    ensures !f.Absent?
  {
    match o
    case Some(x) => Val(x)
    case None => Null
  }
}
