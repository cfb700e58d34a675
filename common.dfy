/** Small value types shared by the modules of the model. */
module Common {

  /** An octet, as in a `Uint8Array` or a Node `Buffer`. */
  type Byte = x: int | 0 <= x < 256

  /** A value that may be absent: JavaScript's `undefined`/`null` versus a value. */
  datatype Option<+T> = None | Some(value: T)

  /** JavaScript truthiness of an optional string: absent and "" are falsy. */
  predicate Truthy(s: Option<string>) {
    s.Some? && s.value != ""
  }

  /** The `??` operator: the first operand unless it is null/undefined. */
  function Coalesce<T>(a: Option<T>, b: Option<T>): (r: Option<T>)
    ensures a.Some? ==> r == a
    ensures a.None? ==> r == b
  {
    if a.Some? then a else b
  }

  /** A label as the labels API hands it to the client: `LabelDTO`. */
  datatype LabelDto = LabelDto(id: int, name: string, color: string)
}
