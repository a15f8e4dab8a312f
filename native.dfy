/** What crosses the boundary to the native layer: node references, the
    JavaScript values passed through unchanged, the response of a UI method,
    and the calls the Element makes, recorded as events in call order. */
module Native {

  /** An opaque reference to a native node; the model never looks inside. */
  datatype NodeRef = NodeRef(id: nat)

  /** The JavaScript values that pass through as `unknown`. */
  datatype Value =
    | Undefined
    | Null
    | Bool(b: bool)
    | Number(n: real)
    | Str(s: string)
    | List(items: seq<Value>)
    | Object(fields: seq<(string, Value)>)

  /** What `__InvokeUIMethod` hands to its callback. */
  datatype Response = Response(code: int, data: Value)

  /** One call into the native layer:
      `__SetAttribute`, `__AddInlineStyle`, `__InvokeUIMethod` and `__FlushElementTree`. */
  datatype Event =
    | SetAttr(node: NodeRef, name: string, value: Value)
    | InlineStyle(node: NodeRef, property: string, css: string)
    | InvokeUI(node: NodeRef, methodName: string, params: Value)
    | Flush

  /** `x ?? fallback`: both `undefined` and `null` give way to the fallback. */
  function Nullish(x: Value, fallback: Value): (r: Value)
    ensures (x.Undefined? || x.Null?) ==> r == fallback
    ensures !(x.Undefined? || x.Null?) ==> r == x
  {
    if x.Undefined? || x.Null? then fallback else x
  }
}
