/** The runtime values of runtime/values.ts: a number, or the null value, whose
    `value` field is always the string "null". */
module Values {

  datatype RuntimeValue = NumberValue(value: real) | NullValue

  /** The `type` tag of a value. */
  function ValueType(v: RuntimeValue): (tag: string)
    ensures tag == "number" || tag == "null"
    ensures tag == "number" <==> v.NumberValue?
  {
    if v.NumberValue? then "number" else "null"
  }
}
