/** The values a CEL function binding receives (`ref.Val`), as far as the bindings look at them. */
module Cel {

  datatype Val =
    | StrVal(s: string)
    | IntVal(i: int)
    | BoolVal(b: bool)
    | OtherVal
}
