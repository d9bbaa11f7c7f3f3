/** C# reference values that may be `null`: the result structs' string and
    array fields, and the `MethodInfo` that `FirstOrDefault` yields when no
    element matches. */
module Nullables {

  datatype Nullable<+T> = Null | NonNull(value: T)
}
