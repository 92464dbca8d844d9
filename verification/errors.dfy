/** The exceptions the modelled code can raise. The library's own error
    classes come first; the Ruby core errors that the code raises on nil or
    ill-formed values follow. */
module Errors {
  import opened Wrappers

  datatype Error =
    | UnknownCardAttribute(attribute: string)
    | InsufficientOptions
    | CardNameAmbiguousOrNotFound(name: Option<string>)
    | UnknownCostSymbol(alt: Option<string>)
      /** `NoMethodError`: a method was called on nil. */
    | NoMethodOnNil(call: string)
      /** `TypeError`: nil given where an Integer is needed. */
    | TypeError
      /** `ArgumentError`: a String that `Integer()` does not accept. */
    | ArgumentError(arg: string)

  type Outcome<T> = Result<T, Error>
}
