/** Error kinds of the query parser (error.go) and the result type that carries them. */
module Errors {

  /** The error kinds of error.go:5-9, plus the two ad-hoc malformed-query messages of parse.go.
      The message texts are cosmetic and are not modelled. */
  datatype ParseError =
    | MalformedQuery          // ErrorMalformedQuery: the final validity check failed
    | UnpairedQuotation       // ErrorUnpairedQuotation
    | UnpairedBracket         // ErrorUnpairedBracket
    | VerbSequence            // ErrorVerbSequence: declared, never returned by Parse
    | UnexpectedReservedRune  // ErrorUnexpectedReservedRune
    | UnexpectedVerbMarker    // ErrorMalformedQuery + "Unexpected + or -." (parse.go:60)
    | VerbCombination         // ErrorMalformedQuery + "Unexpected combination of verbs." (parse.go:82)

  /** The error of `NewSibling` on a node without a parent (node.go:73). */
  datatype NodeError = NoParent

  /** A value or an error, for Go's `(value, error)` return pairs. */
  datatype Result<T, E> = Success(value: T) | Failure(error: E)
}
