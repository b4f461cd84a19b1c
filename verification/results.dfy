/** Failure-carrying datatypes shared by the whole model.

    The library reports every failure by throwing `JSONException` (or, in two
    places, an index exception from `String.substring` and a class-cast
    exception).  The model turns each of those throws into a `Failure` value
    carrying an `Error` that says which throw it was, so that every operation
    is a total, pure function.
 */
module Results {

  /** Java's nullable reference, for the few places where the library
      distinguishes `null` from a value. */
  datatype Option<+T> = None | Some(value: T)

  /** Where a syntax error was detected, as an index into the token stream. */
  type Position = nat

  datatype SyntaxKind =
    | MustStartWithBracket   // "A JSONArray text must start with '['"
    | MissingValue           // the tokenizer found no value where one was expected
    | ExpectedCommaOrBracket // "Expected a ',' or ']'"
    | UnbalancedBraces       // "Unbalanced '{' or '}' on prop: ..."

  datatype Error =
    | NotFound(index: int)              // "JSONArray[i] not found."
    | NotBoolean(index: int)            // "JSONArray[i] is not a Boolean."
    | NotArray(index: int)              // "JSONArray[i] is not a JSONArray."
    | NotObject(index: int)             // "JSONArray[i] is not a JSONObject."
    | Syntax(kind: SyntaxKind, at: Position)
    | UnsupportedType                   // "Unsupported type"
    | MalformedFunction(at: Position)   // substring(1, len - 1) on a function text shorter than 2
    | CastFailure                       // ClassCastException from a `(JSONObject)` cast
    | Collaborator(reason: string)      // thrown by code outside this model

  datatype Result<+T> = Success(value: T) | Failure(error: Error) {

    predicate IsFailure() {
      Failure?
    }

    function PropagateFailure<U>(): Result<U>
      requires Failure?
    {
      Failure(error)
    }

    function Extract(): T
      requires Success?
    {
      value
    }
  }
}
