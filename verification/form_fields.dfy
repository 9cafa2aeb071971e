/**
 * Request-body fields as they arrive: absent, a JSON number, or text (a
 * multipart form field or a JSON string), with the two checks the handlers
 * apply to them: truthiness and conversion to a number.
 */
module FormFields {
  import opened Wrappers

  datatype Field = Absent | Number(n: real) | Text(s: string)

  /** A field passes a presence check when it is truthy: a non-zero number or non-empty text. */
  predicate Truthy(f: Field) {
    match f
    case Absent => false
    case Number(n) => n != 0.0
    case Text(s) => s != ""
  }

  /**
   * The number a field converts to. `parse` is the text-to-number conversion
   * the handler uses, None where it yields no number.
   */
  function ToNumber(f: Field, parse: string -> Option<real>): Option<real> {
    match f
    case Absent => None
    case Number(n) => Some(n)
    case Text(s) => parse(s)
  }
}
