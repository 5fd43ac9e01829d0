/** Shared value types and the character-level predicates that the backend's
    Bean Validation annotations and the frontend's form checks rely on. */
module Common {

  /** A possibly absent value: Java `null`, a JSON `null` or a missing property. */
  datatype Option<+T> = None | Some(value: T)

  /** The outcome of a service call: a value, or the exception the service throws. */
  datatype Result<+T, +E> = Success(value: T) | Failure(error: E)

  /** Database identifiers (`Long` keys generated by an IDENTITY column). */
  type Id = int

  /** A registration timestamp; the clock is an input of the model. */
  type Timestamp = int

  /** Java's `String.trim()` strips every character at or below U+0020, so
      Hibernate's `@NotBlank` rejects exactly the strings made only of those. */
  predicate JavaBlank(s: string)
  {
    forall i :: 0 <= i < |s| ==> s[i] <= ' '
  }

  /** The characters ECMAScript's `String.prototype.trim` removes
      (WhiteSpace and LineTerminator). */
  predicate JsWhitespace(c: char)
  {
    || c == ' ' || c == '\t' || c == '\n' || c == '\r'
    || c == '\U{000B}' || c == '\U{000C}' || c == '\U{00A0}' || c == '\U{1680}'
    || ('\U{2000}' <= c <= '\U{200A}')
    || c == '\U{2028}' || c == '\U{2029}' || c == '\U{202F}' || c == '\U{205F}'
    || c == '\U{3000}' || c == '\U{FEFF}'
  }

  /** `s.trim()` is the empty string (and therefore falsy in JavaScript). */
  predicate JsBlank(s: string)
  {
    forall i :: 0 <= i < |s| ==> JsWhitespace(s[i])
  }

  /** The whole string matches `^[0-9]{10}$`: exactly ten ASCII digits. Java's
      `@Pattern` matches the whole value, and JavaScript's `$` without the `m`
      flag only matches at the end of the input, so both readings agree. */
  predicate TenDigits(s: string)
  {
    |s| == 10 && forall i :: 0 <= i < |s| ==> '0' <= s[i] <= '9'
  }
}
