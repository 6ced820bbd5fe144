/** The parts of JavaScript's value semantics that the settings screen relies
    on: truthiness of strings, the `a || b` default idiom, the `\s` class of
    regular expressions, and `length`, which counts UTF-16 code units. */
module JsValues {
  import opened Wrappers

  /** A string is truthy exactly when it is not empty. */
  predicate Truthy(s: string) {
    s != ""
  }

  /** A string that may be `undefined` is truthy when it is defined and not empty. */
  predicate TruthyOpt(o: Option<string>) {
    o.Some? && Truthy(o.value)
  }

  /** `o || fallback` for a value that is a string or `undefined`: a truthy
      `o` is kept, an undefined or empty `o` gives the fallback, and a truthy
      fallback makes the result truthy. */
  function OrElse(o: Option<string>, fallback: string): (r: string)
    ensures TruthyOpt(o) ==> r == o.value
    ensures !TruthyOpt(o) ==> r == fallback
    ensures Truthy(fallback) ==> Truthy(r)
  {
    if TruthyOpt(o) then o.value else fallback
  }

  /** The `\s` class of ECMAScript regular expressions: the WhiteSpace code
      points (TAB, VT, FF, ZWNBSP and the space separators) and the
      LineTerminator code points (LF, CR, LS, PS). */
  predicate IsJsWhitespace(c: char) {
    || c == '\t' || c == '\n' || c == '\U{000B}' || c == '\U{000C}' || c == '\r'
    || c == ' ' || c == '\U{00A0}' || c == '\U{1680}'
    || ('\U{2000}' <= c <= '\U{200A}')
    || c == '\U{2028}' || c == '\U{2029}' || c == '\U{202F}' || c == '\U{205F}'
    || c == '\U{3000}' || c == '\U{FEFF}'
  }

  /** UTF-16 code units taken by one code point: two above the basic plane. */
  function CodeUnits(c: char): nat {
    if c as int >= 0x1_0000 then 2 else 1
  }

  /** JavaScript's `s.length`. */
  function Utf16Length(s: string): nat {
    if s == [] then 0 else CodeUnits(s[0]) + Utf16Length(s[1..])
  }

  /** `length` is at least the number of code points and at most twice it. */
  lemma {:induction false} Utf16LengthBounds(s: string)
    ensures |s| <= Utf16Length(s) <= 2 * |s|
  {
    if s != [] {
      Utf16LengthBounds(s[1..]);
    }
  }

  /** For text in the basic plane (digits, `+`, Latin letters, ...) `length`
      is the number of characters. */
  lemma {:induction false} Utf16LengthOfBasicPlane(s: string)
    requires forall k | 0 <= k < |s| :: s[k] as int < 0x1_0000
    ensures Utf16Length(s) == |s|
  {
    if s != [] {
      Utf16LengthOfBasicPlane(s[1..]);
    }
  }
}
