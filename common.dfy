/** Vocabulary shared by every part of the model: optional values, the
    JavaScript `Date` value, the whitespace class of JavaScript strings,
    and the "subsequence in original order" relation that `Array.filter`
    establishes. */
module Common {

  /** `undefined`/`null` versus a present value. */
  datatype Option<+T> = None | Some(value: T)

  /** Milliseconds since the Unix epoch: the time value a JavaScript `Date` holds. */
  type Instant = int

  /** A JavaScript `Date`: a time value, or the invalid date whose time value is NaN. */
  datatype JsDate = ValidDate(ms: Instant) | InvalidDate

  /** `a < b` on two Dates compares their time values; NaN makes it false. */
  predicate DateLess(a: JsDate, b: JsDate)
  {
    a.ValidDate? && b.ValidDate? && a.ms < b.ms
  }

  /** `a >= b` on two Dates compares their time values; NaN makes it false. */
  predicate DateAtLeast(a: JsDate, b: JsDate)
  {
    a.ValidDate? && b.ValidDate? && a.ms >= b.ms
  }

  /** ECMAScript WhiteSpace and LineTerminator code points: what
      `String.prototype.trim` strips and what the regular-expression class
      `\s` matches. */
  predicate IsJsWhitespace(c: char)
  {
    var n := c as int;
    n == 0x09 || n == 0x0A || n == 0x0B || n == 0x0C || n == 0x0D || n == 0x20 ||
    n == 0xA0 || n == 0x1680 || (0x2000 <= n <= 0x200A) || n == 0x2028 ||
    n == 0x2029 || n == 0x202F || n == 0x205F || n == 0x3000 || n == 0xFEFF
  }

  /** `a` is `b` with some elements deleted and the rest kept in order:
      the head of `b` is either kept as the head of `a` or skipped. */
  predicate IsSubsequence<T(==)>(a: seq<T>, b: seq<T>)
    decreases |b|
  {
    if b == [] then a == []
    else (a != [] && a[0] == b[0] && IsSubsequence(a[1..], b[1..])) || IsSubsequence(a, b[1..])
  }
}
