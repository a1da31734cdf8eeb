/** Hexadecimal digits of either case. */
module HexDigits {
  const LOWER := "0123456789abcdef"
  const UPPER := "0123456789ABCDEF"

  /** `c` is the digit of value n, in either case. */
  ghost predicate IsHexDigitOf(c: char, n: int) {
    0 <= n < 16 && (c == LOWER[n] || c == UPPER[n])
  }

  ghost predicate IsHexDigit(c: char) {
    exists n :: IsHexDigitOf(c, n)
  }
}
