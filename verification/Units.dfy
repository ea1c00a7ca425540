/** The strings of JavaScript. */
module Units {
  /** A UTF-16 code unit. */
  type Unit = n: nat | n < 0x10000

  type Text = seq<Unit>

  /** What the dot of a regular expression does not match. */
  predicate IsLineEnd(c: Unit) { c in [0x0A, 0x0D, 0x2028, 0x2029] }
}
