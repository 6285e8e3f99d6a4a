/** Number formatting for the messages of the exceptions the model raises. */
module Text {
  /** The decimal digits of `n`, as Kotlin prints an Int. */
  function NatToString(n: nat): (s: string)
    decreases n
    ensures |s| >= 1
  {
    if n < 10 then [DigitChar(n)] else NatToString(n / 10) + [DigitChar(n % 10)]
  }

  function DigitChar(d: nat): char
    requires d < 10
  {
    "0123456789"[d]
  }
}
