/** Hexadecimal digits in the two forms the printers use. */
module Hexadecimal {
  import opened CrtAbstractions

  const HEX_DIGITS := "0123456789abcdef"
  const HEX_TO_ASCII := "0123456789ABCDEF"

  /** A digit of either case stands for its place. */
  lemma HexRoundTrip(d: nat)
    requires d < 16
    ensures IsDigit(HEX_DIGITS[d], 16) && DigitVal(HEX_DIGITS[d]) == d
    ensures IsDigit(HEX_TO_ASCII[d], 16) && DigitVal(HEX_TO_ASCII[d]) == d
  {
  }
}
