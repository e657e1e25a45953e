/**
 * Rust's `format!("{:x}", n)` for an unsigned 64-bit value: lower-case hexadecimal
 * digits, most significant first, no leading zeros, and "0" for zero.
 */
module Hex {

  const U64_LIMIT: int := 0x1_0000_0000_0000_0000

  /** Rust's `u64`. */
  type U64 = x: int | 0 <= x < U64_LIMIT

  const Digits: string := "0123456789abcdef"

  /** The value of one lower-case hexadecimal digit. */
  function DigitValue(c: char): (d: nat)
    requires c in Digits
    ensures d < 16 && Digits[d] == c
  {
    if '0' <= c <= '9' then c as int - '0' as int else c as int - 'a' as int + 10
  }

  /** `format!("{:x}", n)`. */
  function LowerHex(n: nat): (s: string)
    ensures |s| > 0
    ensures forall i :: 0 <= i < |s| ==> s[i] in Digits
    ensures s[0] == '0' ==> n == 0 && |s| == 1
    decreases n
  {
    if n < 16 then [Digits[n]] else LowerHex(n / 16) + [Digits[n % 16]]
  }

  /** Reads a string of hexadecimal digits back as a number. */
  function ParseHex(s: string): (n: nat)
    requires forall i :: 0 <= i < |s| ==> s[i] in Digits
  {
    if s == [] then 0 else 16 * ParseHex(s[..|s| - 1]) + DigitValue(s[|s| - 1])
  }

  /** The formatted digits read back as the number formatted. */
  lemma {:induction false} ParseLowerHex(n: nat)
    ensures ParseHex(LowerHex(n)) == n
    decreases n
  {
    var s := LowerHex(n);
    if n < 16 {
      assert s[..|s| - 1] == [];
    } else {
      ParseLowerHex(n / 16);
      assert s[..|s| - 1] == LowerHex(n / 16);
    }
  }

  /** Distinct values are formatted as distinct strings. */
  lemma LowerHexInjective(m: nat, n: nat)
    requires LowerHex(m) == LowerHex(n)
    ensures m == n
  {
    ParseLowerHex(m);
    ParseLowerHex(n);
  }
}
