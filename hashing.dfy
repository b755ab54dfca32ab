/**
 * `String.hashCode()` followed by `Integer.toHexString(int)`, the pair the engine uses to
 * name the synthetic clone of an overwritten method.
 *
 * Java's hash is the polynomial s[0]*31^(n-1) + ... + s[n-1] evaluated in 32-bit two's
 * complement arithmetic; `toHexString` prints the same 32 bits as an unsigned number in
 * lower-case hexadecimal without leading zeros. Both are modelled on the unsigned value of
 * those 32 bits, which is what `toHexString` prints.
 */
module Hashing {

  const TwoTo32: nat := 0x1_0000_0000

  /** The 32 bits of `s.hashCode()`, read as an unsigned number. */
  function HashCode(s: string): (h: nat)
    ensures h < TwoTo32
  {
    if s == [] then 0 else (31 * HashCode(s[..|s| - 1]) + s[|s| - 1] as int) % TwoTo32
  }

  /** A lower-case hexadecimal digit, as `toHexString` prints them. */
  predicate IsHexDigit(c: char) {
    '0' <= c <= '9' || 'a' <= c <= 'f'
  }

  function HexDigit(d: nat): (c: char)
    requires d < 16
    ensures IsHexDigit(c)
  {
    if d < 10 then ('0' as int + d) as char else ('a' as int + d - 10) as char
  }

  function DigitValue(c: char): nat {
    if '0' <= c <= '9' then c as nat - '0' as nat
    else if 'a' <= c <= 'f' then c as nat - 'a' as nat + 10
    else 0
  }

  /** The number a string of hexadecimal digits denotes (most significant digit first). */
  function HexValue(s: string): nat {
    if s == [] then 0 else 16 * HexValue(s[..|s| - 1]) + DigitValue(s[|s| - 1])
  }

  /** `Integer.toHexString` of the 32-bit value `n`. */
  function ToHexString(n: nat): (r: string)
    ensures 1 <= |r|
    ensures forall i :: 0 <= i < |r| ==> IsHexDigit(r[i])
    ensures |r| > 1 ==> r[0] != '0'
    ensures HexValue(r) == n
    decreases n
  {
    var d := [HexDigit(n % 16)];
    assert DigitValue(d[0]) == n % 16;
    if n < 16 then d
    else
      var p := ToHexString(n / 16);
      assert (p + d)[..|p + d| - 1] == p;
      p + d
  }
}
