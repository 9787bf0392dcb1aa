/** System.Guid as a 128-bit value, with the distinguished Guid.Empty and the
    default ("D") text form used when a Guid is interpolated into a string:
    32 lower-case hexadecimal digits in groups 8-4-4-4-12 separated by hyphens. */
module Guids {

  /** A Guid holds 128 bits, i.e. 32 hexadecimal digits. */
  newtype Guid = n: int | 0 <= n < Pow16(32)

  /** Guid.Empty, the all-zero value. */
  const Empty: Guid := 0

  function Pow16(w: nat): (p: nat)
    ensures p >= 1
  {
    if w == 0 then 1 else 16 * Pow16(w - 1)
  }

  /** One lower-case hexadecimal digit. */
  function HexChar(d: nat): (c: char)
    requires d < 16
    ensures HexValue(c) == d
  {
    if d < 10 then ('0' as int + d) as char else ('a' as int + d - 10) as char
  }

  function HexValue(c: char): nat
  {
    if '0' <= c <= '9' then (c as int - '0' as int)
    else if 'a' <= c <= 'f' then (c as int - 'a' as int + 10)
    else 0
  }

  /** The w low-order hexadecimal digits of n, most significant first. */
  function HexDigits(n: nat, w: nat): (s: string)
    ensures |s| == w
  {
    if w == 0 then [] else HexDigits(n / 16, w - 1) + [HexChar(n % 16)]
  }

  /** The number a string of hexadecimal digits denotes. */
  function HexNumber(s: string): nat
  {
    if s == [] then 0 else 16 * HexNumber(s[..|s| - 1]) + HexValue(s[|s| - 1])
  }

  /** Reading the digits back gives the number, as long as it fits in w digits. */
  lemma {:induction false} HexRoundTrip(n: nat, w: nat)
    requires n < Pow16(w)
    ensures HexNumber(HexDigits(n, w)) == n
  {
    if w > 0 {
      var s := HexDigits(n, w);
      assert s[..|s| - 1] == HexDigits(n / 16, w - 1);
      assert n / 16 < Pow16(w - 1);
      HexRoundTrip(n / 16, w - 1);
    }
  }

  /** Guid.ToString(): the "D" format. */
  function Format(g: Guid): (t: string)
    ensures |t| == 36
    ensures t[8] == t[13] == t[18] == t[23] == '-'
  {
    var h := HexDigits(g as nat, 32);
    h[..8] + "-" + h[8..12] + "-" + h[12..16] + "-" + h[16..20] + "-" + h[20..]
  }

  /** The digits of a "D"-formatted Guid with the four hyphens dropped. */
  function Digits(t: string): string
    requires |t| == 36
  {
    t[..8] + t[9..13] + t[14..18] + t[19..23] + t[24..]
  }

  lemma DigitsOfFormat(g: Guid)
    ensures Digits(Format(g)) == HexDigits(g as nat, 32)
  {
    var h := HexDigits(g as nat, 32);
    var t := Format(g);
    assert t[..8] == h[..8];
    assert t[9..13] == h[8..12];
    assert t[14..18] == h[12..16];
    assert t[19..23] == h[16..20];
    assert t[24..] == h[20..];
    assert h == h[..8] + h[8..12] + h[12..16] + h[16..20] + h[20..];
  }

  /** Distinct Guids have distinct text forms, so the text identifies the Guid. */
  lemma FormatInjective(a: Guid, b: Guid)
    requires Format(a) == Format(b)
    ensures a == b
  {
    DigitsOfFormat(a);
    DigitsOfFormat(b);
    HexRoundTrip(a as nat, 32);
    HexRoundTrip(b as nat, 32);
  }
}
