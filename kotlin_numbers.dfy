/** Kotlin's base-16 number conversions as the assembler uses them: `Int.toString(16)`,
    `String.toInt(16)` and `String.toUByte(16)`. Sign prefixes in the parsed text are not
    modelled (such text is treated as malformed). */
module KotlinNumbers {

  import opened Wrappers
  import opened KotlinStrings

  /** Kotlin's `UByte`, 0..255 */
  type UByte = b: int | 0 <= b < 0x100

  /** `Int.MAX_VALUE` */
  const IntMax: int := 0x7FFF_FFFF

  function Pow16(k: nat): (r: nat)
    ensures r >= 1
  {
    if k == 0 then 1 else 16 * Pow16(k - 1)
  }

  /** The lower-case digit `Int.toString(16)` writes for `d` */
  function HexChar(d: nat): char
    requires d < 16
  {
    if d < 10 then ('0' as int + d) as char else ('a' as int + d - 10) as char
  }

  predicate IsLowerHexChar(c: char) {
    '0' <= c <= '9' || 'a' <= c <= 'f'
  }

  /** `Character.digit(c, 16)` on ASCII: digits and letters of either case. */
  function DigitValue(c: char): (r: Option<nat>)
    ensures r.Some? ==> r.value < 16
  {
    if '0' <= c <= '9' then Some(c as int - '0' as int)
    else if 'a' <= c <= 'f' then Some(c as int - 'a' as int + 10)
    else if 'A' <= c <= 'F' then Some(c as int - 'A' as int + 10)
    else None
  }

  /** `Int.toString(16)` for a non-negative value: lower-case digits, no leading zeros. */
  function NatToHex(n: nat): (s: string)
    ensures |s| >= 1
    ensures forall i :: 0 <= i < |s| ==> IsLowerHexChar(s[i])
    ensures s[0] == '0' ==> n == 0
    decreases n
  {
    if n < 16 then [HexChar(n)] else NatToHex(n / 16) + [HexChar(n % 16)]
  }

  /** `Int.toString(16)`: a minus sign before the digits of a negative value. */
  function IntToHex(n: int): (s: string)
    ensures n >= 0 ==> s == NatToHex(n)
    ensures n < 0 ==> s == "-" + NatToHex(-n)
  {
    if n < 0 then "-" + NatToHex(-n) else NatToHex(n)
  }

  predicate IsHexText(s: string) {
    forall i | 0 <= i < |s| :: DigitValue(s[i]).Some?
  }

  /** The value of a string of hex digits, most significant first. */
  function HexValue(s: string): nat
    requires IsHexText(s)
    decreases |s|
  {
    if s == [] then 0 else HexValue(s[..|s| - 1]) * 16 + DigitValue(s[|s| - 1]).value
  }

  /** The digits-only reading shared by `toInt(16)` and `toUByte(16)`: a non-empty string of
      hex digits, any width. */
  function ParseHex(s: string): (r: Option<nat>)
    ensures r.Some? <==> s != [] && IsHexText(s)
  {
    if s != [] && IsHexText(s) then Some(HexValue(s)) else None
  }

  /** `String.toInt(16)`: fails on anything but hex digits and on values above `Int.MAX_VALUE`. */
  function ParseInt(s: string): (r: Option<int>)
    ensures r.Some? <==> ParseHex(s).Some? && ParseHex(s).value <= IntMax
    ensures r.Some? ==> r.value == ParseHex(s).value
  {
    match ParseHex(s)
    case Some(v) => if v <= IntMax then Some(v) else None
    case None => None
  }

  /** `String.toUByte(16)`: fails on anything but hex digits and on values above 0xFF. */
  function ParseUByte(s: string): (r: Option<UByte>)
    ensures r.Some? <==> ParseHex(s).Some? && ParseHex(s).value <= 0xFF
    ensures r.Some? ==> r.value == ParseHex(s).value
  {
    match ParseHex(s)
    case Some(v) => if v <= 0xFF then Some(v) else None
    case None => None
  }

  /** Reading back what `toString(16)` wrote gives the value. */
  lemma {:induction false} HexRoundTrip(n: nat)
    ensures IsHexText(NatToHex(n))
    ensures ParseHex(NatToHex(n)) == Some(n)
    decreases n
  {
    var s := NatToHex(n);
    assert IsHexText(s) by {
      forall i | 0 <= i < |s| ensures DigitValue(s[i]).Some? {
        assert IsLowerHexChar(s[i]);
      }
    }
    if n >= 16 {
      HexRoundTrip(n / 16);
      assert s[..|s| - 1] == NatToHex(n / 16);
      DigitOfHexChar(n % 16);
    } else {
      DigitOfHexChar(n);
      assert s == [HexChar(n)] && s[..0] == [];
      assert HexValue(s) == HexValue(s[..0]) * 16 + DigitValue(s[0]).value;
    }
  }

  /** `toString(16)` needs at most `k` digits exactly for the values below 16^k. */
  lemma {:induction false} HexWidth(n: nat, k: nat)
    requires k >= 1
    ensures |NatToHex(n)| <= k <==> n < Pow16(k)
    decreases n
  {
    if n >= 16 {
      if k == 1 {
        assert |NatToHex(n)| == |NatToHex(n / 16)| + 1;
      } else {
        HexWidth(n / 16, k - 1);
      }
    } else {
      assert Pow16(k) >= 16 by {
        assert Pow16(k) == 16 * Pow16(k - 1);
      }
    }
  }

  /** The value of a concatenation: the front digits are shifted by the back's width. */
  lemma {:induction false} HexValueConcat(a: string, b: string)
    requires IsHexText(a) && IsHexText(b)
    ensures IsHexText(a + b)
    ensures HexValue(a + b) == HexValue(a) * Pow16(|b|) + HexValue(b)
    decreases |b|
  {
    var ab := a + b;
    assert IsHexText(ab) by {
      forall i | 0 <= i < |ab| ensures DigitValue(ab[i]).Some? {
        if i < |a| { assert ab[i] == a[i]; } else { assert ab[i] == b[i - |a|]; }
      }
    }
    if b == [] {
      assert ab == a;
    } else {
      var b' := b[..|b| - 1];
      var d := DigitValue(b[|b| - 1]).value;
      assert ab[..|ab| - 1] == a + b';
      assert IsHexText(b');
      HexValueConcat(a, b');
      assert HexValue(ab) == HexValue(a + b') * 16 + d;
      assert HexValue(b) == HexValue(b') * 16 + d;
      assert Pow16(|b|) == Pow16(|b'|) * 16;
      ShiftDigit(HexValue(a), Pow16(|b'|), HexValue(b'), d);
    }
  }

  lemma ShiftDigit(x: int, p: int, y: int, d: int)
    ensures (x * p + y) * 16 + d == x * (p * 16) + (y * 16 + d)
  {
  }

  lemma DigitOfHexChar(d: nat)
    requires d < 16
    ensures DigitValue(HexChar(d)) == Some(d)
  {
  }

  /** `k` hex digits stay below 16^k. */
  lemma {:induction false} HexValueBound(s: string)
    requires IsHexText(s)
    ensures HexValue(s) < Pow16(|s|)
    decreases |s|
  {
    if s != [] {
      var s' := s[..|s| - 1];
      HexValueBound(s');
      assert HexValue(s') + 1 <= Pow16(|s'|);
      assert HexValue(s) <= HexValue(s') * 16 + 15;
      assert (HexValue(s') + 1) * 16 <= Pow16(|s'|) * 16;
    }
  }

  /** Leading zeros do not change the value read. */
  lemma {:induction false} HexValueZeroPrefix(z: nat, s: string)
    requires IsHexText(s)
    ensures IsHexText(Repeat('0', z) + s)
    ensures HexValue(Repeat('0', z) + s) == HexValue(s)
  {
    var zeros := Repeat('0', z);
    assert IsHexText(zeros) by {
      forall i | 0 <= i < z ensures DigitValue(zeros[i]).Some? {
        assert zeros[i] == '0';
      }
    }
    ZerosValue(z);
    HexValueConcat(zeros, s);
  }

  lemma {:induction false} ZerosValue(z: nat)
    ensures IsHexText(Repeat('0', z))
    ensures HexValue(Repeat('0', z)) == 0
    decreases z
  {
    var zeros := Repeat('0', z);
    assert IsHexText(zeros) by {
      forall i | 0 <= i < z ensures DigitValue(zeros[i]).Some? {
        assert zeros[i] == '0';
      }
    }
    if z > 0 {
      ZerosValue(z - 1);
      assert zeros[..z - 1] == Repeat('0', z - 1);
    }
  }
}
