/** The extension functions of `extensions/PrimitiveExtensions.kt`: zero-padded hex rendering
    and file-extension replacement. */
module PrimitiveExtensions {

  import opened Wrappers
  import opened KotlinStrings
  import opened KotlinNumbers

  /** `Int.prefixedHexString(length)`: `toString(16)` padded on the left with '0' up to
      `length`; the digits themselves are never cut. */
  function PrefixedHexString(n: int, length: nat): (r: string)
    ensures |r| == Max(length, |IntToHex(n)|)
    ensures r[|r| - |IntToHex(n)|..] == IntToHex(n)
    ensures forall i :: 0 <= i < |r| - |IntToHex(n)| ==> r[i] == '0'
  {
    PadStart(IntToHex(n), length, '0')
  }

  /** `UByte.prefixedHexString(length)`: the same rendering for an unsigned byte. */
  function UBytePrefixedHexString(b: UByte, length: nat): (r: string)
    ensures |r| == Max(length, |NatToHex(b)|)
    ensures r[|r| - |NatToHex(b)|..] == NatToHex(b)
    ensures forall i :: 0 <= i < |r| - |NatToHex(b)| ==> r[i] == '0'
  {
    PadStart(NatToHex(b), length, '0')
  }

  /** `String.changeFileExtension(newExtension)`: everything before the last '.', then the new
      extension. Without a '.', `lastIndexOf` gives -1 and `substring(0, -1)` throws (`None`). */
  function ChangeFileExtension(s: string, newExtension: string): (r: Option<string>)
    ensures r.None? <==> '.' !in s
    ensures r.Some? ==> exists k :: 0 <= k < |s| && s[k] == '.' && '.' !in s[k + 1..]
                                    && r.value == s[..k] + newExtension
  {
    var i := LastIndexOf(s, '.');
    if i < 0 then None else Some(s[..i] + newExtension)
  }

  /** A zero-padded rendering of a non-negative value holds only lower-case hex digits and
      reads back as the value. */
  lemma PrefixedHexRoundTrip(n: nat, length: nat)
    ensures forall i :: 0 <= i < |PrefixedHexString(n, length)| ==>
              IsLowerHexChar(PrefixedHexString(n, length)[i])
    ensures ParseHex(PrefixedHexString(n, length)) == Some(n)
  {
    var digits := NatToHex(n);
    var r := PrefixedHexString(n, length);
    HexRoundTrip(n);
    HexValueZeroPrefix(|r| - |digits|, digits);
    assert r == Repeat('0', |r| - |digits|) + digits;
  }

  /** The same for a byte. */
  lemma UBytePrefixedHexRoundTrip(b: UByte, length: nat)
    ensures forall i :: 0 <= i < |UBytePrefixedHexString(b, length)| ==>
              IsLowerHexChar(UBytePrefixedHexString(b, length)[i])
    ensures ParseHex(UBytePrefixedHexString(b, length)) == Some(b)
  {
    PrefixedHexRoundTrip(b, length);
  }

  /** Addresses 0..0xFFFF render with exactly four characters. */
  lemma AddressHexWidth(n: int)
    requires 0 <= n <= 0xFFFF
    ensures |PrefixedHexString(n, 4)| == 4
  {
    HexWidth(n, 4);
  }

  /** Bytes render with exactly two characters. */
  lemma UByteHexWidth(b: UByte)
    ensures |UBytePrefixedHexString(b, 2)| == 2
  {
    HexWidth(b, 2);
  }

  /** A byte value padded to two digits. */
  lemma ByteRenderingExample()
    ensures PrefixedHexString(0x3e, 2) == "3e"
  {
    assert HexChar(3) == '3' && HexChar(14) == 'e';
    assert NatToHex(3) == "3";
    assert NatToHex(0x3e) == "3e";
  }

  /** A short value is padded with leading zeros. */
  lemma PaddingExample()
    ensures PrefixedHexString(0x5, 4) == "0005"
  {
    assert HexChar(5) == '5';
    assert NatToHex(5) == "5";
    assert Repeat('0', 3) == "000";
  }

  /** A value wider than the width is kept whole, never truncated. */
  lemma NoTruncationExample()
    ensures PrefixedHexString(0x12345, 4) == "12345"
  {
    assert HexChar(1) == '1' && HexChar(2) == '2' && HexChar(3) == '3';
    assert HexChar(4) == '4' && HexChar(5) == '5';
    assert NatToHex(1) == "1";
    assert NatToHex(0x12) == "12";
    assert NatToHex(0x123) == "123";
    assert NatToHex(0x1234) == "1234";
    assert NatToHex(0x12345) == "12345";
  }
}
