/** The hexadecimal helpers of import/BeDIS.c and `get_printable_ble_payload` of src/LBeacon.c. */
module Hex {
  import opened Common

  function DecimalToHex(number: int): (c: char)
    requires 0 <= number < 16
  {
    if number <= 9 then (number + '0' as int) as char else ((number - 10) + 'A' as int) as char
  }

  function HexToDecimal(c: char): int {
    if c >= 'A' then c as int - 'A' as int + 10 else c as int - '0' as int
  }

  function Text(bytes: seq<byte>): (s: string)
    ensures |s| == 2 * |bytes|
  {
    if bytes == [] then ""
    else Text(bytes[..|bytes| - 1]) + [DecimalToHex(bytes[|bytes| - 1] / 16), DecimalToHex(bytes[|bytes| - 1] % 16)]
  }

  /** The values the readers of a printed payload compute from two characters at a time. */
  function Decode(s: string): seq<int>
  {
    if |s| < 2 then [] else Decode(s[..|s| - 2]) + [HexToDecimal(s[|s| - 2]) * 16 + HexToDecimal(s[|s| - 1])]
  }

  lemma DecodeAppend(s: string, hi: char, lo: char)
    ensures Decode(s + [hi, lo]) == Decode(s) + [HexToDecimal(hi) * 16 + HexToDecimal(lo)]
  {
    var t := s + [hi, lo];
    assert t[..|t| - 2] == s && t[|t| - 2] == hi && t[|t| - 1] == lo;
  }

  lemma DigitPair(b: byte)
    ensures HexToDecimal(DecimalToHex(b / 16)) * 16 + HexToDecimal(DecimalToHex(b % 16)) == b
  {
  }

  /** `hex_to_decimal` inverts `decimal_to_hex`, so a printed payload decodes to its bytes. */
  lemma {:induction false} DecodeText(bytes: seq<byte>)
    ensures Decode(Text(bytes)) == bytes
  {
    if bytes != [] {
      var n := |bytes| - 1;
      var front, last := bytes[..n], bytes[n];
      assert bytes == front + [last];
      DecodeText(front);
      DigitPair(last);
      DecodeAppend(Text(front), DecimalToHex(last / 16), DecimalToHex(last % 16));
    }
  }

  /** The six characters behind '9' also get the value of a digit; but only on
      '0' to '9' and 'A' to 'F', the characters `decimal_to_hex` produces, does it invert the value. */
  lemma HexToDecimalInverse(c: char)
    ensures 0 <= HexToDecimal(c) < 16 <==> '0' <= c <= '?' || 'A' <= c <= 'F'
    ensures (0 <= HexToDecimal(c) < 16 && DecimalToHex(HexToDecimal(c)) == c) <==> '0' <= c <= '9' || 'A' <= c <= 'F'
    ensures (exists n :: 0 <= n < 16 && DecimalToHex(n) == c) <==> '0' <= c <= '9' || 'A' <= c <= 'F'
  {
    if '0' <= c <= '9' || 'A' <= c <= 'F' {
      assert DecimalToHex(HexToDecimal(c)) == c;
    }
  }

  const DIGITS := "0123456789ABCDEF"

  /** The text of a byte is its two digits, the more significant one first. */
  lemma {:induction false} TextAt(bytes: seq<byte>, i: nat)
    requires i < |bytes|
    ensures Text(bytes)[2 * i] == DIGITS[bytes[i] / 16] && Text(bytes)[2 * i + 1] == DIGITS[bytes[i] % 16]
  {
    var n := |bytes| - 1;
    if i < n {
      TextAt(bytes[..n], i);
    } else {
      DigitChar(bytes[n] / 16);
      DigitChar(bytes[n] % 16);
    }
  }

  lemma DigitChar(n: int)
    requires 0 <= n < 16
    ensures DecimalToHex(n) == DIGITS[n]
  {
  }

  lemma TextAppend(bytes: seq<byte>, i: nat)
    requires i < |bytes|
    ensures Text(bytes[..i + 1]) == Text(bytes[..i]) + [DecimalToHex(bytes[i] / 16), DecimalToHex(bytes[i] % 16)]
  {
    assert bytes[..i + 1][..i] == bytes[..i];
  }

  /** The printing loop: the text of the first `n` bytes of `source` and a terminating NUL are written
      to the front of `out`. */
  method Print(source: seq<byte>, n: nat, out: array<char>)
    requires n <= |source| && 2 * n + 1 <= out.Length
    modifies out
    ensures out[..2 * n] == Text(source[..n]) && out[2 * n] == '\0'
    ensures forall k :: 2 * n < k < out.Length ==> out[k] == old(out[k])
  {
    var index := 0;
    for i := 0 to n
      invariant index == 2 * i
      invariant out[..index] == Text(source[..i])
      invariant forall k :: index <= k < out.Length ==> out[k] == old(out[k])
    {
      TextAppend(source, i);
      out[index] := DecimalToHex(source[i] / 16);
      out[index + 1] := DecimalToHex(source[i] % 16);
      assert out[..index + 2] == out[..index] + [out[index], out[index + 1]];
      index := index + 2;
    }
    out[index] := '\0';
  }
}
