/**
 * Base16 ("hex") text for bytes, as Node's Buffer writes it (lower-case digits,
 * two per byte, section 8 of RFC 4648) and reads it back.
 */
module Hex {
  import opened Wrappers
  import opened Bytes

  /** The lower-case digit for a value below 16. */
  function DigitChar(d: nat): (c: char)
    requires d < 16
    ensures IsLowerDigit(c)
  {
    if d < 10 then ('0' as int + d) as char else ('a' as int + d - 10) as char
  }

  predicate IsLowerDigit(c: char)
  {
    '0' <= c <= '9' || 'a' <= c <= 'f'
  }

  /** The value of a hexadecimal digit of either case; None for any other character. */
  function DigitValue(c: char): (r: Option<nat>)
    ensures r.Some? <==> IsLowerDigit(c) || 'A' <= c <= 'F'
    ensures r.Some? ==> r.value < 16
  {
    if '0' <= c <= '9' then Some(c as int - '0' as int)
    else if 'a' <= c <= 'f' then Some(c as int - 'a' as int + 10)
    else if 'A' <= c <= 'F' then Some(c as int - 'A' as int + 10)
    else None
  }

  /** `buf.toString('hex')`: two lower-case digits per byte, high nibble first. */
  function Encode(b: seq<byte>): (s: string)
    ensures |s| == 2 * |b|
    ensures forall i :: 0 <= i < |s| ==> IsLowerDigit(s[i])
  {
    if b == [] then [] else [DigitChar(b[0] / 16), DigitChar(b[0] % 16)] + Encode(b[1..])
  }

  /**
   * `new Buffer(s, 'hex')`: one byte per pair of digits, stopping at the first
   * pair that is not two hexadecimal digits; an odd last digit is dropped.
   */
  function Decode(s: string): (b: seq<byte>)
    ensures |b| <= |s| / 2
  {
    if |s| < 2 then []
    else
      match (DigitValue(s[0]), DigitValue(s[1]))
      case (Some(hi), Some(lo)) => [hi * 16 + lo] + Decode(s[2..])
      case _ => []
  }

  lemma DigitRoundTrip(d: nat)
    requires d < 16
    ensures DigitValue(DigitChar(d)) == Some(d)
  {
  }

  /** Decoding what was encoded gives the bytes back. */
  lemma {:induction false} DecodeEncode(b: seq<byte>)
    ensures Decode(Encode(b)) == b
  {
    if b != [] {
      var s := Encode(b);
      DigitRoundTrip(b[0] / 16);
      DigitRoundTrip(b[0] % 16);
      assert s[2..] == Encode(b[1..]);
      DecodeEncode(b[1..]);
      assert Decode(s) == [b[0]] + b[1..];
    }
  }

  /** Decoding reads every pair exactly when the text is an even run of hexadecimal digits. */
  lemma {:induction false} DecodeLength(s: string)
    ensures |Decode(s)| == |s| / 2 <==>
              forall i :: 0 <= i < |s| / 2 * 2 ==> DigitValue(s[i]).Some?
  {
    if |s| >= 2 {
      DecodeLength(s[2..]);
      if DigitValue(s[0]).Some? && DigitValue(s[1]).Some? {
        assert |Decode(s)| == 1 + |Decode(s[2..])|;
        assert |s[2..]| / 2 * 2 == |s| / 2 * 2 - 2;
        assert (forall i :: 0 <= i < |s| / 2 * 2 ==> DigitValue(s[i]).Some?) <==>
               (forall i :: 0 <= i < |s[2..]| / 2 * 2 ==> DigitValue(s[2..][i]).Some?) by {
          forall i | 0 <= i < |s[2..]| / 2 * 2 ensures s[2..][i] == s[i + 2] { }
          if forall i :: 0 <= i < |s[2..]| / 2 * 2 ==> DigitValue(s[2..][i]).Some? {
            forall i | 0 <= i < |s| / 2 * 2 ensures DigitValue(s[i]).Some? {
              if i >= 2 { assert s[i] == s[2..][i - 2]; }
            }
          }
        }
      }
    }
  }
}
