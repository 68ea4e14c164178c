/**
 * Base64 text (section 4 of RFC 4648, with '=' padding) for the cipher output,
 * as Node's cipher and decipher objects write and read it. The encoding goes
 * through two layers: bytes to six-bit values, then values to characters.
 */
module Base64 {
  import opened Wrappers
  import opened Bytes

  type sextet = x: nat | x < 64

  /** The character of a six-bit value: A-Z, a-z, 0-9, '+', '/'. */
  function DigitChar(d: sextet): (c: char)
    ensures c != '='
  {
    if d < 26 then ('A' as int + d) as char
    else if d < 52 then ('a' as int + d - 26) as char
    else if d < 62 then ('0' as int + d - 52) as char
    else if d == 62 then '+'
    else '/'
  }

  /** The six-bit value of an alphabet character; None for '=' and any other character. */
  function DigitValue(c: char): (r: Option<sextet>)
    ensures c == '=' ==> r.None?
  {
    if 'A' <= c <= 'Z' then Some(c as int - 'A' as int)
    else if 'a' <= c <= 'z' then Some(c as int - 'a' as int + 26)
    else if '0' <= c <= '9' then Some(c as int - '0' as int + 52)
    else if c == '+' then Some(62)
    else if c == '/' then Some(63)
    else None
  }

  lemma DigitRoundTrip(d: sextet)
    ensures DigitValue(DigitChar(d)) == Some(d)
  {
  }

  /**
   * Bytes as six-bit values: four per group of three bytes; a last group of one
   * byte gives two values and one of two bytes gives three (low bits zero).
   */
  function Sextets(b: seq<byte>): (x: seq<sextet>)
    ensures |x| % 4 == 0 <==> |b| % 3 == 0
    ensures |x| % 4 == 2 <==> |b| % 3 == 1
    ensures |x| % 4 == 3 <==> |b| % 3 == 2
  {
    if |b| == 0 then []
    else if |b| == 1 then [b[0] / 4, b[0] % 4 * 16]
    else if |b| == 2 then [b[0] / 4, b[0] % 4 * 16 + b[1] / 16, b[1] % 16 * 4]
    else [b[0] / 4, b[0] % 4 * 16 + b[1] / 16, b[1] % 16 * 4 + b[2] / 64, b[2] % 64] + Sextets(b[3..])
  }

  /** Six-bit values back to bytes; a lone value in the last group is malformed. */
  function Unsextets(x: seq<sextet>): (r: Option<seq<byte>>)
  {
    if |x| == 0 then Some([])
    else if |x| == 1 then None
    else if |x| == 2 then Some([x[0] as int * 4 + x[1] / 16])
    else if |x| == 3 then Some([x[0] as int * 4 + x[1] / 16, x[1] as int % 16 * 16 + x[2] / 4])
    else
      match Unsextets(x[4..])
      case None => None
      case Some(rest) => Some([x[0] as int * 4 + x[1] / 16, x[1] as int % 16 * 16 + x[2] / 4, x[2] as int % 4 * 64 + x[3]] + rest)
  }

  function Render(x: seq<sextet>): (s: string)
    ensures |s| == |x|
    ensures forall i :: 0 <= i < |s| ==> s[i] == DigitChar(x[i])
  {
    seq(|x|, i requires 0 <= i < |x| => DigitChar(x[i]))
  }

  /** The values of the characters, or None when one is outside the alphabet. */
  function Values(s: string): (r: Option<seq<sextet>>)
    ensures r.Some? ==> |r.value| == |s|
  {
    if s == [] then Some([])
    else
      match (DigitValue(s[0]), Values(s[1..]))
      case (Some(d), Some(rest)) => Some([d] + rest)
      case _ => None
  }

  /** The padding that brings the text to a multiple of four characters. */
  function Padding(n: nat): (p: string)
    ensures n % 4 != 1 ==> (n + |p|) % 4 == 0
  {
    if n % 4 == 2 then "==" else if n % 4 == 3 then "=" else ""
  }

  /** The encoding: rendered six-bit values, padded with '=' to a multiple of four characters. */
  function Encode(b: seq<byte>): (s: string)
    ensures |s| % 4 == 0
  {
    var x := Sextets(b);
    Render(x) + Padding(|x|)
  }

  /** The text without its trailing '=' padding (at most two). */
  function Unpadded(s: string): (body: string)
    ensures |body| <= |s|
  {
    if |s| >= 2 && s[|s| - 1] == '=' && s[|s| - 2] == '=' then s[..|s| - 2]
    else if |s| >= 1 && s[|s| - 1] == '=' then s[..|s| - 1]
    else s
  }

  /**
   * Strict decoding: the length is a multiple of four, every character before
   * the padding is in the alphabet, and the last group is not a lone value.
   */
  function Decode(s: string): (r: Option<seq<byte>>)
    ensures r.Some? ==> |s| % 4 == 0
  {
    if |s| % 4 != 0 then None
    else
      match Values(Unpadded(s))
      case None => None
      case Some(x) => Unsextets(x)
  }

  lemma {:induction false} ValuesRender(x: seq<sextet>)
    ensures Values(Render(x)) == Some(x)
  {
    if x != [] {
      var s := Render(x);
      DigitRoundTrip(x[0]);
      assert s[1..] == Render(x[1..]);
      ValuesRender(x[1..]);
      assert [x[0]] + x[1..] == x;
    }
  }

  lemma GroupArithmetic(b0: byte, b1: byte, b2: byte)
    ensures (b0 / 4) * 4 + (b0 % 4 * 16 + b1 / 16) / 16 == b0
    ensures (b0 % 4 * 16 + b1 / 16) % 16 * 16 + (b1 % 16 * 4 + b2 / 64) / 4 == b1
    ensures (b1 % 16 * 4 + b2 / 64) % 4 * 64 + b2 % 64 == b2
  {
  }

  lemma {:induction false} UnsextetsSextets(b: seq<byte>)
    ensures Unsextets(Sextets(b)) == Some(b)
    decreases |b|
  {
    if |b| <= 2 {
      UnsextetsShort(b);
    } else {
      UnsextetsSextets(b[3..]);
      UnsextetsGroup(b);
    }
  }

  /** A last group of one or two bytes decodes back to itself. */
  lemma {:induction false} UnsextetsShort(b: seq<byte>)
    requires |b| <= 2
    ensures Unsextets(Sextets(b)) == Some(b)
  {
    if |b| == 1 {
      GroupArithmetic(b[0], 0, 0);
      assert [b[0]] == b;
    } else if |b| == 2 {
      GroupArithmetic(b[0], b[1], 0);
      assert [b[0], b[1]] == b;
    }
  }

  /** A full group of three bytes decodes back to itself ahead of whatever follows. */
  lemma {:induction false} UnsextetsGroup(b: seq<byte>)
    requires |b| > 2 && Unsextets(Sextets(b[3..])) == Some(b[3..])
    ensures Unsextets(Sextets(b)) == Some(b)
  {
    var x := Sextets(b);
    var tail := Sextets(b[3..]);
    assert x == [b[0] / 4, b[0] % 4 * 16 + b[1] / 16, b[1] % 16 * 4 + b[2] / 64, b[2] % 64] + tail;
    assert x[4..] == tail;
    GroupArithmetic(b[0], b[1], b[2]);
    assert x[0] as int * 4 + x[1] / 16 == b[0];
    assert x[1] as int % 16 * 16 + x[2] / 4 == b[1];
    assert x[2] as int % 4 * 64 + x[3] == b[2];
    assert Unsextets(x) == Some([b[0], b[1], b[2]] + b[3..]);
    assert [b[0], b[1], b[2]] + b[3..] == b;
  }

  lemma UnpaddedEncode(x: seq<sextet>)
    requires |x| % 4 != 1
    ensures Unpadded(Render(x) + Padding(|x|)) == Render(x)
  {
    var r := Render(x);
    var s := r + Padding(|x|);
    if |x| % 4 == 2 {
      assert s[..|s| - 2] == r;
    } else if |x| % 4 == 3 {
      assert s[..|s| - 1] == r;
    } else if |x| > 0 {
      assert s == r && s[|s| - 1] == DigitChar(x[|x| - 1]);
    }
  }

  /** Decoding what was encoded gives the bytes back. */
  lemma DecodeEncode(b: seq<byte>)
    ensures Decode(Encode(b)) == Some(b)
  {
    var x := Sextets(b);
    UnpaddedEncode(x);
    ValuesRender(x);
    UnsextetsSextets(b);
  }
}
