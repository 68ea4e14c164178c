/** Bytes, and the bitwise exclusive-or that a counter-mode stream cipher applies to them. */
module Bytes {

  type byte = x: int | 0 <= x < 256

  /** Bitwise exclusive-or of two naturals, bit by bit from the least significant one. */
  function Xor(a: nat, b: nat): (r: nat)
    decreases a + b
  {
    if a == 0 && b == 0 then 0
    else 2 * Xor(a / 2, b / 2) + (a % 2 + b % 2) % 2
  }

  /** Exclusive-or never needs more bits than its wider operand. */
  lemma {:induction false} XorBound(a: nat, b: nat, k: nat)
    requires a < Pow2(k) && b < Pow2(k)
    ensures Xor(a, b) < Pow2(k)
    decreases a + b
  {
    if a == 0 && b == 0 {
    } else {
      assert k > 0;
      XorBound(a / 2, b / 2, k - 1);
    }
  }

  function Pow2(k: nat): (r: nat)
    ensures r >= 1
  {
    if k == 0 then 1 else 2 * Pow2(k - 1)
  }

  /** Applying the same key twice gives the input back: the basis of stream-cipher decryption. */
  lemma {:induction false} XorInvolutive(a: nat, k: nat)
    ensures Xor(Xor(a, k), k) == a
    decreases a + k
  {
    if a == 0 && k == 0 {
    } else {
      XorInvolutive(a / 2, k / 2);
      var h := Xor(a / 2, k / 2);
      var x := Xor(a, k);
      var bit := LowBitXor(a % 2, k % 2);
      assert x == 2 * h + bit;
      SplitLowBit(h, bit);
      XorUnfold(x, k);
      assert Xor(x, k) == 2 * Xor(h, k / 2) + LowBitXor(bit, k % 2);
      assert LowBitXor(bit, k % 2) == a % 2;
    }
  }

  /** The exclusive-or of two single bits. */
  function LowBitXor(p: nat, q: nat): (r: nat)
    requires p < 2 && q < 2
    ensures r < 2 && r == (p + q) % 2
  {
    if p == q then 0 else 1
  }

  /** One step of Xor, valid for every pair of operands including (0, 0). */
  lemma XorUnfold(a: nat, k: nat)
    ensures Xor(a, k) == 2 * Xor(a / 2, k / 2) + LowBitXor(a % 2, k % 2)
  {
  }

  lemma SplitLowBit(h: nat, bit: nat)
    requires bit < 2
    ensures (2 * h + bit) / 2 == h && (2 * h + bit) % 2 == bit
  {
  }

  /** The exclusive-or of two bytes is a byte. */
  function XorByte(a: byte, k: byte): (r: byte)
    ensures Xor(r, k) == a
  {
    XorBound(a, k, 8);
    XorBound(Xor(a, k), k, 8);
    XorInvolutive(a, k);
    Xor(a, k)
  }
}
