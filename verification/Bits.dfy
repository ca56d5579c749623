/** Machine integers as the C sources use them: unsigned 32-bit words, bytes,
    bitwise OR and little-endian byte order. */
module Bits {

  const WORD_LIMIT: int := 0x1_0000_0000

  type word = x: int | 0 <= x < 0x1_0000_0000
  type half = x: int | 0 <= x < 0x1_0000
  type byte = x: int | 0 <= x < 0x100

  /** The unsigned 32-bit value that an arithmetic result wraps to. */
  function Wrap(x: int): word {
    x % WORD_LIMIT
  }

  function Pow2(k: nat): nat {
    if k == 0 then 1 else 2 * Pow2(k - 1)
  }

  /** C's `a | b` on unsigned values, bit by bit. */
  function BitOr(a: nat, b: nat): nat {
    if a == 0 then b
    else if b == 0 then a
    else 2 * BitOr(a / 2, b / 2) + (if a % 2 == 1 || b % 2 == 1 then 1 else 0)
  }

  /** Bit k of a value. */
  predicate Bit(a: nat, k: nat) {
    if k == 0 then a % 2 == 1 else Bit(a / 2, k - 1)
  }

  /** OR sets exactly the bits that either operand has. */
  lemma {:induction false} BitOrBits(a: nat, b: nat, k: nat)
    ensures Bit(BitOr(a, b), k) <==> Bit(a, k) || Bit(b, k)
    decreases k
  {
    if a == 0 {
      ZeroHasNoBits(k);
    } else if b == 0 {
      ZeroHasNoBits(k);
    } else if k > 0 {
      assert BitOr(a, b) / 2 == BitOr(a / 2, b / 2);
      BitOrBits(a / 2, b / 2, k - 1);
    }
  }

  lemma {:induction false} ZeroHasNoBits(k: nat)
    ensures !Bit(0, k)
  {
    if k == 0 {
    } else {
      ZeroHasNoBits(k - 1);
    }
  }

  /** OR of two k-bit values is a k-bit value. */
  lemma {:induction false} BitOrBound(a: nat, b: nat, k: nat)
    requires a < Pow2(k) && b < Pow2(k)
    ensures BitOr(a, b) < Pow2(k)
  {
    if k > 0 && a > 0 && b > 0 {
      BitOrBound(a / 2, b / 2, k - 1);
    }
  }

  /** OR with a value below the lowest set bit is addition. */
  lemma {:induction false} BitOrDisjoint(a: nat, q: nat, k: nat, b: nat)
    requires a == q * Pow2(k) && b < Pow2(k)
    ensures BitOr(a, b) == a + b
    decreases k
  {
    if a != 0 && b != 0 {
      assert k > 0;
      var p := Pow2(k - 1);
      assert a == 2 * (q * p) by { assert q * (2 * p) == 2 * (q * p); }
      BitOrDisjoint(a / 2, q, k - 1, b / 2);
    }
  }

  /** OR with 1 makes a value odd and changes nothing else. */
  lemma BitOrOne(a: nat)
    ensures BitOr(a, 1) == if a % 2 == 1 then a else a + 1
  {
    if a != 0 {
      assert BitOr(a / 2, 0) == a / 2;
    }
  }

  /* ---- little-endian byte order ---- */

  function FromBytes(a: byte, b: byte, c: byte, d: byte): word {
    a + 256 * b + 65536 * c + 16777216 * d
  }

  /** Byte j of a word in memory order. */
  function ByteOf(w: word, j: nat): byte
    requires j < 4
  {
    if j == 0 then w % 256
    else if j == 1 then w / 256 % 256
    else if j == 2 then w / 65536 % 256
    else w / 16777216
  }

  lemma FromBytesInverse(a: byte, b: byte, c: byte, d: byte)
    ensures var w := FromBytes(a, b, c, d);
      ByteOf(w, 0) == a && ByteOf(w, 1) == b && ByteOf(w, 2) == c && ByteOf(w, 3) == d
  {
    var w := FromBytes(a, b, c, d);
    assert w / 256 == b + 256 * c + 65536 * d;
    assert w / 65536 == c + 256 * d;
  }

  lemma ByteOfInverse(w: word)
    ensures FromBytes(ByteOf(w, 0), ByteOf(w, 1), ByteOf(w, 2), ByteOf(w, 3)) == w
  {
    assert w / 65536 == w / 256 / 256;
    assert w / 16777216 == w / 65536 / 256;
  }

  /** A byte store into the word that holds the byte. */
  function SetByte(w: word, j: nat, b: byte): word
    requires j < 4
  {
    FromBytes(if j == 0 then b else ByteOf(w, 0), if j == 1 then b else ByteOf(w, 1),
              if j == 2 then b else ByteOf(w, 2), if j == 3 then b else ByteOf(w, 3))
  }

  lemma SetByteBytes(w: word, j: nat, b: byte, i: nat)
    requires j < 4 && i < 4
    ensures ByteOf(SetByte(w, j, b), i) == if i == j then b else ByteOf(w, i)
  {
    FromBytesInverse(if j == 0 then b else ByteOf(w, 0), if j == 1 then b else ByteOf(w, 1),
                     if j == 2 then b else ByteOf(w, 2), if j == 3 then b else ByteOf(w, 3));
  }
}
