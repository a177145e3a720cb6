/** The value-level helpers of the execution engine: the byte-wide
    bitwise operators, nibble splitting, the nn/nnn operand assembly, and
    the value computations of the arithmetic, shift, BCD and sprite
    opcodes. The source computes on u8/u16 values; here bytes are
    integers in 0..255, byte-wide wrap-around is written out as `% 256`,
    and the bitwise operators are those of module Bits on 8 bits. */
module Alu {
  import opened Chip8Types
  import opened Bits

  /** 2^8 and 2^4, evaluated once. */
  lemma Pow2Byte()
    ensures Pow2(8) == 256 && Pow2(4) == 16
  {
  }

  /** `a & b` on bytes. */
  function And8(a: u8, b: u8): (r: u8)
    ensures forall i: nat :: Bit(r, i) == (i < 8 && Bit(a, i) && Bit(b, i))
  {
    Pow2Byte();
    And(a, b, 8)
  }

  /** `a | b` on bytes. */
  function Or8(a: u8, b: u8): (r: u8)
    ensures forall i: nat :: Bit(r, i) == (i < 8 && (Bit(a, i) || Bit(b, i)))
  {
    Pow2Byte();
    Or(a, b, 8)
  }

  /** `a ^ b` on bytes. */
  function Xor8(a: u8, b: u8): (r: u8)
    ensures forall i: nat :: Bit(r, i) == (i < 8 && Bit(a, i) != Bit(b, i))
  {
    Pow2Byte();
    Xor(a, b, 8)
  }

  /** `!a` on bytes. */
  function Not8(a: u8): (r: u8)
    ensures forall i: nat :: Bit(r, i) == (i < 8 && !Bit(a, i))
  {
    Pow2Byte();
    Not(a, 8)
  }

  /** Two bytes with the same eight bits are equal. */
  lemma SameByte(a: u8, b: u8)
    requires forall i :: 0 <= i < 8 ==> Bit(a, i) == Bit(b, i)
    ensures a == b
  {
    Pow2Byte();
    BitsDetermine(a, b, 8);
  }

  /** A byte is non-zero exactly when one of its eight bits is set. */
  lemma NonZeroByte(a: u8)
    ensures a != 0 <==> exists i: nat :: i < 8 && Bit(a, i)
  {
    Pow2Byte();
    if a != 0 {
      if forall i: nat :: i < 8 ==> !Bit(a, i) {
        NoBitsIsZero(a, 8);
        assert false;
      }
      assert exists i: nat :: i < 8 && Bit(a, i);
    } else {
      forall i: nat | i < 8
        ensures !Bit(a, i)
      {
        ZeroHasNoBits(i);
      }
      assert !exists i: nat :: i < 8 && Bit(a, i);
    }
  }

  /** XOR-ing the same byte in twice restores the original. */
  lemma XorTwice(a: u8, s: u8)
    ensures Xor8(Xor8(a, s), s) == a
  {
    SameByte(Xor8(Xor8(a, s), s), a);
  }

  // ---------------------------------------------------------------------
  // Decoding

  /** The high nibble, `(0xF0 & byte) >> 4`: the upper four bits
      (FetchNibbles shows the two agree). */
  function HighNibble(byte: u8): Nibble {
    byte / 16
  }

  /** The low nibble, `0x0F & byte`: the lower four bits. */
  function LowNibble(byte: u8): Nibble {
    byte % 16
  }

  /** NN, `c << 4 | d`: the shifted c and d have no bit in common, so
      this is 16c + d. */
  function Nn(c: Nibble, d: Nibble): u8 {
    16 * c + d
  }

  /** NNN, `(b as u16) << 8 | (c << 4 | d) as u16`: the 12-bit address
      256b + 16c + d. */
  function Nnn(b: Nibble, c: Nibble, d: Nibble): (r: u16)
    ensures r < 0x1000
  {
    256 * b + 16 * c + d
  }

  /** The nibble split of the fetch is the source's mask-and-shift. */
  lemma FetchNibbles(byte: u8)
    ensures HighNibble(byte) == Shr(And8(0xF0, byte), 4, 8)
    ensures LowNibble(byte) == And8(0x0F, byte)
  {
    HighNibbleBits(byte);
    LowNibbleBits(byte);
  }

  /** NN and NNN are the source's shift-and-or assembly of the nibbles,
      in 8 and 16 bits. */
  lemma OperandAssembly(b: Nibble, c: Nibble, d: Nibble)
    ensures Nn(c, d) == Or(Shl(c, 4, 8), d, 8)
    ensures Nnn(b, c, d) == Or(Shl(b, 8, 16), Nn(c, d), 16)
  {
    NnBits(c, d);
    NnnBits(b, Nn(c, d));
  }

  /** A byte is 2^4 times its high nibble plus its low nibble. */
  lemma NibbleBits(byte: u8, i: nat)
    ensures Bit(byte, i) == (if i < 4 then Bit(byte % 16, i) else Bit(byte / 16, i - 4))
  {
    Pow2Byte();
    BitsOfPlaced(4, byte / 16, byte % 16, i);
  }

  /** The bits of the masks 0xF0 and 0x0F. */
  lemma MaskBits(i: nat)
    ensures Bit(0xF0, i) == (4 <= i < 8) && Bit(0x0F, i) == (i < 4)
  {
    Pow2Byte();
    AllOnes(4, i);
    if i >= 4 {
      AllOnes(4, i - 4);
    }
    BitsOfPlaced(4, 15, 0, i);
    assert Pow2(4) * 15 + 0 == 0xF0;
  }

  lemma HighNibbleBits(byte: u8)
    ensures byte / 16 == Shr(And8(0xF0, byte), 4, 8)
  {
    Pow2Byte();
    var r := Shr(And8(0xF0, byte), 4, 8);
    forall i | 0 <= i < 8
      ensures Bit(byte / 16, i) == Bit(r, i)
    {
      NibbleBits(byte, i + 4);
      MaskBits(i + 4);
      if i >= 4 {
        HighBitsClear(byte / 16, 4, i);
      }
    }
    SameByte(byte / 16, r);
  }

  lemma LowNibbleBits(byte: u8)
    ensures byte % 16 == And8(0x0F, byte)
  {
    Pow2Byte();
    var r := And8(0x0F, byte);
    forall i | 0 <= i < 8
      ensures Bit(byte % 16, i) == Bit(r, i)
    {
      NibbleBits(byte, i);
      MaskBits(i);
      if i >= 4 {
        HighBitsClear(byte % 16, 4, i);
      }
    }
    SameByte(byte % 16, r);
  }

  lemma NnBits(c: Nibble, d: Nibble)
    ensures 16 * c + d == Or(Shl(c, 4, 8), d, 8)
  {
    Pow2Byte();
    var r := Or(Shl(c, 4, 8), d, 8);
    forall i | 0 <= i < 8
      ensures Bit(16 * c + d, i) == Bit(r, i)
    {
      BitsOfPlaced(4, c, d, i);
      if i >= 4 {
        HighBitsClear(d, 4, i);
      }
    }
    SameByte(16 * c + d, r);
  }

  lemma NnnBits(b: Nibble, nn: u8)
    ensures 256 * b + nn == Or(Shl(b, 8, 16), nn, 16)
  {
    Pow2Byte();
    assert Pow2(16) == 0x10000;
    var r := Or(Shl(b, 8, 16), nn, 16);
    forall i | 0 <= i < 16
      ensures Bit(256 * b + nn, i) == Bit(r, i)
    {
      BitsOfPlaced(8, b, nn, i);
      if i >= 8 {
        HighBitsClear(nn, 8, i);
      }
    }
    BitsDetermine(256 * b + nn, r, 16);
  }

  /** Splitting a byte into nibbles and joining them gives the byte back,
      and joining two nibbles and splitting gives them back. */
  lemma NibblesReassemble(byte: u8, c: Nibble, d: Nibble)
    ensures Nn(HighNibble(byte), LowNibble(byte)) == byte
    ensures HighNibble(Nn(c, d)) == c && LowNibble(Nn(c, d)) == d
  {
  }

  // ---------------------------------------------------------------------
  // Arithmetic opcodes

  /** 7XNN and 8XY4: the sum is formed in 16 bits, `result & 0xFF` goes
      to VX and the carry bit `(result & 0x100) >> 8` to VF. */
  function AddWithCarry(a: u8, b: u8): (r: (u8, u8))
    ensures r.0 == (a + b) % 256
    ensures r.1 == (if a + b > 255 then 1 else 0)
  {
    var result: u16 := a + b;
    (result % 256, result / 256)
  }

  /** 8XY5 (minuend VX) and 8XY7 (minuend VY): the difference and the
      NOT-borrow flag. A borrowing difference adds the two's complement
      of the subtrahend, `(!s) as u16 + 1`, and keeps the low byte; the
      other is formed in 16 signed bits, where it is non-negative and
      below 256. */
  function SubWithBorrow(minuend: u8, subtrahend: u8): (r: (u8, u8))
    ensures (r.0 + subtrahend) % 256 == minuend
    ensures r.1 == (if minuend >= subtrahend then 1 else 0)
  {
    if minuend < subtrahend then
      var twoComp: u16 := (255 - subtrahend) + 1;
      ((minuend + twoComp) % 256, 0)
    else
      (minuend - subtrahend, 1)
  }

  /** 8XY6: `src >> 1` and the bit shifted out, `src & 0x1`. */
  function ShiftRight(src: u8): (r: (u8, u8))
    ensures 2 * r.0 + r.1 == src && r.1 <= 1
    ensures r.1 == 1 <==> Bit(src, 0)
  {
    (src / 2, src % 2)
  }

  /** 8XYE: `src << 1` truncated to a byte, and `(src & 0b1000) >> 3`:
      bit 3 of the source, not the bit shifted out. */
  function ShiftLeft(src: u8): (r: (u8, u8))
    ensures r.0 == (2 * src) % 256
    ensures r.1 <= 1 && (r.1 == 1 <==> Bit(src, 3))
  {
    assert Bit(src, 3) == Bit(src / 2, 2) == Bit(src / 4, 1) == Bit(src / 8, 0);
    ((2 * src) % 256, (src / 8) % 2)
  }

  /** FX33: the floored quotients by 100, 10 and 1, and the digits taken
      from their differences, as the source computes them (its
      floating-point division is exact on bytes, so the floor is the
      integer quotient). The digits are decimal and spell the value. */
  function Bcd(v: u8): (r: (u8, u8, u8))
    ensures r.0 <= 2 && r.1 <= 9 && r.2 <= 9
    ensures 100 * r.0 + 10 * r.1 + r.2 == v
  {
    var places := (v / 100, v / 10, v / 1);
    (places.0, places.1 - places.0 * 10, places.2 - places.1 * 10)
  }

  // ---------------------------------------------------------------------
  // Sprite drawing

  /** DXYN, one sprite byte drawn at pixel offset `off` of a framebuffer
      byte: the part for that byte, `sprite >> off`, and the part that
      spills into the next byte, `((sprite as u16) << (8 - off)) & 0xFF`. */
  function SplitSprite(sprite: u8, off: nat): (parts: (u8, u8))
    requires off < 8
    ensures forall i: nat :: Bit(parts.0, i) == (i < 8 && i + off < 8 && Bit(sprite, i + off))
    ensures forall i: nat :: Bit(parts.1, i) == (8 - off <= i < 8 && Bit(sprite, i + off - 8))
  {
    Pow2Byte();
    forall j: nat | 8 <= j
      ensures !Bit(sprite, j)
    {
      HighBitsClear(sprite, 8, j);
    }
    (Shr(sprite, off, 8), Shl(sprite, 8 - off, 8))
  }

  /** DXYN collision test for one framebuffer byte, `!(after & before) &
      before`: the pixels lit in `before` that are dark in `after`. */
  function Cleared(before: u8, after: u8): (r: u8)
    ensures forall i: nat :: Bit(r, i) == (i < 8 && Bit(before, i) && !Bit(after, i))
  {
    And8(Not8(And8(after, before)), before)
  }

  /** XOR-ing a sprite byte into a byte clears exactly the lit pixels the
      sprite covers. */
  lemma ClearedByXor(before: u8, sprite: u8)
    ensures Cleared(before, Xor8(before, sprite)) == And8(before, sprite)
  {
    SameByte(Cleared(before, Xor8(before, sprite)), And8(before, sprite));
  }
}
