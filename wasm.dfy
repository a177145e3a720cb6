/** The web front end's framebuffer unpacker: the 256 packed bytes become
    2048 pixels of 0 or 1, row by row, most significant bit first. */
module Wasm {
  import opened Chip8Types
  import opened Bits
  import opened Alu
  import opened MachineSpec

  /** Pixel i of the unpacked output: bit 7 - i mod 8 of packed byte
      i / 8, and 0 past the end of the input. */
  function UnpackedPixel(packed: seq<u8>, i: nat): u8 {
    var byteIndex := i / 8;
    if byteIndex < |packed| && Bit(packed[byteIndex], 7 - i % 8) then 1 else 0
  }

  /** Bit k of 2^n is set exactly when k is n. */
  lemma {:induction false} Pow2Bit(n: nat, k: nat)
    ensures Bit(Pow2(n), k) == (k == n)
  {
    if n == 0 {
      if k > 0 {
        ZeroHasNoBits(k - 1);
      }
    } else if k == 0 {
      assert Pow2(n) % 2 == 0;
    } else {
      assert Pow2(n) / 2 == Pow2(n - 1);
      Pow2Bit(n - 1, k - 1);
    }
  }

  /** The mask `0b1000_0000 >> bit` has exactly bit 7 - bit set. */
  function PixelMask(bit: nat): (mask: u8)
    requires bit < 8
    ensures forall j: nat :: Bit(mask, j) == (j == 7 - bit)
  {
    Pow2Byte();
    assert Pow2(7) == 0x80;
    forall k: nat
      ensures Bit(0x80, k) == (k == 7)
    {
      Pow2Bit(7, k);
    }
    Shr(0x80, bit, 8)
  }

  /** `byte & mask == mask` holds exactly when the byte has the mask's
      bit set. */
  lemma MaskTest(byte: u8, bit: nat)
    requires bit < 8
    ensures (And8(byte, PixelMask(bit)) == PixelMask(bit)) == Bit(byte, 7 - bit)
  {
    var mask := PixelMask(bit);
    if Bit(byte, 7 - bit) {
      SameByte(And8(byte, mask), mask);
    } else {
      assert Bit(mask, 7 - bit) && !Bit(And8(byte, mask), 7 - bit);
    }
  }

  /** `unpack_framebuffer`: a fresh array of DISPLAY_PIXELS zeros, filled
      byte by byte and bit by bit, stopping at the end of the screen. */
  method UnpackFramebuffer(packed: seq<u8>) returns (output: array<u8>)
    ensures fresh(output) && output.Length == DISPLAY_PIXELS
    ensures forall i :: 0 <= i < DISPLAY_PIXELS ==> output[i] == UnpackedPixel(packed, i)
  {
    output := new u8[DISPLAY_PIXELS](_ => 0);
    for byteIndex := 0 to |packed|
      invariant forall i :: 0 <= i < DISPLAY_PIXELS ==>
                  output[i] == (if i / 8 < byteIndex then UnpackedPixel(packed, i) else 0)
    {
      var base := byteIndex * 8;
      if base >= DISPLAY_PIXELS {
        break;
      }
      for bit := 0 to 8
        invariant forall i :: 0 <= i < DISPLAY_PIXELS ==>
                    output[i] == (if i / 8 < byteIndex || (i / 8 == byteIndex && i % 8 < bit)
                                  then UnpackedPixel(packed, i) else 0)
      {
        var pixelIndex := base + bit;
        if pixelIndex >= DISPLAY_PIXELS {
          break;
        }
        var mask := PixelMask(bit);
        MaskTest(packed[byteIndex], bit);
        output[pixelIndex] := if And8(packed[byteIndex], mask) == mask then 1 else 0;
      }
    }
  }

  /** Every output entry is 0 or 1, and entry row * 64 + column is the
      framebuffer pixel at (column, row). */
  lemma UnpackedIsPixel(fb: seq<u8>, px: int, py: int)
    requires |fb| == FRAMEBUFFER_PACKED_LEN && 0 <= px < DISPLAY_WIDTH && 0 <= py < DISPLAY_HEIGHT
    ensures UnpackedPixel(fb, py * DISPLAY_WIDTH + px) == (if Pixel(fb, px, py) then 1 else 0)
  {
    var i := py * DISPLAY_WIDTH + px;
    assert i / 8 == py * 8 + px / 8 && i % 8 == px % 8;
  }

  /** Input bytes past the 256 of the framebuffer do not change the
      output, and pixels past the end of a short input stay 0. */
  lemma UnpackedIgnoresExtra(packed: seq<u8>, i: nat)
    requires i < DISPLAY_PIXELS
    ensures UnpackedPixel(packed, i) <= 1
    ensures |packed| > FRAMEBUFFER_PACKED_LEN ==> UnpackedPixel(packed, i) == UnpackedPixel(packed[..FRAMEBUFFER_PACKED_LEN], i)
    ensures i >= 8 * |packed| ==> UnpackedPixel(packed, i) == 0
  {
  }
}
