/** Unsigned integers read as sequences of bits, and the bitwise operators
    of the interpreter (AND, OR, XOR, NOT and the shifts) defined bit by
    bit on a fixed width. Every operator is characterised by what it does
    to each bit, and two numbers of a width are equal exactly when their
    bits are, so facts about the operators reduce to facts about
    booleans. */
module Bits {

  /** 2 to the power n. */
  function Pow2(n: nat): (p: nat)
    ensures 1 <= p
  {
    if n == 0 then 1 else 2 * Pow2(n - 1)
  }

  /** Bit i of a; bit 0 is the least significant. */
  predicate Bit(a: nat, i: nat) {
    if i == 0 then a % 2 == 1 else Bit(a / 2, i - 1)
  }

  /** The number whose bits, least significant first, are `bs`. */
  function FromBits(bs: seq<bool>): nat {
    if |bs| == 0 then 0 else (if bs[0] then 1 else 0) + 2 * FromBits(bs[1..])
  }

  /** The low w bits of a, least significant first. */
  function ToBits(a: nat, w: nat): (bs: seq<bool>)
    ensures |bs| == w
    ensures forall i :: 0 <= i < w ==> bs[i] == Bit(a, i)
  {
    seq(w, i requires 0 <= i < w => Bit(a, i))
  }

  /** Zero has no bit set. */
  lemma {:induction false} ZeroHasNoBits(i: nat)
    ensures !Bit(0, i)
  {
    if i > 0 {
      ZeroHasNoBits(i - 1);
    }
  }

  /** w bits hold a number below 2^w. */
  lemma {:induction false} FromBitsBound(bs: seq<bool>)
    ensures FromBits(bs) < Pow2(|bs|)
  {
    if |bs| > 0 {
      FromBitsBound(bs[1..]);
    }
  }

  /** Bit i of the number built from `bs` is `bs[i]`, and clear beyond
      the end of `bs`. */
  lemma {:induction false} BitOfFromBits(bs: seq<bool>, i: nat)
    ensures Bit(FromBits(bs), i) == (i < |bs| && bs[i])
  {
    if |bs| == 0 {
      ZeroHasNoBits(i);
    } else if i > 0 {
      assert FromBits(bs) / 2 == FromBits(bs[1..]);
      BitOfFromBits(bs[1..], i - 1);
    }
  }

  /** Every bit of the number built from `bs`, and its bound. */
  lemma BitsOfFromBits(bs: seq<bool>)
    ensures forall i: nat :: Bit(FromBits(bs), i) == (i < |bs| && bs[i])
    ensures FromBits(bs) < Pow2(|bs|)
  {
    forall i: nat
      ensures Bit(FromBits(bs), i) == (i < |bs| && bs[i])
    {
      BitOfFromBits(bs, i);
    }
    FromBitsBound(bs);
  }

  /** A number below 2^w is rebuilt from its low w bits. */
  lemma {:induction false} FromToBits(a: nat, w: nat)
    requires a < Pow2(w)
    ensures FromBits(ToBits(a, w)) == a
  {
    if w > 0 {
      FromToBits(a / 2, w - 1);
      assert ToBits(a, w)[1..] == ToBits(a / 2, w - 1);
    }
  }

  /** Two numbers below 2^w with the same low w bits are equal. */
  lemma BitsDetermine(a: nat, b: nat, w: nat)
    requires a < Pow2(w) && b < Pow2(w)
    requires forall i :: 0 <= i < w ==> Bit(a, i) == Bit(b, i)
    ensures a == b
  {
    FromToBits(a, w);
    FromToBits(b, w);
    assert ToBits(a, w) == ToBits(b, w);
  }

  /** A number below 2^w has no bit set at position w or above. */
  lemma {:induction false} HighBitsClear(a: nat, w: nat, i: nat)
    requires a < Pow2(w) && w <= i
    ensures !Bit(a, i)
  {
    if w == 0 {
      ZeroHasNoBits(i);
    } else {
      HighBitsClear(a / 2, w - 1, i - 1);
    }
  }

  /** A number below 2^w with no bit set is zero. */
  lemma NoBitsIsZero(a: nat, w: nat)
    requires a < Pow2(w)
    requires forall i :: 0 <= i < w ==> !Bit(a, i)
    ensures a == 0
  {
    forall i | 0 <= i < w
      ensures Bit(a, i) == Bit(0, i)
    {
      ZeroHasNoBits(i);
    }
    BitsDetermine(a, 0, w);
  }

  /** One more low bit below a number: bit 0 of `lo + 2 * rest` is `lo`
      and bit i + 1 is bit i of `rest`. */
  lemma BitsOfCons(lo: nat, rest: nat)
    requires lo < 2
    ensures Bit(lo + 2 * rest, 0) == (lo == 1)
    ensures forall i: nat :: Bit(lo + 2 * rest, i + 1) == Bit(rest, i)
  {
    assert (lo + 2 * rest) / 2 == rest;
  }

  /** Placing h above k low bits that hold l: the low k bits of
      `2^k * h + l` are those of l, and the bits above are those of h. */
  lemma {:induction false} BitsOfPlaced(k: nat, h: nat, l: nat, i: nat)
    requires l < Pow2(k)
    ensures Bit(Pow2(k) * h + l, i) == (if i < k then Bit(l, i) else Bit(h, i - k))
  {
    if k > 0 {
      var rest := Pow2(k - 1) * h + l / 2;
      assert Pow2(k) * h + l == l % 2 + 2 * rest;
      BitsOfCons(l % 2, rest);
      if i > 0 {
        BitsOfPlaced(k - 1, h, l / 2, i - 1);
      }
    }
  }

  /** `2^k - 1` has exactly its low k bits set. */
  lemma {:induction false} AllOnes(k: nat, i: nat)
    ensures Bit(Pow2(k) - 1, i) == (i < k)
  {
    if k == 0 {
      ZeroHasNoBits(i);
    } else {
      assert Pow2(k) - 1 == 1 + 2 * (Pow2(k - 1) - 1);
      BitsOfCons(1, Pow2(k - 1) - 1);
      if i > 0 {
        AllOnes(k - 1, i - 1);
      }
    }
  }

  /** The low w bits of a, `a % 2^w`. */
  function Low(a: nat, w: nat): (r: nat)
    ensures r < Pow2(w)
    ensures forall i: nat :: Bit(r, i) == (i < w && Bit(a, i))
  {
    if w == 0 then
      forall i: nat ensures !Bit(0, i) { ZeroHasNoBits(i); }
      0
    else
      var rest := Low(a / 2, w - 1);
      BitsOfCons(a % 2, rest);
      a % 2 + 2 * rest
  }

  /** `a & b` on w bits. */
  function And(a: nat, b: nat, w: nat): (r: nat)
    ensures r < Pow2(w)
    ensures forall i: nat :: Bit(r, i) == (i < w && Bit(a, i) && Bit(b, i))
  {
    if w == 0 then
      forall i: nat ensures !Bit(0, i) { ZeroHasNoBits(i); }
      0
    else
      var lo := if a % 2 == 1 && b % 2 == 1 then 1 else 0;
      var rest := And(a / 2, b / 2, w - 1);
      BitsOfCons(lo, rest);
      lo + 2 * rest
  }

  /** `a | b` on w bits. */
  function Or(a: nat, b: nat, w: nat): (r: nat)
    ensures r < Pow2(w)
    ensures forall i: nat :: Bit(r, i) == (i < w && (Bit(a, i) || Bit(b, i)))
  {
    if w == 0 then
      forall i: nat ensures !Bit(0, i) { ZeroHasNoBits(i); }
      0
    else
      var lo := if a % 2 == 1 || b % 2 == 1 then 1 else 0;
      var rest := Or(a / 2, b / 2, w - 1);
      BitsOfCons(lo, rest);
      lo + 2 * rest
  }

  /** `a ^ b` on w bits. */
  function Xor(a: nat, b: nat, w: nat): (r: nat)
    ensures r < Pow2(w)
    ensures forall i: nat :: Bit(r, i) == (i < w && Bit(a, i) != Bit(b, i))
  {
    if w == 0 then
      forall i: nat ensures !Bit(0, i) { ZeroHasNoBits(i); }
      0
    else
      var lo := if a % 2 != b % 2 then 1 else 0;
      var rest := Xor(a / 2, b / 2, w - 1);
      BitsOfCons(lo, rest);
      lo + 2 * rest
  }

  /** `!a` on w bits. */
  function Not(a: nat, w: nat): (r: nat)
    ensures r < Pow2(w)
    ensures forall i: nat :: Bit(r, i) == (i < w && !Bit(a, i))
  {
    if w == 0 then
      forall i: nat ensures !Bit(0, i) { ZeroHasNoBits(i); }
      0
    else
      var lo := 1 - a % 2;
      var rest := Not(a / 2, w - 1);
      BitsOfCons(lo, rest);
      lo + 2 * rest
  }

  /** `a >> k` on w bits. */
  function Shr(a: nat, k: nat, w: nat): (r: nat)
    ensures r < Pow2(w)
    ensures forall i: nat :: Bit(r, i) == (i < w && Bit(a, i + k))
  {
    if k == 0 then Low(a, w) else Shr(a / 2, k - 1, w)
  }

  /** `a << k` truncated to w bits. */
  function Shl(a: nat, k: nat, w: nat): (r: nat)
    ensures r < Pow2(w)
    ensures forall i: nat :: Bit(r, i) == (k <= i < w && Bit(a, i - k))
  {
    if k == 0 then Low(a, w)
    else if w == 0 then
      forall i: nat ensures !Bit(0, i) { ZeroHasNoBits(i); }
      0
    else
      var rest := Shl(a, k - 1, w - 1);
      BitsOfCons(0, rest);
      2 * rest
  }
}
