/** The event mode register. A 64-bit mask of the source is modelled by the set of its one bits: AND is
    intersection, OR is union, AND with a complement is difference. The register holds bits 0..47. */
module ModeBits {

  type Mask = set<nat>

  /** One of the 48 mode bits. */
  type Bit = b: nat | b < 48

  /** 0xFFFFFFFFFFFF */
  const KEEP_ALL: Mask := set b: nat | b < 48

  const WORD: Mask := set b: nat | b < 64

  predicate On(w: Mask, b: Bit) {
    b in w
  }

  /** The pattern a subsystem sets when it is on (setBitsMask48): the low `bitCount` bits of `value`,
      moved up to `startBit`; what is shifted past bit 63 is lost. */
  function SetBits(startBit: nat, bitCount: nat, value: Mask): Mask {
    (set b | b in value && b < bitCount && b + startBit < 64 :: b + startBit)
  }

  /** The pattern a subsystem clears when it leaves (clearBitsMask48). */
  function ClearBits(startBit: nat, bitCount: nat): Mask {
    set b | b in WORD && startBit <= b < startBit + bitCount
  }

  /** A subsystem that leaves with the position and width it joined with clears every bit it set. */
  lemma LeaveCoversJoin(startBit: nat, bitCount: nat, value: Mask)
    ensures SetBits(startBit, bitCount, value) <= ClearBits(startBit, bitCount)
  {
  }

  /** A named subsystem joins with one bit of value 1: its own mode bit and no other. */
  lemma NamedSubsystemBit(startBit: Bit)
    ensures SetBits(startBit, 1, {0}) == {startBit} == ClearBits(startBit, 1)
  {
    assert 0 + startBit in SetBits(startBit, 1, {0});
  }

  /** Bit b of the pattern is bit b - startBit of the value, for the `bitCount` low bits of the value and as far as they
      fit into 64 bits. */
  lemma SetBitAt(startBit: nat, bitCount: nat, value: Mask, b: nat)
    ensures b in SetBits(startBit, bitCount, value) <==>
      startBit <= b < 64 && b - startBit < bitCount && b - startBit in value
    ensures b in ClearBits(startBit, bitCount) <==> startBit <= b < 64 && b - startBit < bitCount
  {
    if b >= startBit { assert b - startBit + startBit == b; }
  }
}
