/** The digest of the flash session, and the damage in a segment that can never pass. */
module FlashCrc {
  import opened Basics
  import opened FlashWorld
  import opened FlashImage
  import Crc32
  import opened WordBits

  function Narrow(b: Byte): bv8 { b as bv8 }

  function Bytes(s: seq<Byte>): (r: seq<bv8>)
    ensures |r| == |s| && forall i :: 0 <= i < |s| ==> r[i] == Narrow(s[i])
  {
    seq(|s|, i requires 0 <= i < |s| => Narrow(s[i]))
  }

  function Number(c: bv32): nat { c as nat }

  function FileCrc(s: seq<Byte>): nat {
    Number(Crc32.Crc(Bytes(s), 0))
  }

  lemma NarrowInjective(a: Byte, b: Byte)
    requires Narrow(a) == Narrow(b)
    ensures a == b
  {
    ByteRoundTrip(a);
    ByteRoundTrip(b);
  }

  lemma NumberInjective(a: bv32, b: bv32)
    requires Number(a) == Number(b)
    ensures a == b
  {
    WordRoundTrip(a);
    WordRoundTrip(b);
  }

  lemma FileCrcDetects(x: seq<Byte>, y: seq<Byte>, from: nat, to: nat)
    requires |x| == |y| && from <= to <= from + 4 && to <= |x|
    requires x != y && forall i :: 0 <= i < |x| && !(from <= i < to) ==> x[i] == y[i]
    ensures FileCrc(x) != FileCrc(y)
  {
    hide Narrow, Number, Crc32.Crc;
    var i :| 0 <= i < |x| && x[i] != y[i];
    var bx, bz := Bytes(x), Bytes(y);
    if bx[i] == bz[i] { NarrowInjective(x[i], y[i]); }
    assert bx[..from] == bz[..from] && bx[to..] == bz[to..];
    Crc32.WindowDetected(bx, bz, from, to, 0);
    if FileCrc(x) == FileCrc(y) { NumberInjective(Crc32.Crc(bx, 0), Crc32.Crc(bz, 0)); }
  }

  /** A segment that differs from the file, but only inside one window of four bytes, never passes. */
  lemma DamagedSegmentFails(held: seq<Byte>, image: seq<Byte>, s: nat, from: nat, to: nat)
    requires |held| <= |image| && s * BLOCK <= from < to <= from + 4 && to <= Min((s + 1) * BLOCK, |held|)
    requires exists i :: from <= i < to && held[i] != image[i]
    requires forall i :: s * BLOCK <= i < Min((s + 1) * BLOCK, |held|) && !(from <= i < to) ==> held[i] == image[i]
    ensures !SegmentMatches(FileCrc, held, image, s)
  {
    hide FileCrc;
    var a, e := s * BLOCK, Min((s + 1) * BLOCK, |held|);
    var x, y := held[a..e], image[a..e];
    var i :| from <= i < to && held[i] != image[i];
    assert x[i - a] != y[i - a];
    FileCrcDetects(x, y, from - a, to - a);
  }

  /** The check value, from bytes to number: of the characters 1 to 9. */
  lemma CheckNumber()
    ensures FileCrc([49, 50, 51, 52, 53, 54, 55, 56, 57]) == 3421780262
  {
    hide Crc32.Crc;
    Crc32.CheckValue();
    assert Bytes([49, 50, 51, 52, 53, 54, 55, 56, 57]) == Crc32.DIGITS;
  }
}
