/** The image, its 64 kB segments and the records they are written in. */
module FlashImage {
  import opened Basics
  import opened FlashWorld

  const RECORD: nat := 1024

  function Min(a: int, b: int): int {
    if a < b then a else b
  }

  /** The image rounded up to whole segments. */
  function Padded(size: nat): nat {
    (size + BLOCK - 1) / BLOCK * BLOCK
  }

  /** Behind the padded image and the one block more that an older MiV erases. */
  function FootprintEnd(start: nat, size: nat): nat {
    start + Padded(size) + BLOCK
  }

  function SegmentCount(size: nat): nat {
    (size + BLOCK - 1) / BLOCK
  }

  /** Image bytes before segment s. */
  function Before(size: nat, s: nat): nat {
    Min(s * BLOCK, size)
  }

  /** Length of segment s. */
  function SegmentLength(size: nat, s: nat): (n: nat)
    requires s < SegmentCount(size)
    ensures 0 < n <= BLOCK && s * BLOCK + n <= size && (size % 2 == 0 ==> n % 2 == 0)
  {
    Min(BLOCK, size - s * BLOCK)
  }

  lemma SegmentBounds(size: nat, s: nat)
    requires s < SegmentCount(size)
    ensures s * BLOCK < size
    ensures s * BLOCK + 2 * BLOCK <= Padded(size) + BLOCK
    ensures Before(size, s) == s * BLOCK
    ensures Before(size, s + 1) == s * BLOCK + SegmentLength(size, s)
    ensures SegmentCount(size) <= s + 1 ==> Before(size, s + 1) == size
  {
  }

  lemma AllSegments(size: nat)
    ensures Before(size, 0) == 0 && Before(size, SegmentCount(size)) == size
  {
  }

  // ---------------------------------------------------------------- what verified means

  /** Segment s of what the flash holds has the CRC of segment s of the image. */
  predicate SegmentMatches(digest: seq<Byte> -> nat, held: seq<Byte>, image: seq<Byte>, s: nat)
    requires |held| <= |image|
  {
    s * BLOCK < |held| ==>
      var e := Min((s + 1) * BLOCK, |held|);
      digest(held[s * BLOCK..e]) == digest(image[s * BLOCK..e])
  }

  /** What has been verified: segment by segment with a new MiV, byte by byte with an older one. */
  ghost predicate Content(digest: seq<Byte> -> nat, byCrc: bool, held: seq<Byte>, image: seq<Byte>) {
    && |held| <= |image|
    && if byCrc then forall s: nat :: SegmentMatches(digest, held, image, s) else held == image[..|held|]
  }

  lemma NothingVerified(digest: seq<Byte> -> nat, byCrc: bool, image: seq<Byte>)
    ensures Content(digest, byCrc, [], image)
  {
  }

  /** Another segment verified by its CRC. */
  lemma SegmentJoins(digest: seq<Byte> -> nat, held: seq<Byte>, more: seq<Byte>, image: seq<Byte>, s: nat, n: nat)
    requires Content(digest, true, held, image) && |held| == s * BLOCK && n <= BLOCK
    requires |more| == |held| + n <= |image| && more[..|held|] == held
    requires digest(more[s * BLOCK..s * BLOCK + n]) == digest(image[s * BLOCK..s * BLOCK + n])
    ensures Content(digest, true, more, image)
  {
    forall q: nat ensures SegmentMatches(digest, more, image, q) {
      if q < s {
        assert SegmentMatches(digest, held, image, q);
        assert more[q * BLOCK..(q + 1) * BLOCK] == held[q * BLOCK..(q + 1) * BLOCK] by {
          assert forall i :: 0 <= i < |held| ==> more[i] == more[..|held|][i];
        }
      }
    }
  }

  /** Another segment read back. */
  lemma BytesJoin(digest: seq<Byte> -> nat, held: seq<Byte>, image: seq<Byte>, off: nat, n: nat)
    requires Content(digest, false, held, image) && |held| == off && off + n <= |image|
    ensures Content(digest, false, held + image[off..off + n], image)
  {
    assert image[..off + n] == image[..off] + image[off..off + n];
  }

  // ---------------------------------------------------------------- records

  function RecordCount(len: nat): nat {
    (len + RECORD - 1) / RECORD
  }

  /** Record k of the segment at image offset off: at most 512 words. */
  function Record(image: seq<Byte>, start: nat, off: nat, len: nat, k: nat): (c: Cmd)
    requires off + len <= |image| && len % 2 == 0 && k < RecordCount(len)
    ensures c.Write? && c.no == 0 && c.addr == start + off + k * RECORD && 0 < |c.words| <= 512
    ensures c.addr + 2 * |c.words| <= start + off + len
    ensures c.addr + 2 * |c.words| == if k + 1 < RecordCount(len) then c.addr + RECORD else start + off + len
  {
    Write(start + off + k * RECORD, WordsOf(image, off + k * RECORD, Min(RECORD, len - k * RECORD)), 0)
  }

  function Records(image: seq<Byte>, start: nat, off: nat, len: nat, count: nat): (cs: seq<Cmd>)
    requires off + len <= |image| && len % 2 == 0 && count <= RecordCount(len)
    ensures |cs| == count
    ensures forall k :: 0 <= k < count ==> cs[k] == Record(image, start, off, len, k)
  {
    seq(count, k requires 0 <= k < count => Record(image, start, off, len, k))
  }

  lemma NoRecords(image: seq<Byte>, start: nat, off: nat, len: nat)
    requires off + len <= |image| && len % 2 == 0
    ensures Records(image, start, off, len, 0) == [] && (0 < len <==> 0 < RecordCount(len))
  {
  }

  /** The record that begins k kilobytes into the segment. */
  lemma NextRecord(image: seq<Byte>, start: nat, off: nat, len: nat, k: nat)
    requires off + len <= |image| && len % 2 == 0 && k < RecordCount(len)
    ensures var n := Min(RECORD, len - k * RECORD);
            && 0 < n && n % 2 == 0 && off + k * RECORD + n <= |image|
            && Record(image, start, off, len, k)
            == Write(start + off + k * RECORD, WordsOf(image, off + k * RECORD, n), 0)
    ensures (k + 1) * RECORD < len <==> k + 1 < RecordCount(len)
  {
  }

  lemma SlicesJoin<T>(s: seq<T>, a: nat, b: nat, c: nat)
    requires a <= b <= c <= |s|
    ensures s[a..b] + s[b..c] == s[a..c]
  {
  }

  /** The byte that write command c leaves at address p. */
  function ByteAt(c: Cmd, p: nat): Byte
    requires c.Write? && c.addr <= p < c.addr + 2 * |c.words|
  {
    var w := c.words[(p - c.addr) / 2];
    if (p - c.addr) % 2 == 0 then LoByte(w) else HiByte(w)
  }

  predicate Covers(c: Cmd, p: nat) {
    c.Write? && c.addr <= p < c.addr + 2 * |c.words|
  }

  /** The word of a record that address p belongs to. */
  lemma RecordByte(image: seq<Byte>, start: nat, off: nat, len: nat, k: nat, p: nat)
    requires off + len <= |image| && len % 2 == 0 && k < RecordCount(len)
    requires Covers(Record(image, start, off, len, k), p)
    ensures start <= p < start + |image| && ByteAt(Record(image, start, off, len, k), p) == image[p - start]
  {
    var c := Record(image, start, off, len, k);
    var i := (p - c.addr) / 2;
    assert c.words[i] == Pack(image[off + k * RECORD + 2 * i], image[off + k * RECORD + 2 * i + 1]);
  }

  lemma RecordRange(image: seq<Byte>, start: nat, off: nat, len: nat, k: nat, p: nat)
    requires off + len <= |image| && len % 2 == 0 && k < RecordCount(len)
    ensures Covers(Record(image, start, off, len, k), p) <==>
            start + off <= p < start + off + len && (p - start - off) / RECORD == k
  {
  }

  /** The records of a segment write every byte of it exactly once, with the byte of the image, and no other
      address. */
  lemma RecordsCover(image: seq<Byte>, start: nat, off: nat, len: nat, p: nat)
    requires off + len <= |image| && len % 2 == 0
    ensures var cs := Records(image, start, off, len, RecordCount(len));
            if start + off <= p < start + off + len then
              var k := (p - start - off) / RECORD;
              && k < |cs| && Covers(cs[k], p) && ByteAt(cs[k], p) == image[p - start]
              && forall j :: 0 <= j < |cs| && Covers(cs[j], p) ==> j == k
            else forall j :: 0 <= j < |cs| ==> !Covers(cs[j], p)
  {
    hide Record, Covers, ByteAt;
    var cs := Records(image, start, off, len, RecordCount(len));
    forall j | 0 <= j < |cs|
      ensures Covers(cs[j], p) <==> start + off <= p < start + off + len && (p - start - off) / RECORD == j
    {
      RecordRange(image, start, off, len, j, p);
    }
    if start + off <= p < start + off + len {
      RecordByte(image, start, off, len, (p - start - off) / RECORD, p);
    }
  }
}
