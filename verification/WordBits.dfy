/** Numbers as bits and back. */
module WordBits {
  import opened Basics

  lemma ByteRoundTrip(b: Byte)
    ensures (b as bv8) as nat == b
  {
  }

  lemma WordRoundTrip(c: bv32)
    ensures (c as nat) as bv32 == c
  {
  }
}
