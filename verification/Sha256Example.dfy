/** The first example of the standard: the hash of the message "abc", word by word. */
module Sha256Example {
  import opened Basics
  import opened Sha256
  import opened Sha256Words

  /** Eight words of the schedule, or eight constants. */
  datatype Row = Row(a: bv32, b: bv32, c: bv32, d: bv32, e: bv32, f: bv32, g: bv32, h: bv32)

  predicate IsRow(block: seq<Byte>, t: nat, r: Row)
    requires |block| == 64
  {
    && W(block, t) == r.a && W(block, t + 1) == r.b && W(block, t + 2) == r.c && W(block, t + 3) == r.d
    && W(block, t + 4) == r.e && W(block, t + 5) == r.f && W(block, t + 6) == r.g && W(block, t + 7) == r.h
  }

  function NextWord(back2: bv32, back7: bv32, back15: bv32, back16: bv32): bv32 {
    AddFour(SmallSigma1(back2), back7, SmallSigma0(back15), back16)
  }

  /** The eight words behind p and q. */
  function NextRow(p: Row, q: Row): Row {
    var a, b := NextWord(q.g, q.b, p.b, p.a), NextWord(q.h, q.c, p.c, p.b);
    var c, d := NextWord(a, q.d, p.d, p.c), NextWord(b, q.e, p.e, p.d);
    var e, f := NextWord(c, q.f, p.f, p.e), NextWord(d, q.g, p.g, p.f);
    Row(a, b, c, d, e, f, NextWord(e, q.h, p.h, p.g), NextWord(f, a, q.a, p.h))
  }

  lemma WordFollows(block: seq<Byte>, t: nat)
    requires |block| == 64 && t >= 16
    ensures W(block, t) == NextWord(W(block, t - 2), W(block, t - 7), W(block, t - 15), W(block, t - 16))
  {
  }

  lemma RowFollows(block: seq<Byte>, t: nat, p: Row, q: Row)
    requires |block| == 64 && IsRow(block, t, p) && IsRow(block, t + 8, q)
    ensures IsRow(block, t + 16, NextRow(p, q))
  {
    WordFollows(block, t + 16);
    WordFollows(block, t + 17);
    WordFollows(block, t + 18);
    WordFollows(block, t + 19);
    WordFollows(block, t + 20);
    WordFollows(block, t + 21);
    WordFollows(block, t + 22);
    WordFollows(block, t + 23);
    hide W, NextWord;
  }

  /** Eight rounds, with these constants and words. */
  function Eight(v: Hash, k: Row, w: Row): Hash {
    var v4 := Round(Round(Round(Round(v, k.a, w.a), k.b, w.b), k.c, w.c), k.d, w.d);
    Round(Round(Round(Round(v4, k.e, w.e), k.f, w.f), k.g, w.g), k.h, w.h)
  }

  predicate Constants(t: nat, k: Row)
    requires t + 8 <= 64
  {
    && K[t] == k.a && K[t + 1] == k.b && K[t + 2] == k.c && K[t + 3] == k.d
    && K[t + 4] == k.e && K[t + 5] == k.f && K[t + 6] == k.g && K[t + 7] == k.h
  }

  lemma RoundFollows(v: Hash, block: seq<Byte>, t: nat, k: bv32, w: bv32)
    requires |block| == 64 && t < 64 && K[t] == k && W(block, t) == w
    ensures Rounds(v, block, t + 1) == Round(Rounds(v, block, t), k, w)
  {
  }

  lemma EightFollow(v: Hash, block: seq<Byte>, t: nat, k: Row, w: Row)
    requires |block| == 64 && t + 8 <= 64 && Constants(t, k) && IsRow(block, t, w)
    ensures Rounds(v, block, t + 8) == Eight(Rounds(v, block, t), k, w)
  {
    hide Rounds, Round, W;
    RoundFollows(v, block, t, k.a, w.a);
    RoundFollows(v, block, t + 1, k.b, w.b);
    RoundFollows(v, block, t + 2, k.c, w.c);
    RoundFollows(v, block, t + 3, k.d, w.d);
    RoundFollows(v, block, t + 4, k.e, w.e);
    RoundFollows(v, block, t + 5, k.f, w.f);
    RoundFollows(v, block, t + 6, k.g, w.g);
    RoundFollows(v, block, t + 7, k.h, w.h);
  }

  // ---------------------------------------------------------------- the schedule

  const W0 := Row(0x61626380, 0x00000000, 0x00000000, 0x00000000,
    0x00000000, 0x00000000, 0x00000000, 0x00000000)
  const W1 := Row(0x00000000, 0x00000000, 0x00000000, 0x00000000,
    0x00000000, 0x00000000, 0x00000000, 0x00000018)
  const W2 := Row(0x61626380, 0x000f0000, 0x7da86405, 0x600003c6,
    0x3e9d7b78, 0x0183fc00, 0x12dcbfdb, 0xe2e2c38e)
  const W3 := Row(0xc8215c1a, 0xb73679a2, 0xe5bc3909, 0x32663c5b,
    0x9d209d67, 0xec8726cb, 0x702138a4, 0xd3b7973b)
  const W4 := Row(0x93f5997f, 0x3b68ba73, 0xaff4ffc1, 0xf10a5c62,
    0x0a8b3996, 0x72af830a, 0x9409e33e, 0x24641522)
  const W5 := Row(0x9f47bf94, 0xf0a64f5a, 0x3e246a79, 0x27333ba3,
    0x0c4763f2, 0x840abf27, 0x7a290d5d, 0x065c43da)
  const W6 := Row(0xfb3e89cb, 0xcc7617db, 0xb9e66c34, 0xa9993667,
    0x84badedd, 0xc21462bc, 0x1487472c, 0xb20f7a99)
  const W7 := Row(0xef57b9cd, 0xebe6b238, 0x9fe3095e, 0x78bc8d4b,
    0xa43fcf15, 0x668b2ff8, 0xeeaba2cc, 0x12b1edeb)

  lemma Schedule2()
    ensures NextRow(W0, W1) == W2
  {
  }

  lemma Schedule3()
    ensures NextRow(W1, W2) == W3
  {
  }

  lemma Schedule4()
    ensures NextRow(W2, W3) == W4
  {
  }

  lemma Schedule5()
    ensures NextRow(W3, W4) == W5
  {
  }

  lemma Schedule6()
    ensures NextRow(W4, W5) == W6
  {
  }

  lemma Schedule7()
    ensures NextRow(W5, W6) == W7
  {
  }

  // ---------------------------------------------------------------- the rounds

  const K0 := Row(0x428a2f98, 0x71374491, 0xb5c0fbcf, 0xe9b5dba5,
    0x3956c25b, 0x59f111f1, 0x923f82a4, 0xab1c5ed5)
  const K1 := Row(0xd807aa98, 0x12835b01, 0x243185be, 0x550c7dc3,
    0x72be5d74, 0x80deb1fe, 0x9bdc06a7, 0xc19bf174)
  const K2 := Row(0xe49b69c1, 0xefbe4786, 0x0fc19dc6, 0x240ca1cc,
    0x2de92c6f, 0x4a7484aa, 0x5cb0a9dc, 0x76f988da)
  const K3 := Row(0x983e5152, 0xa831c66d, 0xb00327c8, 0xbf597fc7,
    0xc6e00bf3, 0xd5a79147, 0x06ca6351, 0x14292967)
  const K4 := Row(0x27b70a85, 0x2e1b2138, 0x4d2c6dfc, 0x53380d13,
    0x650a7354, 0x766a0abb, 0x81c2c92e, 0x92722c85)
  const K5 := Row(0xa2bfe8a1, 0xa81a664b, 0xc24b8b70, 0xc76c51a3,
    0xd192e819, 0xd6990624, 0xf40e3585, 0x106aa070)
  const K6 := Row(0x19a4c116, 0x1e376c08, 0x2748774c, 0x34b0bcb5,
    0x391c0cb3, 0x4ed8aa4a, 0x5b9cca4f, 0x682e6ff3)
  const K7 := Row(0x748f82ee, 0x78a5636f, 0x84c87814, 0x8cc70208,
    0x90befffa, 0xa4506ceb, 0xbef9a3f7, 0xc67178f2)

  const V0 := Hash(0x6a09e667, 0xbb67ae85, 0x3c6ef372, 0xa54ff53a,
    0x510e527f, 0x9b05688c, 0x1f83d9ab, 0x5be0cd19)
  const V1 := Hash(0x85a07b5f, 0xe5030380, 0x2b4209f5, 0x04409a6a,
    0x0c657a79, 0x9b27a401, 0x714260ad, 0x43ada245)
  const V2 := Hash(0xb0fa238e, 0xc0645fde, 0xd932eb16, 0x87912990,
    0x07590dcd, 0x0b92f20c, 0x745a48de, 0x1e578218)
  const V3 := Hash(0xc5d53d8d, 0xa7a3623f, 0xc2606d6d, 0x9dc68b63,
    0xaa47c347, 0x49f5114a, 0xe1257970, 0x8ada8930)
  const V4 := Hash(0x73b33bf5, 0xea992a22, 0xa0060b30, 0x363482c9,
    0xba591112, 0x0109ab3a, 0xade79437, 0x6112a3b7)
  const V5 := Hash(0x79ea687a, 0x6dc57a8a, 0x34df1604, 0x41a65cb1,
    0x1efbc0a0, 0xf0781bc8, 0xa507a53d, 0x0772a26b)
  const V6 := Hash(0x4172328d, 0xa14c14b0, 0x72ab4b91, 0x26628815,
    0xfecf0bc6, 0xd57b94a9, 0xb7755da1, 0xa80f11f0)
  const V7 := Hash(0x38cc9913, 0x3ec45cdb, 0xf5702fdb, 0x101fd28f,
    0x54cb266b, 0xe50e1b4f, 0x9f4787c3, 0x529e7d00)
  const V8 := Hash(0x506e3058, 0xd39a2165, 0x04d24d6c, 0xb85e2ce9,
    0x5ef50f24, 0xfb121210, 0x948d25b6, 0x961f4894)

  lemma Rounds0()
    ensures Eight(V0, K0, W0) == V1
  {
    var v1 := Hash(0x5d6aebcd, V0.a, V0.b, V0.c, 0xfa2a4622, V0.e, V0.f, V0.g);
    assert Round(V0, K0.a, W0.a) == v1;
    var v2 := Hash(0x5a6ad9ad, v1.a, v1.b, v1.c, 0x78ce7989, v1.e, v1.f, v1.g);
    assert Round(v1, K0.b, W0.b) == v2;
    var v3 := Hash(0xc8c347a7, v2.a, v2.b, v2.c, 0xf92939eb, v2.e, v2.f, v2.g);
    assert Round(v2, K0.c, W0.c) == v3;
    var v4 := Hash(0xd550f666, v3.a, v3.b, v3.c, 0x24e00850, v3.e, v3.f, v3.g);
    assert Round(v3, K0.d, W0.d) == v4;
    var v5 := Hash(0x04409a6a, v4.a, v4.b, v4.c, 0x43ada245, v4.e, v4.f, v4.g);
    assert Round(v4, K0.e, W0.e) == v5;
    var v6 := Hash(0x2b4209f5, v5.a, v5.b, v5.c, 0x714260ad, v5.e, v5.f, v5.g);
    assert Round(v5, K0.f, W0.f) == v6;
    var v7 := Hash(0xe5030380, v6.a, v6.b, v6.c, 0x9b27a401, v6.e, v6.f, v6.g);
    assert Round(v6, K0.g, W0.g) == v7;
    assert Round(v7, K0.h, W0.h) == V1;
    hide Round;
  }

  lemma Rounds1()
    ensures Eight(V1, K1, W1) == V2
  {
    var v1 := Hash(0x8e04ecb9, V1.a, V1.b, V1.c, 0x32ca2d8c, V1.e, V1.f, V1.g);
    assert Round(V1, K1.a, W1.a) == v1;
    var v2 := Hash(0x8c87346b, v1.a, v1.b, v1.c, 0x1cc92596, v1.e, v1.f, v1.g);
    assert Round(v1, K1.b, W1.b) == v2;
    var v3 := Hash(0x4798a3f4, v2.a, v2.b, v2.c, 0x436b23e8, v2.e, v2.f, v2.g);
    assert Round(v2, K1.c, W1.c) == v3;
    var v4 := Hash(0xf71fc5a9, v3.a, v3.b, v3.c, 0x816fd6e9, v3.e, v3.f, v3.g);
    assert Round(v3, K1.d, W1.d) == v4;
    var v5 := Hash(0x87912990, v4.a, v4.b, v4.c, 0x1e578218, v4.e, v4.f, v4.g);
    assert Round(v4, K1.e, W1.e) == v5;
    var v6 := Hash(0xd932eb16, v5.a, v5.b, v5.c, 0x745a48de, v5.e, v5.f, v5.g);
    assert Round(v5, K1.f, W1.f) == v6;
    var v7 := Hash(0xc0645fde, v6.a, v6.b, v6.c, 0x0b92f20c, v6.e, v6.f, v6.g);
    assert Round(v6, K1.g, W1.g) == v7;
    assert Round(v7, K1.h, W1.h) == V2;
    hide Round;
  }

  lemma Rounds2()
    ensures Eight(V2, K2, W2) == V3
  {
    var v1 := Hash(0x21da9a9b, V2.a, V2.b, V2.c, 0x8034229c, V2.e, V2.f, V2.g);
    assert Round(V2, K2.a, W2.a) == v1;
    var v2 := Hash(0xc2fbd9d1, v1.a, v1.b, v1.c, 0x846ee454, v1.e, v1.f, v1.g);
    assert Round(v1, K2.b, W2.b) == v2;
    var v3 := Hash(0xfe777bbf, v2.a, v2.b, v2.c, 0xcc899961, v2.e, v2.f, v2.g);
    assert Round(v2, K2.c, W2.c) == v3;
    var v4 := Hash(0xe1f20c33, v3.a, v3.b, v3.c, 0xb0638179, v3.e, v3.f, v3.g);
    assert Round(v3, K2.d, W2.d) == v4;
    var v5 := Hash(0x9dc68b63, v4.a, v4.b, v4.c, 0x8ada8930, v4.e, v4.f, v4.g);
    assert Round(v4, K2.e, W2.e) == v5;
    var v6 := Hash(0xc2606d6d, v5.a, v5.b, v5.c, 0xe1257970, v5.e, v5.f, v5.g);
    assert Round(v5, K2.f, W2.f) == v6;
    var v7 := Hash(0xa7a3623f, v6.a, v6.b, v6.c, 0x49f5114a, v6.e, v6.f, v6.g);
    assert Round(v6, K2.g, W2.g) == v7;
    assert Round(v7, K2.h, W2.h) == V3;
    hide Round;
  }

  lemma Rounds3()
    ensures Eight(V3, K3, W3) == V4
  {
    var v1 := Hash(0x1c2c2838, V3.a, V3.b, V3.c, 0x2823ef91, V3.e, V3.f, V3.g);
    assert Round(V3, K3.a, W3.a) == v1;
    var v2 := Hash(0xcde8037d, v1.a, v1.b, v1.c, 0x14383d8e, v1.e, v1.f, v1.g);
    assert Round(v1, K3.b, W3.b) == v2;
    var v3 := Hash(0xb62ec4bc, v2.a, v2.b, v2.c, 0xc74c6516, v2.e, v2.f, v2.g);
    assert Round(v2, K3.c, W3.c) == v3;
    var v4 := Hash(0x77d37528, v3.a, v3.b, v3.c, 0xedffbff8, v3.e, v3.f, v3.g);
    assert Round(v3, K3.d, W3.d) == v4;
    var v5 := Hash(0x363482c9, v4.a, v4.b, v4.c, 0x6112a3b7, v4.e, v4.f, v4.g);
    assert Round(v4, K3.e, W3.e) == v5;
    var v6 := Hash(0xa0060b30, v5.a, v5.b, v5.c, 0xade79437, v5.e, v5.f, v5.g);
    assert Round(v5, K3.f, W3.f) == v6;
    var v7 := Hash(0xea992a22, v6.a, v6.b, v6.c, 0x0109ab3a, v6.e, v6.f, v6.g);
    assert Round(v6, K3.g, W3.g) == v7;
    assert Round(v7, K3.h, W3.h) == V4;
    hide Round;
  }

  lemma Rounds4()
    ensures Eight(V4, K4, W4) == V5
  {
    var v1 := Hash(0x98e12507, V4.a, V4.b, V4.c, 0x9cd9f5f6, V4.e, V4.f, V4.g);
    assert Round(V4, K4.a, W4.a) == v1;
    var v2 := Hash(0xfe604df5, v1.a, v1.b, v1.c, 0x59249dd3, v1.e, v1.f, v1.g);
    assert Round(v1, K4.b, W4.b) == v2;
    var v3 := Hash(0xa9a7738c, v2.a, v2.b, v2.c, 0x085f3833, v2.e, v2.f, v2.g);
    assert Round(v2, K4.c, W4.c) == v3;
    var v4 := Hash(0x65a0cfe4, v3.a, v3.b, v3.c, 0xf4b002d6, v3.e, v3.f, v3.g);
    assert Round(v3, K4.d, W4.d) == v4;
    var v5 := Hash(0x41a65cb1, v4.a, v4.b, v4.c, 0x0772a26b, v4.e, v4.f, v4.g);
    assert Round(v4, K4.e, W4.e) == v5;
    var v6 := Hash(0x34df1604, v5.a, v5.b, v5.c, 0xa507a53d, v5.e, v5.f, v5.g);
    assert Round(v5, K4.f, W4.f) == v6;
    var v7 := Hash(0x6dc57a8a, v6.a, v6.b, v6.c, 0xf0781bc8, v6.e, v6.f, v6.g);
    assert Round(v6, K4.g, W4.g) == v7;
    assert Round(v7, K4.h, W4.h) == V5;
    hide Round;
  }

  lemma Rounds5()
    ensures Eight(V5, K5, W5) == V6
  {
    var v1 := Hash(0xd6670766, V5.a, V5.b, V5.c, 0x26352d63, V5.e, V5.f, V5.g);
    assert Round(V5, K5.a, W5.a) == v1;
    var v2 := Hash(0xdf46652f, v1.a, v1.b, v1.c, 0x838b2711, v1.e, v1.f, v1.g);
    assert Round(v1, K5.b, W5.b) == v2;
    var v3 := Hash(0x17aa0dfe, v2.a, v2.b, v2.c, 0xdecd4715, v2.e, v2.f, v2.g);
    assert Round(v2, K5.c, W5.c) == v3;
    var v4 := Hash(0x9d4baf93, v3.a, v3.b, v3.c, 0xfda24c2e, v3.e, v3.f, v3.g);
    assert Round(v3, K5.d, W5.d) == v4;
    var v5 := Hash(0x26628815, v4.a, v4.b, v4.c, 0xa80f11f0, v4.e, v4.f, v4.g);
    assert Round(v4, K5.e, W5.e) == v5;
    var v6 := Hash(0x72ab4b91, v5.a, v5.b, v5.c, 0xb7755da1, v5.e, v5.f, v5.g);
    assert Round(v5, K5.f, W5.f) == v6;
    var v7 := Hash(0xa14c14b0, v6.a, v6.b, v6.c, 0xd57b94a9, v6.e, v6.f, v6.g);
    assert Round(v6, K5.g, W5.g) == v7;
    assert Round(v7, K5.h, W5.h) == V6;
    hide Round;
  }

  lemma Rounds6()
    ensures Eight(V6, K6, W6) == V7
  {
    var v1 := Hash(0x05757ceb, V6.a, V6.b, V6.c, 0xbd714038, V6.e, V6.f, V6.g);
    assert Round(V6, K6.a, W6.a) == v1;
    var v2 := Hash(0xf11bfaa8, v1.a, v1.b, v1.c, 0x6e5c390c, v1.e, v1.f, v1.g);
    assert Round(v1, K6.b, W6.b) == v2;
    var v3 := Hash(0x7a0508a1, v2.a, v2.b, v2.c, 0x52f1ccf7, v2.e, v2.f, v2.g);
    assert Round(v2, K6.c, W6.c) == v3;
    var v4 := Hash(0x886e7a22, v3.a, v3.b, v3.c, 0x49231c1e, v3.e, v3.f, v3.g);
    assert Round(v3, K6.d, W6.d) == v4;
    var v5 := Hash(0x101fd28f, v4.a, v4.b, v4.c, 0x529e7d00, v4.e, v4.f, v4.g);
    assert Round(v4, K6.e, W6.e) == v5;
    var v6 := Hash(0xf5702fdb, v5.a, v5.b, v5.c, 0x9f4787c3, v5.e, v5.f, v5.g);
    assert Round(v5, K6.f, W6.f) == v6;
    var v7 := Hash(0x3ec45cdb, v6.a, v6.b, v6.c, 0xe50e1b4f, v6.e, v6.f, v6.g);
    assert Round(v6, K6.g, W6.g) == v7;
    assert Round(v7, K6.h, W6.h) == V7;
    hide Round;
  }

  lemma Rounds7()
    ensures Eight(V7, K7, W7) == V8
  {
    var v1 := Hash(0xfcd1887b, V7.a, V7.b, V7.c, 0x9b5e906c, V7.e, V7.f, V7.g);
    assert Round(V7, K7.a, W7.a) == v1;
    var v2 := Hash(0xc062d46f, v1.a, v1.b, v1.c, 0x7e44008e, v1.e, v1.f, v1.g);
    assert Round(v1, K7.b, W7.b) == v2;
    var v3 := Hash(0xffb70472, v2.a, v2.b, v2.c, 0x6d83bfc6, v2.e, v2.f, v2.g);
    assert Round(v2, K7.c, W7.c) == v3;
    var v4 := Hash(0xb6ae8fff, v3.a, v3.b, v3.c, 0xb21bad3d, v3.e, v3.f, v3.g);
    assert Round(v3, K7.d, W7.d) == v4;
    var v5 := Hash(0xb85e2ce9, v4.a, v4.b, v4.c, 0x961f4894, v4.e, v4.f, v4.g);
    assert Round(v4, K7.e, W7.e) == v5;
    var v6 := Hash(0x04d24d6c, v5.a, v5.b, v5.c, 0x948d25b6, v5.e, v5.f, v5.g);
    assert Round(v5, K7.f, W7.f) == v6;
    var v7 := Hash(0xd39a2165, v6.a, v6.b, v6.c, 0xfb121210, v6.e, v6.f, v6.g);
    assert Round(v6, K7.g, W7.g) == v7;
    assert Round(v7, K7.h, W7.h) == V8;
    hide Round;
  }

  // ---------------------------------------------------------------- the message

  const ABC: seq<Byte> := [0x61, 0x62, 0x63]

  /** The message, a one bit, and the number 24 in the last byte. */
  predicate IsBlock(m: seq<Byte>) {
    && |m| == 64 && m[0] == 0x61 && m[1] == 0x62 && m[2] == 0x63 && m[3] == 0x80 && m[63] == 24
    && forall i :: 4 <= i < 63 ==> m[i] == 0
  }

  lemma HighByteOf(i: nat)
    requires i > 0
    ensures ByteOf(24, i) == 0
  {
    assert Power(i) == 256 * Power(i - 1);
    hide Power;
    SmallQuotient(24, Power(i));
  }

  lemma SmallQuotient(x: nat, p: nat)
    requires x < p
    ensures x / p == 0
  {
  }

  lemma LengthBytes()
    ensures BigEndian(24, 8) == [0, 0, 0, 0, 0, 0, 0, 24]
  {
    assert ByteOf(24, 0) == 24;
    HighByteOf(1);
    HighByteOf(2);
    HighByteOf(3);
    HighByteOf(4);
    HighByteOf(5);
    HighByteOf(6);
    HighByteOf(7);
    hide ByteOf;
  }

  lemma Padding()
    ensures IsBlock(Pad(ABC))
  {
    LengthBytes();
    hide BigEndian;
    assert ZeroCount(|ABC|) == 52;
  }

  lemma SomeWords()
    ensures WordOf(0x61, 0x62, 0x63, 0x80) == 0x61626380 && WordOf(0, 0, 0, 0) == 0 && WordOf(0, 0, 0, 24) == 0x18
  {
  }

  lemma WordsOfBlock(m: seq<Byte>, t: nat)
    requires IsBlock(m) && t < 16
    ensures W(m, t) == if t == 0 then 0x61626380 else if t < 15 then 0 else 0x18
  {
    SomeWords();
    hide WordOf;
  }

  lemma FirstRow(m: seq<Byte>)
    requires IsBlock(m)
    ensures IsRow(m, 0, W0)
  {
    WordsOfBlock(m, 0);
    WordsOfBlock(m, 1);
    WordsOfBlock(m, 2);
    WordsOfBlock(m, 3);
    WordsOfBlock(m, 4);
    WordsOfBlock(m, 5);
    WordsOfBlock(m, 6);
    WordsOfBlock(m, 7);
    hide W;
  }

  lemma SecondRow(m: seq<Byte>)
    requires IsBlock(m)
    ensures IsRow(m, 8, W1)
  {
    WordsOfBlock(m, 8);
    WordsOfBlock(m, 9);
    WordsOfBlock(m, 10);
    WordsOfBlock(m, 11);
    WordsOfBlock(m, 12);
    WordsOfBlock(m, 13);
    WordsOfBlock(m, 14);
    WordsOfBlock(m, 15);
    hide W;
  }

  // ---------------------------------------------------------------- all of it

  function RowOf(i: nat): Row {
    if i == 0 then W0
    else if i == 1 then W1
    else if i == 2 then W2
    else if i == 3 then W3
    else if i == 4 then W4
    else if i == 5 then W5
    else if i == 6 then W6
    else W7
  }

  function ConstantsOf(i: nat): Row {
    if i == 0 then K0
    else if i == 1 then K1
    else if i == 2 then K2
    else if i == 3 then K3
    else if i == 4 then K4
    else if i == 5 then K5
    else if i == 6 then K6
    else K7
  }

  function StateOf(i: nat): Hash {
    if i == 0 then V0
    else if i == 1 then V1
    else if i == 2 then V2
    else if i == 3 then V3
    else if i == 4 then V4
    else if i == 5 then V5
    else if i == 6 then V6
    else if i == 7 then V7
    else V8
  }

  lemma Constants0()
    ensures Constants(0, K0)
  {
  }

  lemma Constants1()
    ensures Constants(8, K1)
  {
  }

  lemma Constants2()
    ensures Constants(16, K2)
  {
  }

  lemma Constants3()
    ensures Constants(24, K3)
  {
  }

  lemma Constants4()
    ensures Constants(32, K4)
  {
  }

  lemma Constants5()
    ensures Constants(40, K5)
  {
  }

  lemma Constants6()
    ensures Constants(48, K6)
  {
  }

  lemma Constants7()
    ensures Constants(56, K7)
  {
  }

  lemma ConstantsAt(i: nat)
    requires i < 8
    ensures Constants(8 * i, ConstantsOf(i))
  {
    hide Constants;
    if i == 0 {
      Constants0();
    } else if i == 1 {
      Constants1();
    } else if i == 2 {
      Constants2();
    } else if i == 3 {
      Constants3();
    } else if i == 4 {
      Constants4();
    } else if i == 5 {
      Constants5();
    } else if i == 6 {
      Constants6();
    } else {
      Constants7();
    }
  }

  lemma NextRowAt(i: nat)
    requires i < 6
    ensures NextRow(RowOf(i), RowOf(i + 1)) == RowOf(i + 2)
  {
    hide NextRow;
    if i == 0 {
      Schedule2();
    } else if i == 1 {
      Schedule3();
    } else if i == 2 {
      Schedule4();
    } else if i == 3 {
      Schedule5();
    } else if i == 4 {
      Schedule6();
    } else {
      Schedule7();
    }
  }

  lemma RoundsAt(i: nat)
    requires i < 8
    ensures Eight(StateOf(i), ConstantsOf(i), RowOf(i)) == StateOf(i + 1)
  {
    hide Eight;
    if i == 0 {
      Rounds0();
    } else if i == 1 {
      Rounds1();
    } else if i == 2 {
      Rounds2();
    } else if i == 3 {
      Rounds3();
    } else if i == 4 {
      Rounds4();
    } else if i == 5 {
      Rounds5();
    } else if i == 6 {
      Rounds6();
    } else {
      Rounds7();
    }
  }

  lemma {:induction false} RowsUpTo(m: seq<Byte>, i: nat)
    requires IsBlock(m) && i < 7
    ensures IsRow(m, 8 * i, RowOf(i)) && IsRow(m, 8 * i + 8, RowOf(i + 1))
    decreases i
  {
    hide IsRow, NextRow;
    if i == 0 {
      FirstRow(m);
      SecondRow(m);
    } else {
      hide RowOf;
      RowsUpTo(m, i - 1);
      NextRowAt(i - 1);
      RowFollows(m, 8 * (i - 1), RowOf(i - 1), RowOf(i));
    }
  }

  lemma RowAt(m: seq<Byte>, i: nat)
    requires IsBlock(m) && i < 8
    ensures IsRow(m, 8 * i, RowOf(i))
  {
    hide IsRow, RowOf;
    if i < 7 {
      RowsUpTo(m, i);
    } else {
      RowsUpTo(m, 6);
    }
  }

  lemma NoRounds(m: seq<Byte>)
    requires |m| == 64
    ensures Rounds(INITIAL, m, 0) == StateOf(0)
  {
  }

  lemma {:induction false} RoundsUpTo(m: seq<Byte>, i: nat)
    requires |m| == 64 && IsBlock(m) && i <= 8
    ensures Rounds(INITIAL, m, 8 * i) == StateOf(i)
    decreases i
  {
    hide IsRow, RowOf, Constants, ConstantsOf, Eight, StateOf, Rounds, IsBlock;
    if i == 0 {
      NoRounds(m);
    } else {
      RoundsUpTo(m, i - 1);
      RowAt(m, i - 1);
      ConstantsAt(i - 1);
      EightFollow(INITIAL, m, 8 * (i - 1), ConstantsOf(i - 1), RowOf(i - 1));
      RoundsAt(i - 1);
    }
  }

  lemma LastSum()
    ensures Sum(INITIAL, StateOf(8)) == Hash(0xba7816bf, 0x8f01cfea, 0x414140de, 0x5dae2223, 0xb00361a3, 0x96177a9c,
                                             0xb410ff61, 0xf20015ad)
  {
  }

  lemma OneBlock(m: seq<Byte>)
    requires |m| == 64
    ensures Blocks(m, 1) == Sum(INITIAL, Rounds(INITIAL, m, 64))
  {
    hide Rounds;
    assert Blocks(m, 0) == INITIAL;
    assert m[0..64] == m;
  }

  /** The hash of "abc". */
  lemma HashOfAbc()
    ensures Digest([0x61, 0x62, 0x63]) == Hash(0xba7816bf, 0x8f01cfea, 0x414140de, 0x5dae2223, 0xb00361a3, 0x96177a9c,
                                               0xb410ff61, 0xf20015ad)
  {
    var m := Pad(ABC);
    Padding();
    hide Pad, Rounds, Blocks, Sum, StateOf;
    RoundsUpTo(m, 8);
    OneBlock(m);
    LastSum();
  }

  lemma Texts()
    ensures Hex(0xba7816bf) == "ba7816bf"
    ensures Hex(0x8f01cfea) == "8f01cfea"
    ensures Hex(0x414140de) == "414140de"
    ensures Hex(0x5dae2223) == "5dae2223"
  {
  }

  lemma MoreTexts()
    ensures Hex(0xb00361a3) == "b00361a3"
    ensures Hex(0x96177a9c) == "96177a9c"
    ensures Hex(0xb410ff61) == "b410ff61"
    ensures Hex(0xf20015ad) == "f20015ad"
  {
  }

  /** And its text. */
  lemma TextOfAbc()
    ensures HexHash(Digest([0x61, 0x62, 0x63])) ==
            "ba7816bf" + "8f01cfea" + "414140de" + "5dae2223" + "b00361a3" + "96177a9c" + "b410ff61" + "f20015ad"
  {
    HashOfAbc();
    Texts();
    MoreTexts();
    hide Hex, Digest;
  }

  /** The blocks of a longer message are hashed one after the other, each from where the one before ended. */
  lemma TwoBlocks(m: seq<Byte>)
    requires |m| == 128
    ensures Blocks(m, 2) == Compress(Compress(INITIAL, m[..64]), m[64..])
  {
    hide Compress;
    assert Blocks(m, 0) == INITIAL && m[0..64] == m[..64] && m[64..128] == m[64..];
    assert Blocks(m, 1) == Compress(INITIAL, m[..64]);
  }
}
