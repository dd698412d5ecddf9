/** CRC-32: the table-driven loop against the bit-by-bit definition (section 8 of RFC 1952), and the damage it is
    sure to detect. */
module Crc32 {

  // Words are combined through these only; what is needed of their bits is in the lemmas below.
  function Xor(a: bv32, b: bv32): bv32 { a ^ b }

  function Not(a: bv32): bv32 { !a }

  function Half(a: bv32): bv32 { a >> 1 }

  function Right2(a: bv32): bv32 { a >> 2 }

  function Right4(a: bv32): bv32 { a >> 4 }

  function Right8(a: bv32): bv32 { a >> 8 }

  function LowByte(a: bv32): bv32 { a & 0xFF }

  function HighBytes(a: bv32): bv32 { a & 0xFFFFFF00 }

  predicate Odd(a: bv32) { a & 1 == 1 }

  predicate Clear(a: bv32, mask: bv32) { a & mask == 0 }

  function Wide(b: bv8): bv32 { b as bv32 }

  const POLYNOMIAL: bv32 := 0xEDB88320

  /** One bit through the register. */
  function Shift(c: bv32): bv32 {
    if Odd(c) then Xor(POLYNOMIAL, Half(c)) else Half(c)
  }

  function Shifts(c: bv32, k: nat): bv32
    decreases k
  {
    if k == 0 then c else Shifts(Shift(c), k - 1)
  }

  /** The register after the bytes, bit by bit. */
  function Register(c: bv32, bytes: seq<bv8>): bv32
    decreases |bytes|
  {
    if bytes == [] then c else Register(Shifts(Xor(c, Wide(bytes[0])), 8), bytes[1..])
  }

  /** The CRC of the bytes, continued from the CRC `crc` of what came before. */
  function Crc(bytes: seq<bv8>, crc: bv32): bv32 {
    Not(Register(Not(crc), bytes))
  }

  // ---------------------------------------------------------------- bits

  lemma XorCommutes(a: bv32, b: bv32)
    ensures Xor(a, b) == Xor(b, a)
  {
  }

  lemma XorAssociates(a: bv32, b: bv32, c: bv32)
    ensures Xor(Xor(a, b), c) == Xor(a, Xor(b, c))
  {
  }

  lemma XorTwice(a: bv32, b: bv32)
    ensures Xor(a, Xor(a, b)) == b
  {
  }

  lemma NotTwice(a: bv32)
    ensures Not(Not(a)) == a
  {
  }

  lemma HalfXor(a: bv32, b: bv32)
    ensures Half(Xor(a, b)) == Xor(Half(a), Half(b))
  {
  }

  lemma OddXor(a: bv32, b: bv32)
    ensures Odd(Xor(a, b)) == (Odd(a) != Odd(b))
  {
  }

  lemma HalfHalf(a: bv32)
    ensures Half(Half(a)) == Right2(a)
  {
  }

  lemma RightRight2(a: bv32)
    ensures Right2(Right2(a)) == Right4(a)
  {
  }

  lemma RightRight4(a: bv32)
    ensures Right4(Right4(a)) == Right8(a)
  {
  }

  lemma LowAndHigh(a: bv32)
    ensures Xor(LowByte(a), HighBytes(a)) == a
  {
  }

  lemma LowByteBound(a: bv32)
    ensures LowByte(a) < 256
  {
  }

  lemma ByteBelow(a: bv32, b: bv8)
    ensures Right8(Xor(a, Wide(b))) == Right8(a)
  {
  }

  lemma HighIsClear(a: bv32)
    ensures Clear(HighBytes(a), 0xFF)
  {
  }

  lemma HighRight(a: bv32)
    ensures Right8(HighBytes(a)) == Right8(a)
  {
  }

  lemma ClearIsEven(a: bv32, mask: bv32)
    requires Clear(a, mask) && Odd(mask)
    ensures !Odd(a)
  {
  }

  lemma ClearHalves(a: bv32, mask: bv32)
    requires Clear(a, mask)
    ensures Clear(Half(a), Half(mask))
  {
  }

  /** The top bit of the polynomial tells the two cases apart. */
  lemma ShiftInjective(a: bv32, b: bv32)
    requires Shift(a) == Shift(b)
    ensures a == b
  {
  }

  // ---------------------------------------------------------------- the register is linear

  lemma XorPairs(p: bv32, a: bv32, b: bv32)
    ensures Xor(p, Xor(a, b)) == Xor(Xor(p, a), b) == Xor(a, Xor(p, b))
    ensures Xor(Xor(p, a), Xor(p, b)) == Xor(a, b)
  {
    hide Xor;
    XorAssociates(p, a, b);
    XorCommutes(p, a);
    XorAssociates(a, p, b);
    XorAssociates(a, p, Xor(p, b));
    XorTwice(p, b);
  }

  lemma ShiftLinear(a: bv32, b: bv32)
    ensures Shift(Xor(a, b)) == Xor(Shift(a), Shift(b))
  {
    hide Xor, Half, Odd;
    HalfXor(a, b);
    OddXor(a, b);
    XorPairs(POLYNOMIAL, Half(a), Half(b));
  }

  lemma {:induction false} ShiftsLinear(a: bv32, b: bv32, k: nat)
    ensures Shifts(Xor(a, b), k) == Xor(Shifts(a, k), Shifts(b, k))
    decreases k
  {
    hide Shift, Xor;
    if k > 0 {
      ShiftLinear(a, b);
      ShiftsLinear(Shift(a), Shift(b), k - 1);
    }
  }

  lemma {:induction false} ShiftsAdd(c: bv32, j: nat, k: nat)
    ensures Shifts(c, j + k) == Shifts(Shifts(c, j), k)
    decreases j
  {
    hide Shift;
    if j > 0 { ShiftsAdd(Shift(c), j - 1, k); }
  }

  lemma {:induction false} ShiftsInjective(a: bv32, b: bv32, k: nat)
    requires Shifts(a, k) == Shifts(b, k)
    ensures a == b
    decreases k
  {
    hide Shift;
    if k > 0 {
      ShiftsInjective(Shift(a), Shift(b), k - 1);
      ShiftInjective(a, b);
    }
  }

  function Halves(c: bv32, k: nat): bv32
    decreases k
  {
    if k == 0 then c else Halves(Half(c), k - 1)
  }

  /** The mask selects at least the k low bits. */
  predicate Selects(mask: bv32, k: nat)
    decreases k
  {
    k == 0 || (Odd(mask) && Selects(Half(mask), k - 1))
  }

  lemma {:induction false} ClearShifts(c: bv32, mask: bv32, k: nat)
    requires Clear(c, mask) && Selects(mask, k)
    ensures Shifts(c, k) == Halves(c, k)
    decreases k
  {
    hide Half, Odd, Clear, Xor;
    if k > 0 {
      ClearIsEven(c, mask);
      ClearHalves(c, mask);
      ClearShifts(Half(c), Half(mask), k - 1);
    }
  }

  lemma EightHalves(c: bv32)
    ensures Halves(c, 8) == Right8(c)
  {
    hide Half, Right2, Right4, Right8;
    var c2, c4, c6 := Right2(c), Right4(c), Right2(Right4(c));
    HalfHalf(c);
    HalfHalf(c2);
    HalfHalf(c4);
    HalfHalf(c6);
    RightRight2(c);
    RightRight2(c4);
    RightRight4(c);
    assert Halves(c, 8) == Halves(c2, 6) == Halves(c4, 4) == Halves(c6, 2) == Halves(Right4(c4), 0);
  }

  lemma ByteSelects()
    ensures Selects(0xFF, 8)
  {
    assert Half(0xFF) == 0x7F && Half(0x7F) == 0x3F && Half(0x3F) == 0x1F && Half(0x1F) == 0xF;
    assert Half(0xF) == 7 && Half(7) == 3 && Half(3) == 1;
    assert Odd(0xFF) && Odd(0x7F) && Odd(0x3F) && Odd(0x1F) && Odd(0xF) && Odd(7) && Odd(3) && Odd(1);
    assert Selects(1, 1) && Selects(3, 2) && Selects(7, 3) && Selects(0xF, 4);
  }

  /** Eight zero bits at the end only shift out. */
  lemma EightZeros(c: bv32)
    requires Clear(c, 0xFF)
    ensures Shifts(c, 8) == Right8(c)
  {
    hide Shifts, Halves, Right8, Clear, Selects;
    ByteSelects();
    ClearShifts(c, 0xFF, 8);
    EightHalves(c);
  }

  /** What one table look-up does: eight bits at once. */
  lemma TableStep(c: bv32)
    ensures Shifts(c, 8) == Xor(Shifts(LowByte(c), 8), Right8(c))
  {
    hide Shifts, Right8, LowByte, HighBytes, Clear, Xor;
    LowAndHigh(c);
    HighIsClear(c);
    HighRight(c);
    ShiftsLinear(LowByte(c), HighBytes(c), 8);
    EightZeros(HighBytes(c));
  }

  // ---------------------------------------------------------------- the table-driven loop

  method BuildTable() returns (table: seq<bv32>)
    ensures |table| == 256 && forall i :: 0 <= i < 256 ==> table[i] == Shifts(i as bv32, 8)
  {
    hide Shift, Xor, Half, Odd;
    table := [];
    var i := 0;
    while i < 256
      invariant 0 <= i <= 256 && |table| == i
      invariant forall j :: 0 <= j < i ==> table[j] == Shifts(j as bv32, 8)
    {
      var c := i as bv32;
      var k := 0;
      while k < 8
        invariant 0 <= k <= 8 && Shifts(c, 8 - k) == Shifts(i as bv32, 8)
      {
        c := Shift(c);
        k := k + 1;
      }
      table := table + [c];
      i := i + 1;
    }
  }

  /** The CRC of the bytes, continued from `crc`. */
  method Crc32(p: seq<bv8>, crc: bv32) returns (r: bv32)
    ensures r == Crc(p, crc)
  {
    hide Shifts, Not, Xor, LowByte, Right8, Wide;
    var table := BuildTable();
    r := Not(crc);
    var i := 0;
    while i < |p|
      invariant 0 <= i <= |p| && Register(r, p[i..]) == Register(Not(crc), p)
    {
      var x := Xor(r, Wide(p[i]));
      LowByteBound(x);
      var k := Index(LowByte(x));
      TableStep(x);
      ByteBelow(r, p[i]);
      r := Xor(table[k], Right8(r));
      i := i + 1;
    }
    r := Not(r);
  }

  function Index(low: bv32): (k: nat)
    requires low < 256
    ensures k < 256 && k as bv32 == low
  {
    low as nat
  }

  // ---------------------------------------------------------------- chaining

  lemma {:induction false} RegisterAppend(c: bv32, a: seq<bv8>, b: seq<bv8>)
    ensures Register(c, a + b) == Register(Register(c, a), b)
    decreases |a|
  {
    hide Shifts, Xor, Wide;
    if a == [] {
      assert a + b == b;
    } else {
      assert (a + b)[1..] == a[1..] + b;
      RegisterAppend(Shifts(Xor(c, Wide(a[0])), 8), a[1..], b);
    }
  }

  /** Continuing from the CRC of a prefix gives the CRC of the whole. */
  lemma Chaining(a: seq<bv8>, b: seq<bv8>, crc: bv32)
    ensures Crc(b, Crc(a, crc)) == Crc(a + b, crc)
  {
    hide Register, Not;
    NotTwice(Register(Not(crc), a));
    RegisterAppend(Not(crc), a, b);
  }

  // ---------------------------------------------------------------- detection

  lemma StepInjective(a: bv32, b: bv32, x: bv32)
    requires Shifts(Xor(a, x), 8) == Shifts(Xor(b, x), 8)
    ensures a == b
  {
    hide Shifts, Xor;
    ShiftsInjective(Xor(a, x), Xor(b, x), 8);
    XorCommutes(a, x);
    XorCommutes(b, x);
    XorTwice(x, a);
    XorTwice(x, b);
  }

  lemma {:induction false} RegisterInjective(a: bv32, b: bv32, bytes: seq<bv8>)
    requires Register(a, bytes) == Register(b, bytes)
    ensures a == b
    decreases |bytes|
  {
    hide Shifts, Xor, Wide;
    if bytes != [] {
      var x := Wide(bytes[0]);
      RegisterInjective(Shifts(Xor(a, x), 8), Shifts(Xor(b, x), 8), bytes[1..]);
      StepInjective(a, b, x);
    }
  }

  function Left8(b: bv8): bv32 { (b as bv32) << 8 }

  function Left16(b: bv8): bv32 { (b as bv32) << 16 }

  function Left24(b: bv8): bv32 { (b as bv32) << 24 }

  /** Byte b as byte k of a word. */
  function Place(b: bv8, k: nat): bv32
    requires k < 4
  {
    if k == 0 then Wide(b) else if k == 1 then Left8(b) else if k == 2 then Left16(b) else Left24(b)
  }

  lemma Lefts1(b: bv8)
    ensures Clear(Left8(b), 0xFF) && Right8(Left8(b)) == Wide(b)
  {
  }

  lemma Lefts2(b: bv8)
    ensures Clear(Left16(b), 0xFF) && Right8(Left16(b)) == Left8(b)
  {
  }

  lemma Lefts3(b: bv8)
    ensures Clear(Left24(b), 0xFF) && Right8(Left24(b)) == Left16(b)
  {
  }

  /** A byte placed k bytes up arrives after 8k bits. */
  lemma {:induction false} PlaceArrives(b: bv8, k: nat)
    requires k < 4
    ensures Shifts(Place(b, k), 8 * k) == Wide(b)
    decreases k
  {
    hide Shift, Left8, Left16, Left24, Wide, Right8, Clear;
    if k > 0 {
      Lefts1(b);
      Lefts2(b);
      Lefts3(b);
      EightZeros(Place(b, k));
      ShiftsAdd(Place(b, k), 8, 8 * (k - 1));
      PlaceArrives(b, k - 1);
    }
  }

  function Pack(u: seq<bv8>): bv32
    requires |u| <= 4
  {
    if u == [] then 0 else Xor(Pack(u[..|u| - 1]), Place(u[|u| - 1], |u| - 1))
  }

  /** Up to four bytes go through the register as one word. */
  lemma {:induction false} RegisterOfPack(c: bv32, u: seq<bv8>)
    requires |u| <= 4
    ensures Register(c, u) == Shifts(Xor(c, Pack(u)), 8 * |u|)
    decreases |u|
  {
    hide Shift, Shifts, Xor, Wide, Place, Register;
    if u == [] {
      NoShift(c, u);
      XorZero(c);
    } else {
      var k := |u| - 1;
      var v, b := u[..k], u[k];
      assert u == v + [b];
      RegisterAppend(c, v, [b]);
      RegisterOfPack(c, v);
      RegisterOne(Register(c, v), b);
      PlaceArrives(b, k);
      ShiftsLinear(Xor(c, Pack(v)), Place(b, k), 8 * k);
      ShiftsAdd(Xor(Xor(c, Pack(v)), Place(b, k)), 8 * k, 8);
      XorAssociates(c, Pack(v), Place(b, k));
    }
  }

  lemma NoShift(c: bv32, u: seq<bv8>)
    requires u == []
    ensures Register(c, u) == c && Shifts(Xor(c, 0), 0) == Xor(c, 0)
  {
  }

  lemma RegisterOne(c: bv32, b: bv8)
    ensures Register(c, [b]) == Shifts(Xor(c, Wide(b)), 8)
  {
    hide Shifts, Xor, Wide;
  }

  lemma XorZero(c: bv32)
    ensures Xor(c, 0) == c
  {
  }

  lemma RightXor(a: bv32, b: bv32)
    ensures Right8(Xor(a, b)) == Xor(Right8(a), Right8(b))
  {
  }

  lemma LowXor(a: bv32, b: bv32)
    ensures LowByte(Xor(a, b)) == Xor(LowByte(a), LowByte(b))
  {
  }

  lemma WideParts(b: bv8)
    ensures LowByte(Wide(b)) == Wide(b) && Right8(Wide(b)) == 0
  {
  }

  lemma WideInjective(a: bv8, b: bv8)
    requires Wide(a) == Wide(b)
    ensures a == b
  {
  }

  lemma ClearIsLowZero(a: bv32)
    requires Clear(a, 0xFF)
    ensures LowByte(a) == 0
  {
  }

  lemma PlaceParts(b: bv8, k: nat)
    requires k < 4
    ensures LowByte(Place(b, k)) == if k == 0 then Wide(b) else 0
    ensures Right8(Place(b, k)) == if k == 0 then 0 else Place(b, k - 1)
  {
    hide LowByte, Left8, Left16, Left24, Wide, Right8, Clear;
    WideParts(b);
    Lefts1(b);
    Lefts2(b);
    Lefts3(b);
    if k > 0 { ClearIsLowZero(Place(b, k)); }
  }

  /** The first byte is the low one, the others follow above it. */
  lemma {:induction false} PackFront(u: seq<bv8>)
    requires 0 < |u| <= 4
    ensures LowByte(Pack(u)) == Wide(u[0]) && Right8(Pack(u)) == Pack(u[1..])
    decreases |u|
  {
    hide LowByte, Right8, Xor, Wide, Place;
    var k := |u| - 1;
    var v := u[..k];
    LowXor(Pack(v), Place(u[k], k));
    RightXor(Pack(v), Place(u[k], k));
    PlaceParts(u[k], k);
    XorZero(LowByte(Pack(v)));
    if k == 0 {
      ZeroParts();
      XorCommutes(0, Wide(u[0]));
      XorZero(Wide(u[0]));
      XorZero(0);
    } else {
      PackFront(v);
      assert u[1..][..k - 1] == v[1..];
    }
  }

  lemma ZeroParts()
    ensures LowByte(0) == 0 && Right8(0) == 0
  {
  }

  lemma {:induction false} PackInjective(u: seq<bv8>, v: seq<bv8>)
    requires |u| == |v| <= 4 && Pack(u) == Pack(v)
    ensures u == v
    decreases |u|
  {
    hide LowByte, Right8, Xor, Wide, Pack;
    if u != [] {
      PackFront(u);
      PackFront(v);
      WideInjective(u[0], v[0]);
      PackInjective(u[1..], v[1..]);
      assert u == [u[0]] + u[1..] && v == [v[0]] + v[1..];
    }
  }

  /** Damage inside one window of four bytes never goes unseen: two strings of equal length that differ, but only
      inside it, have different CRCs. */
  lemma WindowDetected(x: seq<bv8>, y: seq<bv8>, from: nat, to: nat, crc: bv32)
    requires |x| == |y| && from <= to <= from + 4 && to <= |x|
    requires x != y && x[..from] == y[..from] && x[to..] == y[to..]
    ensures Crc(x, crc) != Crc(y, crc)
  {
    hide Register, Not, Shifts, Xor, Pack;
    if Crc(x, crc) == Crc(y, crc) {
      NotTwice(Register(Not(crc), x));
      NotTwice(Register(Not(crc), y));
      var c := Register(Not(crc), x[..from]);
      var u, v := x[from..to], y[from..to];
      WindowState(x, from, to, Not(crc));
      WindowState(y, from, to, Not(crc));
      RegisterInjective(Register(c, u), Register(c, v), x[to..]);
      RegisterOfPack(c, u);
      RegisterOfPack(c, v);
      ShiftsInjective(Xor(c, Pack(u)), Xor(c, Pack(v)), 8 * |u|);
      XorTwice(c, Pack(u));
      XorTwice(c, Pack(v));
      PackInjective(u, v);
      Pieces(x, from, to);
      Pieces(y, from, to);
    }
  }

  lemma Pieces(x: seq<bv8>, from: nat, to: nat)
    requires from <= to <= |x|
    ensures x == x[..from] + x[from..to] + x[to..]
  {
  }

  lemma WindowState(x: seq<bv8>, from: nat, to: nat, c: bv32)
    requires from <= to <= |x|
    ensures Register(c, x) == Register(Register(Register(c, x[..from]), x[from..to]), x[to..])
  {
    hide Register;
    Pieces(x, from, to);
    RegisterAppend(c, x[..from] + x[from..to], x[to..]);
    RegisterAppend(c, x[..from], x[from..to]);
  }

  // ---------------------------------------------------------------- which CRC it is

  /** The exponents of the generator below 32, as RFC 1952 and IEEE 802.3 give them. */
  const GENERATOR: set<nat> := {26, 23, 22, 16, 12, 11, 10, 8, 7, 5, 4, 2, 1, 0}

  /** The register runs with its low bit first: bit i of the polynomial stands for the power 31 - i. */
  lemma PolynomialIsReflected(i: nat)
    requires i < 32
    ensures Odd(POLYNOMIAL >> i) <==> 31 - i in GENERATOR
  {
    if i < 8 {
      assert i == 0 || i == 1 || i == 2 || i == 3 || i == 4 || i == 5 || i == 6 || i == 7;
    } else if i < 16 {
      assert i == 8 || i == 9 || i == 10 || i == 11 || i == 12 || i == 13 || i == 14 || i == 15;
    } else if i < 24 {
      assert i == 16 || i == 17 || i == 18 || i == 19 || i == 20 || i == 21 || i == 22 || i == 23;
    } else {
      assert i == 24 || i == 25 || i == 26 || i == 27 || i == 28 || i == 29 || i == 30 || i == 31;
    }
  }

  /** The register one byte further, its eight bits written out. */
  function NextByte(c: bv32, b: bv8): bv32 {
    Shift(Shift(Shift(Shift(Shift(Shift(Shift(Shift(Xor(c, Wide(b))))))))))
  }

  lemma ByteJoins(c: bv32, bytes: seq<bv8>, b: bv8)
    ensures Register(c, bytes + [b]) == NextByte(Register(c, bytes), b)
  {
    hide Shift, Xor, Wide;
    RegisterAppend(c, bytes, [b]);
    var x := Xor(Register(c, bytes), Wide(b));
    assert [b][1..] == [];
    assert Shifts(x, 8) == Shifts(Shift(Shift(x)), 6) == Shifts(Shift(Shift(Shift(Shift(x)))), 4);
  }

  lemma Digits1()
    ensures NextByte(0xFFFFFFFF, 0x31) == 0x7C231048
    ensures NextByte(0x7C231048, 0x32) == 0xB0ACBB32
    ensures NextByte(0xB0ACBB32, 0x33) == 0x77B79C2D
  {
  }

  lemma Digits4()
    ensures NextByte(0x77B79C2D, 0x34) == 0x641C1F5C
    ensures NextByte(0x641C1F5C, 0x35) == 0x340AC5E3
    ensures NextByte(0x340AC5E3, 0x36) == 0xF68D2C9E
  {
  }

  lemma Digits7()
    ensures NextByte(0xF68D2C9E, 0x37) == 0xAFFC9660
    ensures NextByte(0xAFFC9660, 0x38) == 0x651F2550
    ensures NextByte(0x651F2550, 0x39) == 0x340BC6D9
  {
  }

  const DIGITS: seq<bv8> := [0x31, 0x32, 0x33, 0x34, 0x35, 0x36, 0x37, 0x38, 0x39]

  lemma FirstDigits(k: nat)
    requires k < 9
    ensures DIGITS[..k + 1] == DIGITS[..k] + [DIGITS[k]] && DIGITS[..0] == [] && DIGITS[..9] == DIGITS
  {
  }

  /** The check value of CRC-32, the one of the digits 1 to 9. */
  lemma CheckValue()
    ensures Crc([0x31, 0x32, 0x33, 0x34, 0x35, 0x36, 0x37, 0x38, 0x39], 0) == 0xCBF43926
  {
    Digits1();
    Digits4();
    Digits7();
    hide NextByte, Register;
    var c: bv32 := 0xFFFFFFFF;
    NoBytes(c);
    for k := 0 to 9
      invariant Register(c, DIGITS[..k]) == REGISTERS[k]
    {
      FirstDigits(k);
      ByteJoins(c, DIGITS[..k], DIGITS[k]);
    }
    FirstDigits(0);
  }

  lemma NoBytes(c: bv32)
    ensures Register(c, []) == c
  {
  }

  /** The register before, between and after the digits. */
  const REGISTERS: seq<bv32> := [0xFFFFFFFF, 0x7C231048, 0xB0ACBB32, 0x77B79C2D, 0x641C1F5C, 0x340AC5E3,
    0xF68D2C9E, 0xAFFC9660, 0x651F2550, 0x340BC6D9]
}
