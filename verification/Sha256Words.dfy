/** The functions of SHA-256 on 32-bit words (sections 2.2.2 and 4.1.2 of FIPS 180-4). */
module Sha256Words {

  function Xor(x: bv32, y: bv32): bv32 { x ^ y }

  function And(x: bv32, y: bv32): bv32 { x & y }

  function Not(x: bv32): bv32 { !x }

  function Rotr(x: bv32, n: bv32): bv32
    requires 0 < n < 32
  {
    (x >> n) | (x << (32 - n))
  }

  function Shr(x: bv32, n: bv32): bv32
    requires n < 32
  {
    x >> n
  }

  function Ch(x: bv32, y: bv32, z: bv32): bv32 { Xor(And(x, y), And(Not(x), z)) }

  function Maj(x: bv32, y: bv32, z: bv32): bv32 { Xor(Xor(And(x, y), And(x, z)), And(y, z)) }

  function BigSigma0(x: bv32): bv32 { Xor(Xor(Rotr(x, 2), Rotr(x, 13)), Rotr(x, 22)) }

  function BigSigma1(x: bv32): bv32 { Xor(Xor(Rotr(x, 6), Rotr(x, 11)), Rotr(x, 25)) }

  function SmallSigma0(x: bv32): bv32 { Xor(Xor(Rotr(x, 7), Rotr(x, 18)), Shr(x, 3)) }

  function SmallSigma1(x: bv32): bv32 { Xor(Xor(Rotr(x, 17), Rotr(x, 19)), Shr(x, 10)) }

  function Add(x: bv32, y: bv32): bv32 { x + y }

  function AddFour(a: bv32, b: bv32, c: bv32, d: bv32): bv32 { a + b + c + d }

  lemma AddFourBackwards(a: bv32, b: bv32, c: bv32, d: bv32)
    ensures AddFour(a, b, c, d) == AddFour(d, c, b, a)
  {
  }
}
