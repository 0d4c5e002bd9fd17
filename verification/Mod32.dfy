/**
  Arithmetic modulo 2^32 as hash.c uses it, and how to undo each of its building blocks: adding,
  multiplying by an odd prime, rotating, and xoring with a shifted copy.
*/
module Mod32 {

  const PRIME1: bv32 := 2654435761
  const PRIME2: bv32 := 2246822519
  const PRIME3: bv32 := 3266489917
  const PRIME4: bv32 := 668265263
  const PRIME5: bv32 := 374761393

  function Add(x: bv32, y: bv32): bv32 {
    x + y
  }

  function Sub(x: bv32, y: bv32): bv32 {
    x - y
  }

  lemma UndoAdd(a: bv32, x: bv32)
    ensures Sub(Add(a, x), a) == x && Sub(Add(x, a), a) == x
  {
    assert Sub(a + x, a) == x && Sub(x + a, a) == x;
    assert Add(a, x) == a + x && Add(x, a) == x + a;
    hide *;
  }

  function Mul(x: bv32, y: bv32): bv32 {
    x * y
  }

  lemma UndoMul1(x: bv32)
    ensures Mul(Mul(x, PRIME1), 244002641) == x
  {
    assert Mul(x * 2654435761, 244002641) == x;
    assert Mul(x, PRIME1) == x * 2654435761;
    hide *;
  }

  lemma UndoMul2(x: bv32)
    ensures Mul(Mul(x, PRIME2), 3066638151) == x
  {
    assert Mul(x * 2246822519, 3066638151) == x;
    assert Mul(x, PRIME2) == x * 2246822519;
    hide *;
  }

  lemma UndoMul3(x: bv32)
    ensures Mul(Mul(x, PRIME3), 2828982549) == x
  {
    assert Mul(x * 3266489917, 2828982549) == x;
    assert Mul(x, PRIME3) == x * 3266489917;
    hide *;
  }

  lemma UndoMul4(x: bv32)
    ensures Mul(Mul(x, PRIME4), 2701016015) == x
  {
    assert Mul(x * 668265263, 2701016015) == x;
    assert Mul(x, PRIME4) == x * 668265263;
    hide *;
  }

  lemma UndoMul5(x: bv32)
    ensures Mul(Mul(x, PRIME5), 2923004241) == x
  {
    assert Mul(x * 374761393, 2923004241) == x;
    assert Mul(x, PRIME5) == x * 374761393;
    hide *;
  }

  function Rotl1(x: bv32): bv32 {
    (x << 1) | (x >> 31)
  }

  function Rotr1(x: bv32): bv32 {
    (x >> 1) | (x << 31)
  }

  lemma UndoRotl1(x: bv32)
    ensures Rotr1(Rotl1(x)) == x
  {
    assert Rotr1((x << 1) | (x >> 31)) == x;
    assert Rotl1(x) == ((x << 1) | (x >> 31));
    hide *;
  }

  function Rotl7(x: bv32): bv32 {
    (x << 7) | (x >> 25)
  }

  function Rotr7(x: bv32): bv32 {
    (x >> 7) | (x << 25)
  }

  lemma UndoRotl7(x: bv32)
    ensures Rotr7(Rotl7(x)) == x
  {
    assert Rotr7((x << 7) | (x >> 25)) == x;
    assert Rotl7(x) == ((x << 7) | (x >> 25));
    hide *;
  }

  function Rotl11(x: bv32): bv32 {
    (x << 11) | (x >> 21)
  }

  function Rotr11(x: bv32): bv32 {
    (x >> 11) | (x << 21)
  }

  lemma UndoRotl11(x: bv32)
    ensures Rotr11(Rotl11(x)) == x
  {
    assert Rotr11((x << 11) | (x >> 21)) == x;
    assert Rotl11(x) == ((x << 11) | (x >> 21));
    hide *;
  }

  function Rotl12(x: bv32): bv32 {
    (x << 12) | (x >> 20)
  }

  function Rotr12(x: bv32): bv32 {
    (x >> 12) | (x << 20)
  }

  lemma UndoRotl12(x: bv32)
    ensures Rotr12(Rotl12(x)) == x
  {
    assert Rotr12((x << 12) | (x >> 20)) == x;
    assert Rotl12(x) == ((x << 12) | (x >> 20));
    hide *;
  }

  function Rotl13(x: bv32): bv32 {
    (x << 13) | (x >> 19)
  }

  function Rotr13(x: bv32): bv32 {
    (x >> 13) | (x << 19)
  }

  lemma UndoRotl13(x: bv32)
    ensures Rotr13(Rotl13(x)) == x
  {
    assert Rotr13((x << 13) | (x >> 19)) == x;
    assert Rotl13(x) == ((x << 13) | (x >> 19));
    hide *;
  }

  function Rotl17(x: bv32): bv32 {
    (x << 17) | (x >> 15)
  }

  function Rotr17(x: bv32): bv32 {
    (x >> 17) | (x << 15)
  }

  lemma UndoRotl17(x: bv32)
    ensures Rotr17(Rotl17(x)) == x
  {
    assert Rotr17((x << 17) | (x >> 15)) == x;
    assert Rotl17(x) == ((x << 17) | (x >> 15));
    hide *;
  }

  function Rotl18(x: bv32): bv32 {
    (x << 18) | (x >> 14)
  }

  function Rotr18(x: bv32): bv32 {
    (x >> 18) | (x << 14)
  }

  lemma UndoRotl18(x: bv32)
    ensures Rotr18(Rotl18(x)) == x
  {
    assert Rotr18((x << 18) | (x >> 14)) == x;
    assert Rotl18(x) == ((x << 18) | (x >> 14));
    hide *;
  }

  function Mix15(x: bv32): bv32 {
    x ^ (x >> 15)
  }

  function Unmix15(y: bv32): bv32 {
    y ^ (y >> 15) ^ (y >> 30)
  }

  lemma UndoMix15(x: bv32)
    ensures Unmix15(Mix15(x)) == x
  {
    assert Unmix15(x ^ (x >> 15)) == x;
    assert Mix15(x) == x ^ (x >> 15);
    hide *;
  }

  function Mix13(x: bv32): bv32 {
    x ^ (x >> 13)
  }

  function Unmix13(y: bv32): bv32 {
    y ^ (y >> 13) ^ (y >> 26)
  }

  lemma UndoMix13(x: bv32)
    ensures Unmix13(Mix13(x)) == x
  {
    assert Unmix13(x ^ (x >> 13)) == x;
    assert Mix13(x) == x ^ (x >> 13);
    hide *;
  }

  function Mix16(x: bv32): bv32 {
    x ^ (x >> 16)
  }

  function Unmix16(y: bv32): bv32 {
    y ^ (y >> 16)
  }

  lemma UndoMix16(x: bv32)
    ensures Unmix16(Mix16(x)) == x
  {
    assert Unmix16(x ^ (x >> 16)) == x;
    assert Mix16(x) == x ^ (x >> 16);
    hide *;
  }
}
