/**
  32-bit words and the bytes they are made of, least significant first.
*/
module Words {
  import opened Machine

  function Low8(x: bv32): byte {
    (x & 0xff) as bv8
  }

  function Down8(x: bv32): bv32 {
    x >> 8
  }

  /** x without its k low bytes. */
  function Down(x: bv32, k: nat): bv32 {
    if k == 0 then x else Down8(Down(x, k - 1))
  }

  function Word4(a: byte, b: byte, c: byte, d: byte): bv32 {
    (a as bv32) | ((b as bv32) << 8) | ((c as bv32) << 16) | ((d as bv32) << 24)
  }

  /** The little-endian word in four bytes. */
  function Word(w: seq<byte>): bv32
    requires |w| == 4
  {
    Word4(w[0], w[1], w[2], w[3])
  }

  lemma WordBytes(w: seq<byte>)
    requires |w| == 4
    ensures w[0] == Low8(Word(w)) && w[1] == Low8(Down(Word(w), 1))
    ensures w[2] == Low8(Down(Word(w), 2)) && w[3] == Low8(Down(Word(w), 3))
  {
    hide Low8, Down, Word4;
    var a, b, c, d := w[0], w[1], w[2], w[3];
    Byte0(a, b, c, d);
    Byte1(a, b, c, d);
    Byte2(a, b, c, d);
    Byte3(a, b, c, d);
  }

  lemma DownIs(x: bv32)
    ensures Down(x, 1) == x >> 8
    ensures Down(x, 2) == x >> 16
    ensures Down(x, 3) == x >> 24
  {
    assert Down(x, 1) == x >> 8;
    assert Down(x, 2) == x >> 16;
  }

  lemma Byte0(a: byte, b: byte, c: byte, d: byte)
    ensures Low8(Word4(a, b, c, d)) == a
  {
  }

  lemma Byte1(a: byte, b: byte, c: byte, d: byte)
    ensures Low8(Down(Word4(a, b, c, d), 1)) == b
  {
    DownIs(Word4(a, b, c, d));
    hide Down;
  }

  lemma Byte2(a: byte, b: byte, c: byte, d: byte)
    ensures Low8(Down(Word4(a, b, c, d), 2)) == c
  {
    DownIs(Word4(a, b, c, d));
    hide Down;
  }

  lemma Byte3(a: byte, b: byte, c: byte, d: byte)
    ensures Low8(Down(Word4(a, b, c, d), 3)) == d
  {
    DownIs(Word4(a, b, c, d));
    hide Down;
  }

  /** Different bytes make different words. */
  lemma WordIsInjective(v: seq<byte>, w: seq<byte>)
    requires |v| == |w| == 4 && Word(v) == Word(w)
    ensures v == w
  {
    hide Word;
    WordBytes(v);
    WordBytes(w);
  }
}
