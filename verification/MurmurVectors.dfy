/** Two published values of MurmurHash3_x86_32, which between them use every constant of the algorithm. */
module MurmurVectors {
  import opened Bits
  import opened Bytes
  import opened Murmur

  // ---------- exclusive or, hexadecimal digit by digit ----------

  lemma XorBit(a: nat, b: nat, x: nat, y: nat)
    requires x < 2 && y < 2
    ensures Xor(2 * a + x, 2 * b + y) == 2 * Xor(a, b) + if x != y then 1 else 0
  {
    assert (2 * a + x) / 2 == a && (2 * b + y) / 2 == b && (2 * a + x) % 2 == x && (2 * b + y) % 2 == y;
  }

  function Differ(x: nat, y: nat): nat {
    if x != y then 1 else 0
  }

  /** Four more bits. */
  lemma More(a: nat, b: nat, c: nat, x3: nat, x2: nat, x1: nat, x0: nat, y3: nat, y2: nat, y1: nat, y0: nat)
    requires x3 < 2 && x2 < 2 && x1 < 2 && x0 < 2 && y3 < 2 && y2 < 2 && y1 < 2 && y0 < 2 && Xor(a, b) == c
    ensures Xor(16 * a + 8 * x3 + 4 * x2 + 2 * x1 + x0, 16 * b + 8 * y3 + 4 * y2 + 2 * y1 + y0)
         == 16 * c + 8 * Differ(x3, y3) + 4 * Differ(x2, y2) + 2 * Differ(x1, y1) + Differ(x0, y0)
  {
    hide Xor;
    XorBit(a, b, x3, y3);
    XorBit(2 * a + x3, 2 * b + y3, x2, y2);
    XorBit(4 * a + 2 * x3 + x2, 4 * b + 2 * y3 + y2, x1, y1);
    XorBit(8 * a + 4 * x3 + 2 * x2 + x1, 8 * b + 4 * y3 + 2 * y2 + y1, x0, y0);
  }

  // ---------- the values ----------

  lemma XorNothing(x: nat)
    ensures Xor(x, 0) == x && Xor(0, x) == x
  {
  }

  /** The finaliser from the results of its three exclusive ors. */
  lemma AvalancheBy(h: nat, a: nat, m: nat, b: nat, n: nat, r: nat)
    requires a == Xor(h, h / 0x1_0000) && m == (a * 0x85ebca6b) % 0x1_0000_0000
    requires b == Xor(m, m / 0x2000) && n == (b * 0xc2b2ae35) % 0x1_0000_0000
    requires r == Xor(n, n / 0x1_0000)
    ensures Avalanche(h) == r
  {
    hide Xor;
    Pow2Values();
  }

  lemma Rotations(x: nat)
    ensures Rotl(x, 15) == (x * 0x8000) % 0x1_0000_0000 + x / 0x2_0000
    ensures Rotl(x, 13) == (x * 0x2000) % 0x1_0000_0000 + x / 0x8_0000
  {
    Pow2Values();
  }

  lemma ScrambleBy(k: nat, a: nat, b: nat, c: nat)
    requires a == (k * 0xcc9e2d51) % 0x1_0000_0000 && b == (a * 0x8000) % 0x1_0000_0000 + a / 0x2_0000
    requires c == (b * 0x1b873593) % 0x1_0000_0000
    ensures Scramble(k) == c
  {
    Rotations(a);
    hide Rotl;
  }

  lemma BlockBy(h: nat, k: nat, s: nat, x: nat, y: nat, z: nat)
    requires s == Scramble(k) && x == Xor(h, s) && y == (x * 0x2000) % 0x1_0000_0000 + x / 0x8_0000
    requires z == (y * 5 + 0xe6546b64) % 0x1_0000_0000
    ensures Block(h, k) == z
  {
    hide Xor, Scramble;
    Rotations(x);
    hide Rotl;
    assert Mul(y, 5) == (y * 5) % 0x1_0000_0000;
  }

  /** The hash from the state after the blocks, the tail's contribution and the length. */
  lemma HashBy(b: ByteString, seed: nat, h: nat, t: nat, x: nat)
    requires |b| < 0x1_0000_0000 && h == Body(b, seed, |b| / 4)
    requires t == if |b| % 4 == 0 then h else Xor(h, Scramble(LittleEndian(b[4 * (|b| / 4)..])))
    requires x == Xor(t, |b|)
    ensures MurmurHash3(b, seed) == Avalanche(x)
  {
    hide Xor, Avalanche, Body, Scramble, LittleEndian;
    assert b[4 * (|b| / 4)..] == [] <==> |b| % 4 == 0;
  }

  lemma XorsOfOne1High()
    ensures Xor(0x85eb, 0x4) == 0x85ef
  {
    assert Xor(0, 0) == 0;
    hide Xor;
    More(0x0, 0x0, 0x0, 1, 0, 0, 0, 0, 0, 0, 0);
    More(0x8, 0x0, 0x8, 0, 1, 0, 1, 0, 0, 0, 0);
    More(0x85, 0x0, 0x85, 1, 1, 1, 0, 0, 0, 0, 0);
    More(0x85e, 0x0, 0x85e, 1, 0, 1, 1, 0, 1, 0, 0);
  }

  lemma XorsOfOne1()
    ensures Xor(0x85ebca6b, 0x42f5e) == 0x85efe535
  {
    hide Xor;
    XorsOfOne1High();
    More(0x85eb, 0x4, 0x85ef, 1, 1, 0, 0, 0, 0, 1, 0);
    More(0x85ebc, 0x42, 0x85efe, 1, 0, 1, 0, 1, 1, 1, 1);
    More(0x85ebca, 0x42f, 0x85efe5, 0, 1, 1, 0, 0, 1, 0, 1);
    More(0x85ebca6, 0x42f5, 0x85efe53, 1, 0, 1, 1, 1, 1, 1, 0);
  }

  lemma XorsOfOne2High()
    ensures Xor(0x514e, 0x0) == 0x514e
  {
    assert Xor(0, 0) == 0;
    hide Xor;
    More(0x0, 0x0, 0x0, 0, 1, 0, 1, 0, 0, 0, 0);
    More(0x5, 0x0, 0x5, 0, 0, 0, 1, 0, 0, 0, 0);
    More(0x51, 0x0, 0x51, 0, 1, 0, 0, 0, 0, 0, 0);
    More(0x514, 0x0, 0x514, 1, 1, 1, 0, 0, 0, 0, 0);
  }

  lemma XorsOfOne2()
    ensures Xor(0x514e79f9, 0x514e) == 0x514e28b7
  {
    hide Xor;
    XorsOfOne2High();
    More(0x514e, 0x0, 0x514e, 0, 1, 1, 1, 0, 1, 0, 1);
    More(0x514e7, 0x5, 0x514e2, 1, 0, 0, 1, 0, 0, 0, 1);
    More(0x514e79, 0x51, 0x514e28, 1, 1, 1, 1, 0, 1, 0, 0);
    More(0x514e79f, 0x514, 0x514e28b, 1, 0, 0, 1, 1, 1, 1, 0);
  }

  /** No bytes with seed 1. */
  lemma NoBytesSeedOne(b: ByteString)
    requires b == []
    ensures MurmurHash3(b, 1) == 0x514e28b7
  {
    XorNothing(1);
    BodyZero(b, 1);
    hide Xor, Avalanche, Body, Scramble, LittleEndian, MurmurHash3;
    HashBy(b, 1, 1, 1, 1);
    AvalancheOfOne();
  }

  lemma AvalancheOfOne()
    ensures Avalanche(1) == 0x514e28b7
  {
    hide Xor, Avalanche;
    XorsOfOne1();
    XorsOfOne2();
    XorNothing(1);
    AvalancheBy(0x1, 0x1, 0x85ebca6b, 0x85efe535, 0x514e79f9, 0x514e28b7);
  }

  lemma XorsOfHello1High()
    ensures Xor(0xef13, 0x73bc) == 0x9caf
  {
    assert Xor(0, 0) == 0;
    hide Xor;
    More(0x0, 0x0, 0x0, 1, 1, 1, 0, 0, 1, 1, 1);
    More(0xe, 0x7, 0x9, 1, 1, 1, 1, 0, 0, 1, 1);
    More(0xef, 0x73, 0x9c, 0, 0, 0, 1, 1, 0, 1, 1);
    More(0xef1, 0x73b, 0x9ca, 0, 0, 1, 1, 1, 1, 0, 0);
  }

  lemma XorsOfHello1()
    ensures Xor(0xef13efcd, 0x73bcd07e) == 0x9caf3fb3
  {
    hide Xor;
    XorsOfHello1High();
    More(0xef13, 0x73bc, 0x9caf, 1, 1, 1, 0, 1, 1, 0, 1);
    More(0xef13e, 0x73bcd, 0x9caf3, 1, 1, 1, 1, 0, 0, 0, 0);
    More(0xef13ef, 0x73bcd0, 0x9caf3f, 1, 1, 0, 0, 0, 1, 1, 1);
    More(0xef13efc, 0x73bcd07, 0x9caf3fb, 1, 1, 0, 1, 1, 1, 1, 0);
  }

  lemma XorsOfHello2High()
    ensures Xor(0x9caf, 0x0) == 0x9caf
  {
    assert Xor(0, 0) == 0;
    hide Xor;
    More(0x0, 0x0, 0x0, 1, 0, 0, 1, 0, 0, 0, 0);
    More(0x9, 0x0, 0x9, 1, 1, 0, 0, 0, 0, 0, 0);
    More(0x9c, 0x0, 0x9c, 1, 0, 1, 0, 0, 0, 0, 0);
    More(0x9ca, 0x0, 0x9ca, 1, 1, 1, 1, 0, 0, 0, 0);
  }

  lemma XorsOfHello2()
    ensures Xor(0x9caf3fb3, 0x5) == 0x9caf3fb6
  {
    hide Xor;
    XorsOfHello2High();
    More(0x9caf, 0x0, 0x9caf, 0, 0, 1, 1, 0, 0, 0, 0);
    More(0x9caf3, 0x0, 0x9caf3, 1, 1, 1, 1, 0, 0, 0, 0);
    More(0x9caf3f, 0x0, 0x9caf3f, 1, 0, 1, 1, 0, 0, 0, 0);
    More(0x9caf3fb, 0x0, 0x9caf3fb, 0, 0, 1, 1, 0, 1, 0, 1);
  }

  lemma XorsOfHelloEnd1High()
    ensures Xor(0x9caf, 0x0) == 0x9caf
  {
    assert Xor(0, 0) == 0;
    hide Xor;
    More(0x0, 0x0, 0x0, 1, 0, 0, 1, 0, 0, 0, 0);
    More(0x9, 0x0, 0x9, 1, 1, 0, 0, 0, 0, 0, 0);
    More(0x9c, 0x0, 0x9c, 1, 0, 1, 0, 0, 0, 0, 0);
    More(0x9ca, 0x0, 0x9ca, 1, 1, 1, 1, 0, 0, 0, 0);
  }

  lemma XorsOfHelloEnd1()
    ensures Xor(0x9caf3fb6, 0x9caf) == 0x9cafa319
  {
    hide Xor;
    XorsOfHelloEnd1High();
    More(0x9caf, 0x0, 0x9caf, 0, 0, 1, 1, 1, 0, 0, 1);
    More(0x9caf3, 0x9, 0x9cafa, 1, 1, 1, 1, 1, 1, 0, 0);
    More(0x9caf3f, 0x9c, 0x9cafa3, 1, 0, 1, 1, 1, 0, 1, 0);
    More(0x9caf3fb, 0x9ca, 0x9cafa31, 0, 1, 1, 0, 1, 1, 1, 1);
  }

  lemma XorsOfHelloEnd2High()
    ensures Xor(0xc90d, 0x6) == 0xc90b
  {
    assert Xor(0, 0) == 0;
    hide Xor;
    More(0x0, 0x0, 0x0, 1, 1, 0, 0, 0, 0, 0, 0);
    More(0xc, 0x0, 0xc, 1, 0, 0, 1, 0, 0, 0, 0);
    More(0xc9, 0x0, 0xc9, 0, 0, 0, 0, 0, 0, 0, 0);
    More(0xc90, 0x0, 0xc90, 1, 1, 0, 1, 0, 1, 1, 0);
  }

  lemma XorsOfHelloEnd2()
    ensures Xor(0xc90de573, 0x6486f) == 0xc90bad1c
  {
    hide Xor;
    XorsOfHelloEnd2High();
    More(0xc90d, 0x6, 0xc90b, 1, 1, 1, 0, 0, 1, 0, 0);
    More(0xc90de, 0x64, 0xc90ba, 0, 1, 0, 1, 1, 0, 0, 0);
    More(0xc90de5, 0x648, 0xc90bad, 0, 1, 1, 1, 0, 1, 1, 0);
    More(0xc90de57, 0x6486, 0xc90bad1, 0, 0, 1, 1, 1, 1, 1, 1);
  }

  lemma XorsOfHelloEnd3High()
    ensures Xor(0x248b, 0x0) == 0x248b
  {
    assert Xor(0, 0) == 0;
    hide Xor;
    More(0x0, 0x0, 0x0, 0, 0, 1, 0, 0, 0, 0, 0);
    More(0x2, 0x0, 0x2, 0, 1, 0, 0, 0, 0, 0, 0);
    More(0x24, 0x0, 0x24, 1, 0, 0, 0, 0, 0, 0, 0);
    More(0x248, 0x0, 0x248, 1, 0, 1, 1, 0, 0, 0, 0);
  }

  lemma XorsOfHelloEnd3()
    ensures Xor(0x248bdecc, 0x248b) == 0x248bfa47
  {
    hide Xor;
    XorsOfHelloEnd3High();
    More(0x248b, 0x0, 0x248b, 1, 1, 0, 1, 0, 0, 1, 0);
    More(0x248bd, 0x2, 0x248bf, 1, 1, 1, 0, 0, 1, 0, 0);
    More(0x248bde, 0x24, 0x248bfa, 1, 1, 0, 0, 1, 0, 0, 0);
    More(0x248bdec, 0x248, 0x248bfa4, 1, 1, 0, 0, 1, 0, 1, 1);
  }

  /** "hello" with seed 0: one block of four bytes, and a tail of one. */
  lemma HelloSeedZero(b: ByteString)
    requires b == ['h' as int, 'e' as int, 'l' as int, 'l' as int, 'o' as int]
    ensures MurmurHash3(b, 0) == 0x248bfa47
  {
    HelloBlock(b);
    HelloTail(b);
    XorsOfHello1();
    XorsOfHello2();
    hide Xor, Avalanche, Body, Scramble, LittleEndian, Block, MurmurHash3;
    assert |b| == 5;
    HashBy(b, 0, 0xef13efcd, 0x9caf3fb3, 0x9caf3fb6);
    AvalancheOfHello();
  }

  lemma AvalancheOfHello()
    ensures Avalanche(0x9caf3fb6) == 0x248bfa47
  {
    XorsOfHelloEnd1();
    XorsOfHelloEnd2();
    XorsOfHelloEnd3();
    hide Xor, Avalanche;
    AvalancheBy(0x9caf3fb6, 0x9cafa319, 0xc90de573, 0xc90bad1c, 0x248bdecc, 0x248bfa47);
  }

  lemma HelloBlock(b: ByteString)
    requires b == ['h' as int, 'e' as int, 'l' as int, 'l' as int, 'o' as int]
    ensures Body(b, 0, 1) == 0xef13efcd
  {
    hide Xor, Scramble, LittleEndian, Block, Body;
    BlockWord(b, 0);
    BodyZero(b, 0);
    BodyStep(b, 0, 0);
    HellScrambled();
    XorNothing(0xa0ae7465);
    BlockBy(0, 0x6c6c6568, 0xa0ae7465, 0xa0ae7465, 0xce8cb415, 0xef13efcd);
  }

  lemma HellScrambled()
    ensures Scramble(0x6c6c6568) == 0xa0ae7465
  {
    hide Scramble;
    ScrambleBy(0x6c6c6568, 0xd24f5de8, 0xaef46927, 0xa0ae7465);
  }

  lemma HelloTail(b: ByteString)
    requires b == ['h' as int, 'e' as int, 'l' as int, 'l' as int, 'o' as int]
    ensures Scramble(LittleEndian(b[4..])) == 0x73bcd07e
  {
    ShortWords(b[4..]);
    ScrambleBy(0x6f, 0xb895a61f, 0xd30fdc4a, 0x73bcd07e);
    hide Scramble;
  }
}
