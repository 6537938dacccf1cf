/** MurmurHash3_x86_32 as the verify pool writes it in JavaScript number arithmetic. */
module Murmur {
  import opened Bytes
  import opened Bits
  import opened Wrappers

  // ---------- JavaScript's 32-bit operators on integers of any sign ----------

  function ToUint32(x: int): (u: nat)
    ensures u < U32
  {
    x % U32
  }

  function ToInt32(x: int): int {
    if ToUint32(x) >= 0x8000_0000 then ToUint32(x) - U32 else ToUint32(x)
  }

  function Shl(x: int, r: nat): int {
    ToInt32(ToUint32(x) * Pow2(r))
  }

  function Ushr(x: int, r: nat): int {
    ToUint32(x) / Pow2(r)
  }

  function BitAnd(x: int, y: int): int {
    ToInt32(And(ToUint32(x), ToUint32(y)))
  }

  function BitOr(x: int, y: int): int {
    ToInt32(Or(ToUint32(x), ToUint32(y)))
  }

  function BitXor(x: int, y: int): int {
    ToInt32(Xor(ToUint32(x), ToUint32(y)))
  }

  function Rotl32(x: int, r: nat): int
    requires r <= 32
  {
    Ushr(BitOr(Shl(x, r), Ushr(x, 32 - r)), 0)
  }

  function Imul32(a: int, b: int): int {
    var aHi, aLo := BitAnd(Ushr(a, 16), 0xffff), BitAnd(a, 0xffff);
    var bHi, bLo := BitAnd(Ushr(b, 16), 0xffff), BitAnd(b, 0xffff);
    Ushr(aLo * bLo + Ushr(Shl(aHi * bLo + aLo * bHi, 16), 0), 0)
  }

  // ---------- the published recurrence, over 32-bit words ----------

  function Mul(a: int, b: int): (p: nat)
    ensures p < U32
  {
    (a * b) % U32
  }

  function Rotl(x: nat, r: nat): int
    requires r <= 32
  {
    (x * Pow2(r)) % U32 + x / Pow2(32 - r)
  }

  function LittleEndian(b: ByteString): nat {
    if b == [] then 0 else b[0] + 256 * LittleEndian(b[1..])
  }

  const C1: nat := 0xcc9e2d51
  const C2: nat := 0x1b873593

  function Scramble(k: nat): nat {
    Mul(Rotl(Mul(k, C1), 15), C2)
  }

  function Block(h: nat, k: nat): nat {
    (Mul(Rotl(Xor(h, Scramble(k)), 13), 5) + 0xe6546b64) % U32
  }

  /** The state after the first `n` blocks of four bytes. */
  function Body(b: ByteString, seed: nat, n: nat): nat
    requires 4 * n <= |b|
  {
    if n == 0 then seed else Block(Body(b, seed, n - 1), LittleEndian(b[4 * n - 4..4 * n]))
  }

  function Avalanche(h: nat): nat {
    var h1 := Mul(Xor(h, h / Pow2(16)), 0x85ebca6b);
    var h2 := Mul(Xor(h1, h1 / Pow2(13)), 0xc2b2ae35);
    Xor(h2, h2 / Pow2(16))
  }

  function MurmurHash3(b: ByteString, seed: nat): nat {
    var n := |b| / 4;
    var h := Body(b, seed, n);
    var tail := b[4 * n..];
    Avalanche(Xor(if tail == [] then h else Xor(h, Scramble(LittleEndian(tail))), |b| % U32))
  }

  // ---------- refinement ----------

  lemma MaskIsMod(x: int)
    ensures BitAnd(x, 0xffff) == ToUint32(x) % 0x1_0000
  {
    Pow2Values();
    AndMask(ToUint32(x), 16);
    ModOnce(0xffff);
    ModOnce(ToUint32(x) % 0x1_0000);
  }

  lemma ModOnce(x: nat)
    requires x < U32
    ensures ToUint32(x) == x
  {
    DivModUnique(x, U32, 0, x);
  }

  function High(a: int): (h: nat)
    ensures h < 0x1_0000
  {
    ToUint32(a) / 0x1_0000
  }

  function Low(a: int): (l: nat)
    ensures l < 0x1_0000
  {
    ToUint32(a) % 0x1_0000
  }

  lemma Limbs(a: int)
    ensures BitAnd(a, 0xffff) == Low(a) && BitAnd(Ushr(a, 16), 0xffff) == High(a)
    ensures ToUint32(a) == High(a) * 0x1_0000 + Low(a)
  {
    Pow2Values();
    MaskIsMod(a);
    MaskIsMod(Ushr(a, 16));
    ModOnce(High(a));
    DivModUnique(High(a), 0x1_0000, 0, High(a));
  }

  lemma LimbBound(x: nat, y: nat)
    requires x < 0x1_0000 && y < 0x1_0000
    ensures 0 <= x * y < U32
  {
    MulMonotone(x, y, 0xffff);
    MulMonotone(x, 0, y);
  }

  lemma ModShift(x: int, q: int)
    ensures (x + U32 * q) % U32 == x % U32
  {
    DivModUnique(x + U32 * q, U32, x / U32 + q, x % U32);
  }

  lemma AddMod(x: int, y: int)
    ensures (x + y % U32) % U32 == (x + y) % U32
  {
    ModShift(x + y % U32, y / U32);
  }

  /** ToInt32 only chooses the sign: the unsigned word is unchanged. */
  lemma SignErased(x: int)
    ensures ToUint32(ToInt32(x)) == ToUint32(x)
  {
    ModShift(ToUint32(x), -1);
    ModOnce(ToUint32(x));
  }

  lemma ShlUnsigned(x: int)
    ensures ToUint32(Shl(x, 16)) == (x * 0x1_0000) % U32
  {
    Pow2Values();
    SignErased(ToUint32(x) * 0x1_0000);
    assert x == ToUint32(x) + U32 * (x / U32);
    ModShift(ToUint32(x) * 0x1_0000, (x / U32) * 0x1_0000);
  }

  lemma LimbExpansion(ah: int, al: int, bh: int, bl: int)
    ensures (ah * 0x1_0000 + al) * (bh * 0x1_0000 + bl)
         == al * bl + (ah * bl + al * bh) * 0x1_0000 + U32 * (ah * bh)
  {
  }

  /** What the limb multiplication computes on the four halves. */
  function LimbProduct(ah: int, al: int, bh: int, bl: int): int {
    (al * bl + ((ah * bl + al * bh) * 0x1_0000) % U32) % U32
  }

  lemma LimbProductExact(ah: int, al: int, bh: int, bl: int)
    ensures LimbProduct(ah, al, bh, bl) == ((ah * 0x1_0000 + al) * (bh * 0x1_0000 + bl)) % U32
  {
    var p, m, t := al * bl, ah * bl + al * bh, ah * bh;
    LimbExpansion(ah, al, bh, bl);
    AddMod(p, m * 0x1_0000);
    ModShift(p + m * 0x1_0000, t);
  }

  /** No intermediate of the limb multiplication reaches 2^53, where doubles stop being exact. */
  lemma LimbProductsExactInDoubles(a: int, b: int)
    ensures 0 <= High(a) * Low(b) + Low(a) * High(b) < 2 * U32
    ensures 0 <= Low(a) * Low(b) + ((High(a) * Low(b) + Low(a) * High(b)) * 0x1_0000) % U32 < 2 * U32
  {
    hide High, Low;
    LimbBound(Low(a), Low(b));
    LimbBound(High(a), Low(b));
    LimbBound(Low(a), High(b));
  }

  lemma Imul32Limbs(a: int, b: int)
    ensures Imul32(a, b) == LimbProduct(High(a), Low(a), High(b), Low(b))
  {
    hide BitAnd, Shl, ToUint32, High, Low, Ushr;
    Limbs(a);
    Limbs(b);
    var m, p := High(a) * Low(b) + Low(a) * High(b), Low(a) * Low(b);
    ShlUnsigned(m);
    UnsignedShift(Shl(m, 16));
    UnsignedShift(p + (m * 0x1_0000) % U32);
  }

  lemma UnsignedShift(x: int)
    ensures Ushr(x, 0) == ToUint32(x) == x % U32
  {
    assert Pow2(0) == 1;
  }

  /** The limb multiplication is multiplication mod 2^32, for operands of either sign. */
  lemma Imul32Exact(a: int, b: int)
    ensures Imul32(a, b) == Mul(ToUint32(a), ToUint32(b))
  {
    hide BitAnd, Imul32, ToUint32, High, Low, LimbProduct;
    Limbs(a);
    Limbs(b);
    Imul32Limbs(a, b);
    LimbProductExact(High(a), Low(a), High(b), Low(b));
  }

  lemma XorErased(x: int, y: int)
    ensures ToUint32(BitXor(x, y)) == Xor(ToUint32(x), ToUint32(y))
  {
    Pow2Values();
    XorBound(ToUint32(x), ToUint32(y), 32);
    SignErased(Xor(ToUint32(x), ToUint32(y)));
    ModOnce(Xor(ToUint32(x), ToUint32(y)));
  }

  lemma RotateHalves(u: nat, p: nat, p': nat)
    requires p > 0 && p' > 0 && p * p' == U32 && u < U32
    ensures var hi, lo := (u * p) % U32, u / p';
      0 <= hi && hi % p == 0 && 0 <= lo < p && hi + lo < U32
  {
    var k, low := u / p', u % p';
    assert u * p == U32 * k + low * p by {
      assert u == p' * k + low;
      assert (p' * k) * p == (p * p') * k;
    }
    assert 0 <= low * p <= U32 - p by {
      MulMonotone(p, low, p' - 1);
      MulMonotone(p, 0, low);
      assert p * (p' - 1) == U32 - p;
    }
    DivModUnique(u * p, U32, k, low * p);
    DivModUnique(low * p, p, low, 0);
    assert k < p by {
      if k >= p {
        MulMonotone(p', p, k);
      }
    }
  }

  /** Shift, shift, or is the rotation: the two halves share no bit. */
  lemma Rotl32Exact(x: int, r: nat)
    requires 0 < r < 32
    ensures Rotl32(x, r) == Rotl(ToUint32(x), r) && 0 <= Rotl32(x, r) < U32
  {
    var u := ToUint32(x);
    var hi, lo := (u * Pow2(r)) % U32, u / Pow2(32 - r);
    assert 0 <= hi && hi % Pow2(r) == 0 && 0 <= lo < Pow2(r) && hi + lo < U32 by {
      assert Pow2(r) * Pow2(32 - r) == U32 by {
        Pow2Values();
        Pow2Add(r, 32 - r);
      }
      RotateHalves(u, Pow2(r), Pow2(32 - r));
    }
    SignErased(u * Pow2(r));
    ModOnce(lo);
    Disjoint(hi, lo, r);
    assert BitOr(Shl(x, r), Ushr(x, 32 - r)) == ToInt32(hi + lo);
    SignErased(hi + lo);
    ModOnce(hi + lo);
    assert Pow2(0) == 1;
  }

  /** Or-ing a byte in at a lower position by exclusive or adds it. */
  lemma XorByte(k: int, x: Byte, r: nat)
    requires r == 0 || r == 8 || r == 16
    requires ToUint32(k) % (256 * Pow2(r)) == 0
    ensures ToUint32(BitXor(k, Shl(x, r))) == ToUint32(k) + x * Pow2(r)
  {
    Pow2Values();
    ShlByte(x, r);
    XorErased(k, Shl(x, r));
    Disjoint(ToUint32(k), x * Pow2(r), r + 8);
  }

  lemma ShortWords(b: ByteString)
    requires 1 <= |b| <= 3
    ensures LittleEndian(b) == (b[0] as int) + (if |b| >= 2 then (b[1] as int) * 0x100 else 0)
                               + (if |b| == 3 then (b[2] as int) * 0x1_0000 else 0)
  {
    assert LittleEndian(b[1..]) == if |b| >= 2 then b[1] + 256 * LittleEndian(b[1..][1..]) else 0;
    if |b| == 3 {
      assert b[1..][1..][0] == b[2] && b[1..][1..][1..] == [];
    }
  }

  /** `(b2 << 16) ^ (b1 << 8) ^ b0` is the little-endian value. */
  lemma TailWord(b: ByteString)
    requires 1 <= |b| <= 3
    ensures var k0 := if |b| == 3 then BitXor(0, Shl(b[2], 16)) else 0;
      var k1 := if |b| >= 2 then BitXor(k0, Shl(b[1], 8)) else k0;
      ToUint32(BitXor(k1, b[0])) == LittleEndian(b)
  {
    hide BitXor, Shl, LittleEndian, ToUint32;
    Unsigned(0);
    var k0 := if |b| == 3 then BitXor(0, Shl(b[2], 16)) else 0;
    var w0: nat := if |b| == 3 then (b[2] as int) * 0x1_0000 else 0;
    assert ToUint32(k0) == w0 by {
      if |b| == 3 {
        Pow2Values();
        XorByte(0, b[2], 16);
      }
    }
    var k1 := if |b| >= 2 then BitXor(k0, Shl(b[1], 8)) else k0;
    var w1: nat := if |b| >= 2 then w0 + (b[1] as int) * 0x100 else w0;
    assert ToUint32(k1) == w1 by {
      if |b| >= 2 {
        Pow2Values();
        XorByte(k0, b[1], 8);
      }
    }
    assert Pow2(0) == 1;
    XorByte(k1, b[0], 0);
    ShlZero(b[0]);
    ShortWords(b);
  }

  lemma ShlZero(x: Byte)
    ensures Shl(x, 0) == x
  {
    ModOnce(x);
    assert Pow2(0) == 1;
  }

  lemma ShlByte(x: Byte, r: nat)
    requires r == 0 || r == 8 || r == 16
    ensures ToUint32(Shl(x, r)) == x * Pow2(r)
  {
    Pow2Values();
    ModOnce(x);
    SignErased(x * Pow2(r));
    ModOnce(x * Pow2(r));
  }

  /** `readUInt32LE` */
  function ReadUInt32LE(b: ByteString, off: nat): int
    requires off + 4 <= |b|
  {
    (b[off] as int) + (b[off + 1] as int) * 0x100 + (b[off + 2] as int) * 0x1_0000 + (b[off + 3] as int) * 0x100_0000
  }

  lemma BlockWord(b: ByteString, off: nat)
    requires off + 4 <= |b|
    ensures ReadUInt32LE(b, off) == LittleEndian(b[off..off + 4]) < U32
  {
    var w := b[off..off + 4];
    assert w[1..][0] == w[1] && w[1..][1..][0] == w[2] && w[1..][1..][1..][0] == w[3];
    assert w[1..][1..][1..][1..] == [];
    assert LittleEndian(w[1..][1..][1..]) == w[3];
    assert LittleEndian(w[1..][1..]) == w[2] + 256 * (w[3] as int);
  }

  lemma MulByConstant(a: int, c: nat)
    requires c < U32
    ensures Imul32(a, c) == Mul(ToUint32(a), c) && ToUint32(Imul32(a, c)) == Imul32(a, c)
  {
    Imul32Exact(a, c);
    ModOnce(c);
    ModOnce(Mul(ToUint32(a), c));
  }

  lemma ScrambleExact(k: int)
    ensures Imul32(Rotl32(Imul32(k, C1), 15), C2) == Scramble(ToUint32(k)) < U32
  {
    hide Imul32, Rotl32, Mul, Rotl, ToUint32;
    MulByConstant(k, C1);
    Rotl32Exact(Imul32(k, C1), 15);
    MulByConstant(Rotl32(Imul32(k, C1), 15), C2);
    Unsigned(Rotl32(Imul32(k, C1), 15));
  }

  lemma Unsigned(x: int)
    requires 0 <= x < U32
    ensures ToUint32(x) == x
  {
    ModOnce(x);
  }

  lemma BlockExact(h1: int, k1: int)
    requires 0 <= k1 < U32
    ensures var r := Imul32(Rotl32(BitXor(h1, k1), 13), 5) + 0xe6546b64;
      Ushr(r, 0) == (Mul(Rotl(Xor(ToUint32(h1), k1), 13), 5) + 0xe6546b64) % U32
  {
    hide Imul32, Rotl32, Mul, Rotl, BitXor, Xor;
    XorErased(h1, k1);
    Unsigned(k1);
    Rotl32Exact(BitXor(h1, k1), 13);
    Unsigned(Rotl32(BitXor(h1, k1), 13));
    MulByConstant(Rotl32(BitXor(h1, k1), 13), 5);
    assert Pow2(0) == 1;
  }

  lemma UshrExact(h: int, r: nat)
    ensures Ushr(h, r) == ToUint32(h) / Pow2(r) && 0 <= Ushr(h, r) < U32
    ensures ToUint32(Ushr(h, r)) == Ushr(h, r)
  {
    QuotientBound(ToUint32(h), Pow2(r));
    Unsigned(Ushr(h, r));
  }

  lemma FoldXor(h: int, r: nat)
    ensures 0 <= ToUint32(h) / Pow2(r)
    ensures ToUint32(BitXor(h, Ushr(h, r))) == Xor(ToUint32(h), ToUint32(h) / Pow2(r))
  {
    hide BitXor, Xor, ToUint32, Ushr;
    UshrExact(h, r);
    XorErased(h, Ushr(h, r));
  }

  lemma FoldMul(h: int, r: nat, c: nat)
    requires c < U32
    ensures 0 <= ToUint32(h) / Pow2(r)
    ensures Imul32(BitXor(h, Ushr(h, r)), c) == Mul(Xor(ToUint32(h), ToUint32(h) / Pow2(r)), c)
    ensures ToUint32(Imul32(BitXor(h, Ushr(h, r)), c)) == Imul32(BitXor(h, Ushr(h, r)), c)
  {
    hide Imul32, Mul, BitXor, Xor, ToUint32, Ushr;
    FoldXor(h, r);
    MulByConstant(BitXor(h, Ushr(h, r)), c);
  }

  lemma QuotientBound(u: nat, p: nat)
    requires p > 0
    ensures 0 <= u / p <= u
  {
    MulMonotone(u / p, 1, p);
  }

  method Finalise(h: int) returns (r: int)
    ensures r == Avalanche(ToUint32(h)) && 0 <= r < U32
  {
    hide Imul32, Mul, BitXor, Xor, ToUint32, Ushr;
    var h1 := h;
    FoldMul(h1, 16, 0x85ebca6b);
    h1 := BitXor(h1, Ushr(h1, 16));
    h1 := Imul32(h1, 0x85ebca6b);
    FoldMul(h1, 13, 0xc2b2ae35);
    h1 := BitXor(h1, Ushr(h1, 13));
    h1 := Imul32(h1, 0xc2b2ae35);
    FoldXor(h1, 16);
    h1 := BitXor(h1, Ushr(h1, 16));
    UshrExact(h1, 0);
    assert Pow2(0) == 1;
    r := Ushr(h1, 0);
  }

  method MixTail(tail: ByteString, h1: int) returns (h: int)
    requires |tail| <= 3 && 0 <= h1 < U32
    ensures ToUint32(h) == if tail == [] then h1 else Xor(h1, Scramble(LittleEndian(tail)))
  {
    hide BitXor, Shl, Imul32, Rotl32, Xor, Scramble, LittleEndian, ToUint32;
    h := h1;
    Unsigned(h1);
    var k1 := 0;
    if |tail| == 3 {
      k1 := BitXor(k1, Shl(tail[2], 16));
    }
    if |tail| >= 2 {
      k1 := BitXor(k1, Shl(tail[1], 8));
    }
    if |tail| >= 1 {
      TailWord(tail);
      k1 := BitXor(k1, tail[0]);
      ScrambleExact(k1);
      k1 := Imul32(k1, C1);
      k1 := Rotl32(k1, 15);
      k1 := Imul32(k1, C2);
      Unsigned(k1);
      XorErased(h1, k1);
      h := BitXor(h, k1);
    }
  }

  method MixBlock(h1: int, k: int) returns (h: int)
    requires 0 <= h1 < U32 && 0 <= k < U32
    ensures h == Block(h1, k) && 0 <= h < U32
  {
    hide BitXor, Imul32, Rotl32, Xor, Scramble, Mul, Rotl, Ushr;
    Unsigned(k);
    ScrambleExact(k);
    var k1 := Imul32(k, C1);
    k1 := Rotl32(k1, 15);
    k1 := Imul32(k1, C2);
    BlockExact(h1, k1);
    Unsigned(h1);
    h := BitXor(h1, k1);
    h := Rotl32(h, 13);
    h := Ushr(Imul32(h, 5) + 0xe6546b64, 0);
  }

  lemma BodyZero(b: ByteString, seed: nat)
    ensures Body(b, seed, 0) == seed
  {
  }

  lemma BodyStep(b: ByteString, seed: nat, n: nat)
    requires 4 * n + 4 <= |b|
    ensures Body(b, seed, n + 1) == Block(Body(b, seed, n), LittleEndian(b[4 * n..4 * n + 4]))
  {
    assert b[4 * (n + 1) - 4..4 * (n + 1)] == b[4 * n..4 * n + 4];
  }

  /** Offsets are signed 32-bit numbers, so this many bytes can be reached. */
  const REACH: nat := 0x8000_0000

  /** What is hashed: as many bytes as the length's low 32 bits say, those out of reach read as zero. */
  function Seen(buf: ByteString): ByteString {
    var n := |buf| % U32;
    if n <= REACH then buf[..n] else buf[..REACH] + seq(n - REACH, _ => 0)
  }

  /** A buffer within reach is hashed as it is. */
  lemma SeenWhole(buf: ByteString)
    requires |buf| <= REACH
    ensures Seen(buf) == buf
  {}

  lemma Offset(i: nat)
    requires i < 0x4000_0000
    ensures Shl(i, 2) == if 4 * i < REACH then 4 * i else 4 * i - U32
  {
    assert Pow2(2) == 4 by { Pow2Values(); }
    ModOnce(i);
    ModOnce(4 * i);
  }

  lemma BlockCount(n: nat)
    ensures Ushr(n, 2) == (n % U32) / 4 < 0x4000_0000
  {
    assert Pow2(2) == 4 by { Pow2Values(); }
  }

  /** The tail as the code reads it: a byte out of reach is undefined, and counts as zero. */
  function TailByte(buf: ByteString, start: int, j: nat): Byte {
    if 0 <= start + j < |buf| then buf[start + j] else 0
  }

  function Tail(buf: ByteString): ByteString {
    var start := Shl(Ushr(|buf|, 2), 2);
    seq(|buf| % 4, j requires 0 <= j < |buf| % 4 => TailByte(buf, start, j))
  }

  lemma TailOfSeen(buf: ByteString)
    requires |buf| % U32 < REACH + 4
    ensures var n := |buf| % U32; |Seen(buf)| == n && Tail(buf) == Seen(buf)[4 * (n / 4)..]
  {
    var n := |buf| % U32;
    BlockCount(|buf|);
    Offset(n / 4);
    assert |buf| % 4 == n % 4;
    hide Shl, Ushr;
    var tail, seen := Tail(buf), Seen(buf);
    assert |tail| == n % 4 == |seen[4 * (n / 4)..]|;
    forall j | 0 <= j < n % 4 ensures tail[j] == seen[4 * (n / 4)..][j] {
      if n < REACH {
        assert tail[j] == buf[4 * (n / 4) + j];
      } else {
        assert n / 4 == 0x2000_0000;
      }
    }
  }

  /**
   The offsets of the blocks are `i << 2`: a negative one makes the read throw, and then there is no hash. Otherwise the
   hash is MurmurHash3 of what is within reach.
   */
  method Murmur3_32(buf: ByteString, seed: int) returns (r: Option<int>)
    ensures r == if |buf| % U32 >= REACH + 4 then None else Some(MurmurHash3(Seen(buf), ToUint32(seed)))
    ensures r.Some? ==> 0 <= r.value < U32
  {
    hide BitXor, Block, Body, Xor, Scramble, LittleEndian, ToUint32, Avalanche, ReadUInt32LE, Ushr, Shl, Tail;
    var n := |buf| % U32;
    UnsignedShift(seed);
    BlockCount(|buf|);
    var h1 := Ushr(seed, 0);
    var nBlocks := Ushr(|buf|, 2);
    ghost var seen := Seen(buf);
    BodyZero(seen, ToUint32(seed));
    for i := 0 to nBlocks
      invariant 4 * i <= REACH && 4 * i <= |seen|
      invariant 0 <= h1 < U32 && h1 == Body(seen, ToUint32(seed), i)
    {
      Offset(i);
      if Shl(i, 2) < 0 { return None; }
      assert seen[4 * i..4 * i + 4] == buf[4 * i..4 * i + 4];
      BlockWord(buf, 4 * i);
      BodyStep(seen, ToUint32(seed), i);
      h1 := MixBlock(h1, ReadUInt32LE(buf, Shl(i, 2)));
    }
    TailOfSeen(buf);
    h1 := MixTail(Tail(buf), h1);
    XorErased(h1, |buf|);
    SameLength(buf);
    h1 := BitXor(h1, |buf|);
    var h := Finalise(h1);
    r := Some(h);
  }

  lemma SameLength(buf: ByteString)
    requires |buf| % U32 < REACH + 4
    ensures ToUint32(|buf|) == |Seen(buf)| % U32
  {
    ModOnce(|buf| % U32);
  }
}
