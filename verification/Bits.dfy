/** Bitwise operations on naturals, bit by bit, and what masks and disjoint words make of them. */
module Bits {

  function Pow2(n: nat): (p: nat)
    ensures p > 0
  {
    if n == 0 then 1 else 2 * Pow2(n - 1)
  }

  lemma Pow2Values()
    ensures Pow2(1) == 2 && Pow2(2) == 4 && Pow2(3) == 8 && Pow2(4) == 16 && Pow2(5) == 32 && Pow2(6) == 64
    ensures Pow2(7) == 128 && Pow2(8) == 256 && Pow2(13) == 0x2000 && Pow2(15) == 0x8000
    ensures Pow2(16) == 0x1_0000 && Pow2(17) == 0x2_0000 && Pow2(19) == 0x8_0000 && Pow2(24) == 0x100_0000
    ensures Pow2(32) == 0x1_0000_0000
  {
    assert Pow2(10) == 0x400 && Pow2(12) == 0x1000 && Pow2(14) == 0x4000;
    assert Pow2(18) == 0x4_0000 && Pow2(20) == 0x10_0000 && Pow2(22) == 0x40_0000;
    assert Pow2(26) == 0x400_0000 && Pow2(28) == 0x1000_0000 && Pow2(30) == 0x4000_0000;
  }

  lemma DoubleProduct(p: nat, q: nat)
    ensures 2 * (p * q) == (2 * p) * q
  {
  }

  lemma {:induction false} Pow2Add(m: nat, n: nat)
    ensures Pow2(m + n) == Pow2(m) * Pow2(n)
  {
    if m > 0 {
      Pow2Add(m - 1, n);
      assert Pow2(m + n) == 2 * Pow2(m - 1 + n);
      DoubleProduct(Pow2(m - 1), Pow2(n));
    }
  }

  function And(a: nat, b: nat): nat {
    if a == 0 || b == 0 then 0 else 2 * And(a / 2, b / 2) + if a % 2 == 1 && b % 2 == 1 then 1 else 0
  }

  function Or(a: nat, b: nat): nat {
    if a == 0 then b else if b == 0 then a
    else 2 * Or(a / 2, b / 2) + if a % 2 == 1 || b % 2 == 1 then 1 else 0
  }

  function Xor(a: nat, b: nat): nat {
    if a == 0 then b else if b == 0 then a
    else 2 * Xor(a / 2, b / 2) + if a % 2 != b % 2 then 1 else 0
  }

  lemma HalfMod(x: nat, k: nat)
    requires k > 0
    ensures x % Pow2(k) == 2 * ((x / 2) % Pow2(k - 1)) + x % 2
    ensures x / Pow2(k) == (x / 2) / Pow2(k - 1)
  {
    var p := Pow2(k - 1);
    var q, r := (x / 2) / p, (x / 2) % p;
    assert x / 2 == p * q + r;
    assert x == 2 * p * q + (2 * r + x % 2) by {
      assert 2 * (p * q) == 2 * p * q;
    }
    DivModUnique(x, 2 * p, q, 2 * r + x % 2);
  }

  lemma MulMonotone(x: nat, y: int, z: int)
    requires y <= z
    ensures x * y <= x * z && y * x <= z * x
  {
    assert x * (z - y) >= 0;
    assert x * (z - y) == x * z - x * y;
  }

  lemma MulAtLeast(d: nat, k: int)
    requires k >= 1
    ensures d * k >= d
  {
    assert d * k == d * (k - 1) + d;
    assert d * (k - 1) >= 0;
  }

  lemma DivModUnique(x: int, d: nat, q: int, r: int)
    requires 0 <= r < d && x == d * q + r
    ensures x / d == q && x % d == r
  {
    var q' := x / d;
    assert d * (q - q') == x % d - r && d * (q' - q) == r - x % d by {
      assert x == d * q' + x % d;
      assert d * (q - q') == d * q - d * q' && d * (q' - q) == d * q' - d * q;
    }
    if q > q' {
      MulAtLeast(d, q - q');
    } else if q < q' {
      MulAtLeast(d, q' - q);
    }
  }

  /** Masking with k ones keeps the k low bits. */
  lemma {:induction false} AndMask(x: nat, k: nat)
    ensures And(x, Pow2(k) - 1) == x % Pow2(k)
  {
    if k > 0 {
      AndMask(x / 2, k - 1);
      HalfMod(x, k);
      assert (Pow2(k) - 1) / 2 == Pow2(k - 1) - 1 && (Pow2(k) - 1) % 2 == 1;
    }
  }

  /** Masking an n-bit word with ones from bit k up to bit n clears the k low bits. */
  lemma {:induction false} AndHighMask(x: nat, k: nat, n: nat)
    requires k <= n && x < Pow2(n)
    ensures Pow2(k) <= Pow2(n) && And(x, Pow2(n) - Pow2(k)) == x - x % Pow2(k)
  {
    if k == 0 {
      AndMask(x, n);
      DivModUnique(x, Pow2(n), 0, x);
    } else {
      AndHighMask(x / 2, k - 1, n - 1);
      HalfMod(x, k);
      assert (Pow2(n) - Pow2(k)) / 2 == Pow2(n - 1) - Pow2(k - 1) && (Pow2(n) - Pow2(k)) % 2 == 0;
    }
  }

  /** Words without a common bit: or and exclusive or both add. */
  lemma {:induction false} Disjoint(a: nat, b: nat, k: nat)
    requires a % Pow2(k) == 0 && b < Pow2(k)
    ensures Or(a, b) == a + b && Xor(a, b) == a + b
  {
    if k > 0 && a > 0 && b > 0 {
      HalfMod(a, k);
      Disjoint(a / 2, b / 2, k - 1);
    }
  }

  lemma {:induction false} XorBound(a: nat, b: nat, k: nat)
    requires a < Pow2(k) && b < Pow2(k)
    ensures Xor(a, b) < Pow2(k)
  {
    if k > 0 && a > 0 && b > 0 {
      XorBound(a / 2, b / 2, k - 1);
    }
  }

  /** `v` with `k` zero bits appended. */
  function Shifted(v: nat, k: nat): nat {
    if k == 0 then v else 2 * Shifted(v, k - 1)
  }

  /** `x` without its `k` low bits. */
  function Top(x: nat, k: nat): nat {
    if k == 0 then x else Top(x / 2, k - 1)
  }

  function Low(x: nat, k: nat): nat {
    if k == 0 then 0 else 2 * Low(x / 2, k - 1) + x % 2
  }

  lemma {:induction false} TopAndLow(x: nat, k: nat)
    ensures x == Shifted(Top(x, k), k) + Low(x, k) && Low(x, k) < Pow2(k)
    ensures And(x, Pow2(k) - 1) == Low(x, k)
  {
    if k > 0 {
      TopAndLow(x / 2, k - 1);
      assert (Pow2(k) - 1) / 2 == Pow2(k - 1) - 1 && (Pow2(k) - 1) % 2 == 1;
    }
  }

  lemma {:induction false} TopOf(v: nat, b: nat, k: nat)
    requires b < Pow2(k)
    ensures Top(Shifted(v, k) + b, k) == v
  {
    if k > 0 {
      assert (Shifted(v, k) + b) / 2 == Shifted(v, k - 1) + b / 2;
      TopOf(v, b / 2, k - 1);
    }
  }

  lemma {:induction false} TopBound(x: nat, m: nat, k: nat)
    requires x < Pow2(m + k)
    ensures Top(x, k) < Pow2(m)
  {
    if k > 0 { TopBound(x / 2, m, k - 1); }
  }

  lemma {:induction false} ShiftedTwice(v: nat, m: nat, k: nat)
    ensures Shifted(v, m + k) == Shifted(Shifted(v, m), k)
  {
    if k > 0 { ShiftedTwice(v, m, k - 1); }
  }

  lemma {:induction false} ShiftedSum(v: nat, w: nat, k: nat)
    ensures Shifted(v + w, k) == Shifted(v, k) + Shifted(w, k)
  {
    if k > 0 { ShiftedSum(v, w, k - 1); }
  }

  lemma {:induction false} TopTwice(x: nat, m: nat, k: nat)
    ensures Top(x, m + k) == Top(Top(x, m), k)
  {
    if m > 0 { TopTwice(x / 2, m - 1, k); }
  }

  lemma ShiftedValues(v: nat)
    ensures Shifted(v, 0) == v && Shifted(v, 2) == 4 * v && Shifted(v, 4) == 16 * v && Shifted(v, 6) == 64 * v
    ensures Shifted(v, 8) == 256 * v && Shifted(v, 12) == 0x1000 * v && Shifted(v, 18) == 0x4_0000 * v
    ensures Shifted(v, 24) == 0x100_0000 * v
  {
    TwoMore(v, 0);
    TwoMore(v, 2);
    TwoMore(v, 4);
    TwoMore(v, 6);
    TwoMore(v, 8);
    TwoMore(v, 10);
    TwoMore(v, 12);
    TwoMore(v, 14);
    TwoMore(v, 16);
    TwoMore(v, 18);
    TwoMore(v, 20);
    TwoMore(v, 22);
  }

  lemma TwoMore(v: nat, k: nat)
    ensures Shifted(v, k + 2) == 4 * Shifted(v, k)
  {
    assert Shifted(v, k + 2) == 2 * Shifted(v, k + 1);
  }

  lemma TopValues(x: nat)
    ensures Top(x, 0) == x && Top(x, 6) == x / 64 && Top(x, 12) == x / 0x1000 && Top(x, 18) == x / 0x4_0000
  {
    SixOff(x);
    SixOff(x / 64);
    SixOff(x / 0x1000);
    TopTwice(x, 6, 6);
    TopTwice(x, 12, 6);
  }

  lemma SixOff(x: nat)
    ensures Top(x, 6) == x / 64
  {
    TwoOff(x);
    TwoOff(x / 4);
    TwoOff(x / 16);
    TopTwice(x, 2, 2);
    TopTwice(x, 4, 2);
  }

  lemma TwoOff(x: nat)
    ensures Top(x, 2) == x / 4
  {
    assert Top(x, 2) == Top(x / 2, 1) == Top(x / 2 / 2, 0);
  }

  /** A shift to the right is a division. */
  lemma {:induction false} TopIsQuotient(x: nat, k: nat)
    ensures Top(x, k) == x / Pow2(k) && Low(x, k) == x % Pow2(k)
  {
    if k > 0 {
      TopIsQuotient(x / 2, k - 1);
      HalfMod(x, k);
    }
  }

  lemma {:induction false} TopOfSum(v: nat, x: nat, k: nat)
    ensures Top(Shifted(v, k) + x, k) == v + Top(x, k)
  {
    if k > 0 {
      assert (Shifted(v, k) + x) / 2 == Shifted(v, k - 1) + x / 2;
      TopOfSum(v, x / 2, k - 1);
    }
  }

  /** Masking with ones from bit k up to bit n, by shifts. */
  lemma {:induction false} HighPart(x: nat, k: nat, n: nat)
    requires k <= n && x < Pow2(n)
    ensures Pow2(k) <= Pow2(n) && And(x, Pow2(n) - Pow2(k)) == Shifted(Top(x, k), k)
  {
    if k == 0 {
      AndMask(x, n);
      DivModUnique(x, Pow2(n), 0, x);
    } else {
      HighPart(x / 2, k - 1, n - 1);
      assert (Pow2(n) - Pow2(k)) / 2 == Pow2(n - 1) - Pow2(k - 1) && (Pow2(n) - Pow2(k)) % 2 == 0;
    }
  }
}
