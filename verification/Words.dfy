/** Machine words seen as natural numbers: powers of two, single bits, and the
    bitwise operators the allocator applies to its 32- and 64-bit bitmaps. */
module Words {

  const WORD_MAX: nat := 0x1_0000_0000_0000_0000

  function Pow2(n: nat): (p: nat)
    ensures p >= 1
  {
    if n == 0 then 1 else 2 * Pow2(n - 1)
  }

  /** floor(log2(n)) for positive n */
  function Log2(n: nat): nat {
    if n < 2 then 0 else 1 + Log2(n / 2)
  }

  predicate Bit(w: nat, i: nat) {
    if i == 0 then w % 2 == 1 else Bit(w / 2, i - 1)
  }

  /** C's `|` on non-negative values */
  function Or(x: nat, y: nat): nat {
    if x == 0 && y == 0 then 0
    else (if x % 2 == 1 || y % 2 == 1 then 1 else 0) + 2 * Or(x / 2, y / 2)
  }

  /** C's `&` on non-negative values */
  function And(x: nat, y: nat): nat {
    if x == 0 || y == 0 then 0
    else (if x % 2 == 1 && y % 2 == 1 then 1 else 0) + 2 * And(x / 2, y / 2)
  }

  lemma {:induction false} Pow2Sum(m: nat, n: nat)
    ensures Pow2(m + n) == Pow2(m) * Pow2(n)
  {
    if m != 0 { Pow2Sum(m - 1, n); }
  }

  lemma {:induction false} Pow2Mono(m: nat, n: nat)
    requires m <= n
    ensures Pow2(m) <= Pow2(n)
    ensures m < n ==> 2 * Pow2(m) <= Pow2(n)
    decreases n
  {
    if m < n { Pow2Mono(m, n - 1); }
  }

  lemma {:induction false} Log2Bounds(n: nat)
    requires n > 0
    ensures Pow2(Log2(n)) <= n < 2 * Pow2(Log2(n))
  {
    if n >= 2 { Log2Bounds(n / 2); }
  }

  lemma Log2Unique(n: nat, f: nat)
    requires Pow2(f) <= n < 2 * Pow2(f)
    ensures Log2(n) == f
  {
    Log2Bounds(n);
    if Log2(n) < f { Pow2Mono(Log2(n), f); }
    if f < Log2(n) { Pow2Mono(f, Log2(n)); }
  }

  lemma Pow2Values()
    ensures Pow2(5) == 32 && Pow2(32) == 0x1_0000_0000
    ensures Pow2(39) == 0x80_0000_0000 && Pow2(64) == WORD_MAX
  {
    Pow2Five(5);
    Pow2Double(16, 16);
    Pow2Double(32, 32);
    Pow2Sum(7, 32);
  }

  lemma Pow2Five(n: nat)
    requires n == 5
    ensures Pow2(n) == 32 && Pow2(7) == 128 && Pow2(16) == 0x1_0000
  {
    assert Pow2(1) == 2 && Pow2(2) == 4;
    Pow2Sum(n, 2); Pow2Sum(n, n); Pow2Sum(10, n); Pow2Sum(1, 15);
  }

  lemma Pow2Double(m: nat, n: nat)
    ensures Pow2(m + n) == Pow2(m) * Pow2(n)
  {
    Pow2Sum(m, n);
  }

  lemma {:induction false} BitZero(i: nat)
    ensures !Bit(0, i)
  {
    if i != 0 { BitZero(i - 1); }
  }

  lemma {:induction false} BitOr(x: nat, y: nat, i: nat)
    ensures Bit(Or(x, y), i) <==> Bit(x, i) || Bit(y, i)
    decreases i
  {
    if x == 0 && y == 0 {
      BitZero(i);
    } else {
      var o := Or(x, y);
      assert o / 2 == Or(x / 2, y / 2);
      if i != 0 { BitOr(x / 2, y / 2, i - 1); }
    }
  }

  lemma {:induction false} BitAnd(x: nat, y: nat, i: nat)
    ensures Bit(And(x, y), i) <==> Bit(x, i) && Bit(y, i)
    decreases i
  {
    if x == 0 || y == 0 {
      BitZero(i);
    } else {
      var o := And(x, y);
      assert o / 2 == And(x / 2, y / 2);
      if i != 0 { BitAnd(x / 2, y / 2, i - 1); }
    }
  }

  lemma {:induction false} BitPow2(k: nat, i: nat)
    ensures Bit(Pow2(k), i) <==> i == k
    decreases k
  {
    if k == 0 {
      if i != 0 { BitZero(i - 1); }
    } else if i != 0 {
      BitPow2(k - 1, i - 1);
    }
  }

  /** all-ones words: `~0` of an n-bit type */
  lemma {:induction false} BitOnes(n: nat, i: nat)
    ensures Bit(Pow2(n) - 1, i) <==> i < n
    decreases n
  {
    if n == 0 {
      BitZero(i);
    } else if i != 0 {
      assert (Pow2(n) - 1) / 2 == Pow2(n - 1) - 1;
      BitOnes(n - 1, i - 1);
    }
  }

  /** `~0 << k` of an n-bit type */
  lemma {:induction false} BitMask(n: nat, k: nat, i: nat)
    requires k <= n
    ensures Pow2(k) <= Pow2(n)
    ensures Bit(Pow2(n) - Pow2(k), i) <==> k <= i < n
    decreases n
  {
    Pow2Mono(k, n);
    if k == 0 {
      BitOnes(n, i);
    } else {
      Pow2Mono(k - 1, n - 1);
      assert (Pow2(n) - Pow2(k)) / 2 == Pow2(n - 1) - Pow2(k - 1);
      if i != 0 { BitMask(n - 1, k - 1, i - 1); }
    }
  }

  /** `~(1 << k)` of an n-bit type */
  lemma {:induction false} BitHole(n: nat, k: nat, i: nat)
    requires k < n
    ensures Pow2(k) < Pow2(n)
    ensures Bit(Pow2(n) - 1 - Pow2(k), i) <==> i < n && i != k
    decreases n
  {
    Pow2Mono(k, n);
    if k == 0 {
      assert (Pow2(n) - 2) / 2 == Pow2(n - 1) - 1;
      if i != 0 { BitOnes(n - 1, i - 1); }
    } else {
      Pow2Mono(k - 1, n - 1);
      assert (Pow2(n) - 1 - Pow2(k)) / 2 == Pow2(n - 1) - 1 - Pow2(k - 1);
      if i != 0 { BitHole(n - 1, k - 1, i - 1); }
    }
  }

  lemma {:induction false} BitInRange(w: nat, i: nat, n: nat)
    requires w < Pow2(n) && Bit(w, i)
    ensures i < n && w > 0
    decreases n
  {
    if n == 0 {
      BitZero(i);
    } else if i != 0 {
      BitInRange(w / 2, i - 1, n - 1);
    }
  }

  lemma {:induction false} OrBound(x: nat, y: nat, n: nat)
    requires x < Pow2(n) && y < Pow2(n)
    ensures Or(x, y) < Pow2(n)
    decreases n
  {
    if n != 0 && !(x == 0 && y == 0) { OrBound(x / 2, y / 2, n - 1); }
  }

  lemma {:induction false} AndBound(x: nat, y: nat)
    ensures And(x, y) <= x && And(x, y) <= y
    decreases x
  {
    if x != 0 && y != 0 { AndBound(x / 2, y / 2); }
  }

  /** Log2 of a word whose top bit is set */
  lemma Log2Top(v: nat)
    requires WORD_MAX / 2 <= v < WORD_MAX
    ensures Log2(v) == 63
  {
    Pow2Values();
    var f := 63;
    assert Pow2(f + 1) == 2 * Pow2(f);
    Log2Unique(v, f);
  }

  /** `~(uint64_t)0 << k` */
  function MaskFrom(k: nat): nat
    requires k <= 64
  {
    Pow2Values(); Pow2Mono(k, 64);
    WORD_MAX - Pow2(k)
  }

  lemma MaskedBit(w: nat, k: nat, i: nat)
    requires k <= 64
    ensures Bit(And(w, MaskFrom(k)), i) <==> Bit(w, i) && k <= i < 64
    ensures And(w, MaskFrom(k)) < WORD_MAX
  {
    Pow2Values();
    var n := 64;
    BitMask(n, k, i);
    BitAnd(w, MaskFrom(k), i);
    AndBound(w, MaskFrom(k));
  }

  /** `~((uint32_t)1 << k)` */
  function Hole32(k: nat): nat
    requires k < 32
  {
    Pow2Values(); Pow2Mono(k, 32);
    0xffff_ffff - Pow2(k)
  }

  /** `~((uint64_t)1 << k)` */
  function Hole64(k: nat): nat
    requires k < 64
  {
    Pow2Values(); Pow2Mono(k, 64);
    WORD_MAX - 1 - Pow2(k)
  }

  /** brk_clz64: shift left until the top bit is set */
  method Clz64(value: nat) returns (n: nat)
    requires value < WORD_MAX
    ensures value == 0 ==> n == 64
    ensures value > 0 ==> n < 64 && 63 - n == Log2(value)
  {
    n := 0;
    var v := value;
    if v == 0 { return 64; }
    while v < WORD_MAX / 2
      invariant 0 < v < WORD_MAX && Log2(v) == Log2(value) + n
      decreases WORD_MAX - v
    {
      assert Log2(2 * v) == 1 + Log2(v);
      v := v * 2 % WORD_MAX;
      n := n + 1;
    }
    Log2Top(v);
  }

  /** position of the lowest set bit */
  function LowBit(w: nat): nat
    requires w > 0
  {
    if w % 2 == 1 then 0 else 1 + LowBit(w / 2)
  }

  lemma {:induction false} LowBitIsLowest(w: nat, n: nat)
    requires 0 < w < Pow2(n)
    ensures LowBit(w) < n && Bit(w, LowBit(w))
    ensures forall j | 0 <= j < LowBit(w) :: !Bit(w, j)
    decreases n
  {
    if w % 2 == 0 {
      LowBitIsLowest(w / 2, n - 1);
      forall j | 0 <= j < LowBit(w) ensures !Bit(w, j) {
        if j > 0 { assert !Bit(w / 2, j - 1); }
      }
    }
  }

  /** brk_ctz64: shift right until the low bit is set */
  method Ctz64(value: nat) returns (n: nat)
    requires value < WORD_MAX
    ensures value == 0 ==> n == 64
    ensures value > 0 ==> n < 64 && Bit(value, n) && forall j | 0 <= j < n :: !Bit(value, j)
  {
    n := 0;
    var v := value;
    if v == 0 { return 64; }
    while v % 2 == 0
      invariant v > 0 && LowBit(value) == n + LowBit(v)
      decreases v
    {
      v := v / 2;
      n := n + 1;
    }
    Pow2Values();
    LowBitIsLowest(value, 64);
  }
}
