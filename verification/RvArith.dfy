/** Two's complement arithmetic on mathematical integers: wrapping to 32 and 64
    bits, truncating division, shifts and bitwise operators. */
module RvArith {
  import opened Words

  const H64: int := 0x8000_0000_0000_0000
  const M64: int := 0x1_0000_0000_0000_0000
  const H32: int := 0x8000_0000
  const M32: int := 0x1_0000_0000

  /** bits in a register */
  const XLEN: nat := 64

  predicate InS64(v: int) { -H64 <= v < H64 }
  predicate InS32(v: int) { -H32 <= v < H32 }

  function Wrap64(v: int): (w: int)
    ensures InS64(w)
    ensures InS64(v) ==> w == v
  {
    (v + H64) % M64 - H64
  }

  function Wrap32(v: int): (w: int)
    ensures InS32(w)
    ensures InS32(v) ==> w == v
  {
    (v + H32) % M32 - H32
  }

  lemma ModShift(x: int, k: int)
    ensures (x + k * M32) % M32 == x % M32
  {
    var q := x / M32;
    assert x + k * M32 == (q + k) * M32 + x % M32;
    ModUnique(x + k * M32, q + k, x % M32);
  }

  lemma ModUnique(x: int, q: int, r: int)
    requires x == q * M32 + r && 0 <= r < M32
    ensures x % M32 == r
  {
  }

  /** truncating to 32 bits only looks at the low 32 bits */
  lemma Wrap32Of64(v: int)
    ensures Wrap32(Wrap64(v)) == Wrap32(v)
  {
    var q := (v + H64) / M64;
    assert Wrap64(v) == v - q * M64;
    assert v + H32 - q * M64 == (v + H32) + (-q * M32) * M32;
    ModShift(v + H32, -q * M32);
  }

  /** C division truncates toward zero */
  function TruncDiv(a: int, b: int): int
    requires b != 0
  {
    if a >= 0 then a / b else -((-a) / b)
  }

  /** C remainder has the sign of the dividend */
  function TruncRem(a: int, b: int): int
    requires b != 0
  {
    a - b * TruncDiv(a, b)
  }

  /** what RISC-V div and rem leave for a zero divisor */
  function DivOrOnes(a: int, b: int): int { if b == 0 then -1 else TruncDiv(a, b) }
  function RemOrSelf(a: int, b: int): int { if b == 0 then a else TruncRem(a, b) }

  function ShiftLeft(a: int, n: int): int { a * Pow2(n % 64) }

  /** arithmetic shift: floor division */
  function ShiftRight(a: int, n: int): int { a / Pow2(n % 64) }

  datatype BitFn = BAnd | BOr | BXor

  function Bit1(f: BitFn, x: int, y: int): int {
    match f
    case BAnd => if x == 1 && y == 1 then 1 else 0
    case BOr => if x == 1 || y == 1 then 1 else 0
    case BXor => if x != y then 1 else 0
  }

  /** the low n bits of a bitwise operation on two's complement integers */
  function BitsLow(f: BitFn, a: int, b: int, n: nat): (r: nat)
    ensures r < Pow2(n)
    decreases n
  {
    if n == 0 then 0 else Bit1(f, a % 2, b % 2) + 2 * BitsLow(f, a / 2, b / 2, n - 1)
  }

  /** a bitwise operation on 64-bit values */
  function Bitwise(f: BitFn, a: int, b: int): (r: int)
    ensures InS64(r)
  {
    Wrap64(BitsLow(f, a, b, XLEN))
  }

  lemma {:induction false} XorZero(a: int, b: int, n: nat)
    ensures BitsLow(BXor, a, b, n) == 0 <==> (a - b) % Pow2(n) == 0
    decreases n
  {
    if n != 0 {
      XorZero(a / 2, b / 2, n - 1);
      XorZeroStep(a, b, Pow2(n - 1), BitsLow(BXor, a / 2, b / 2, n - 1));
    }
  }

  lemma XorZeroStep(a: int, b: int, p: nat, low: nat)
    requires p > 0 && (low == 0 <==> (a / 2 - b / 2) % p == 0)
    ensures Bit1(BXor, a % 2, b % 2) + 2 * low == 0 <==> (a - b) % (2 * p) == 0
  {
    if a % 2 == b % 2 {
      assert a - b == 2 * (a / 2 - b / 2);
      DoubleMod(a / 2 - b / 2, p);
    } else {
      OddMod(a - b, p);
    }
  }

  lemma DoubleMod(x: int, p: nat)
    requires p > 0
    ensures (2 * x) % (2 * p) == 2 * (x % p)
  {
    var q, r := x / p, x % p;
    assert 2 * x == q * (2 * p) + 2 * r;
    ModIs(2 * x, 2 * p, q, 2 * r);
  }

  lemma ModIs(x: int, m: nat, q: int, r: int)
    requires m > 0 && x == q * m + r && 0 <= r < m
    ensures x % m == r && x / m == q
  {
    SameQuotient(m, x / m, x % m, q, r);
  }

  lemma SameQuotient(m: nat, q: int, r: int, q': int, r': int)
    requires q * m + r == q' * m + r' && 0 <= r < m && 0 <= r' < m
    ensures q == q' && r == r'
  {
    assert (q - q') * m == r' - r;
    if q > q' { AtLeastOnce(q - q', m); }
    assert (q' - q) * m == r - r';
    if q < q' { AtLeastOnce(q' - q, m); }
  }

  lemma AtLeastOnce(k: int, m: nat)
    requires k >= 1
    ensures k * m >= m
  {
    assert (k - 1) * m >= 0;
  }

  lemma OddMod(x: int, p: nat)
    requires p > 0 && x % 2 == 1
    ensures x % (2 * p) != 0
  {
    var q := x / (2 * p);
    assert x == q * (2 * p) + x % (2 * p);
    assert q * (2 * p) == 2 * (q * p);
  }

  lemma WrapSmall(x: nat)
    requires x < M64
    ensures Wrap64(x) == if x < H64 then x else x - M64
  {
  }

  lemma DiffZero(a: int, b: int)
    requires InS64(a) && InS64(b)
    ensures (a - b) % M64 == 0 <==> a == b
  {
  }

  /** equality by xor */
  lemma XorEq(a: int, b: int)
    requires InS64(a) && InS64(b)
    ensures Bitwise(BXor, a, b) == 0 <==> a == b
  {
    Pow2Values();
    XorZero(a, b, XLEN);
    DiffZero(a, b);
    WrapSmall(BitsLow(BXor, a, b, XLEN));
  }

  lemma {:induction false} XorOnes(a: int, n: nat)
    ensures BitsLow(BXor, a, -1, n) == Pow2(n) - 1 - a % Pow2(n)
    decreases n
  {
    if n != 0 {
      XorOnes(a / 2, n - 1);
      assert -1 / 2 == -1 && -1 % 2 == 1;
      HalfMod(a, Pow2(n - 1));
    }
  }

  lemma HalfMod(a: int, p: nat)
    requires p > 0
    ensures a % (2 * p) == a % 2 + 2 * ((a / 2) % p)
  {
    var q, r := (a / 2) / p, (a / 2) % p;
    assert a / 2 == q * p + r;
    assert a == q * (2 * p) + (a % 2 + 2 * r);
    ModIs(a, 2 * p, q, a % 2 + 2 * r);
  }

  /** complement by xor */
  lemma XorNot(a: int)
    requires InS64(a)
    ensures Bitwise(BXor, a, -1) == -1 - a
  {
    Pow2Values();
    XorOnes(a, XLEN);
    WrapSmall(BitsLow(BXor, a, -1, XLEN));
    LowBits(a);
  }

  lemma LowBits(a: int)
    requires InS64(a)
    ensures a % M64 == if a >= 0 then a else a + M64
  {
  }

  lemma {:induction false} OrDisjoint(x: int, b: int, k: nat, n: nat)
    requires 0 <= b < Pow2(k) && k <= n
    ensures BitsLow(BOr, x * Pow2(k), b, n) == (x * Pow2(k) + b) % Pow2(n)
    decreases n
  {
    if n == 0 {
    } else if k == 0 {
      OrZero(x, n);
    } else {
      var p := Pow2(k - 1);
      assert x * Pow2(k) == 2 * (x * p);
      OrDisjoint(x, b / 2, k - 1, n - 1);
      HalfMod(x * Pow2(k) + b, Pow2(n - 1));
      assert (x * Pow2(k) + b) / 2 == x * p + b / 2;
    }
  }

  lemma {:induction false} OrZero(x: int, n: nat)
    ensures BitsLow(BOr, x, 0, n) == x % Pow2(n)
    decreases n
  {
    if n != 0 {
      OrZero(x / 2, n - 1);
      HalfMod(x, Pow2(n - 1));
    }
  }

  datatype ArithOp = Add | Sub | Mul | Div | Mod | BitAnd | BitOr | BitXor | Shl | Shr

  /** the exact result of an integer operation, before any truncation; a zero
      divisor and shift counts beyond 63 are resolved as RISC-V does */
  function ArithValue(op: ArithOp, a: int, b: int): int {
    match op
    case Add => a + b
    case Sub => a - b
    case Mul => a * b
    case Div => DivOrOnes(a, b)
    case Mod => RemOrSelf(a, b)
    case BitAnd => Bitwise(BAnd, a, b)
    case BitOr => Bitwise(BOr, a, b)
    case BitXor => Bitwise(BXor, a, b)
    case Shl => ShiftLeft(a, b)
    case Shr => ShiftRight(a, b)
  }
}
