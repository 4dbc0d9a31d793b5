/** Constant folding: truncate_const against the instructions of cast_to for every
    integer type, and eval_const against the meaning of expressions. */
module CcFold {
  import opened Options
  import opened Words
  import opened RvArith
  import opened RvMachine
  import opened CcMacros
  import opened CcSource
  import opened CcCode
  import opened CcFrame
  import opened CcExpr

  /** char, short, int and long, signed or unsigned */
  datatype Size = S1 | S2 | S4 | S8
  datatype IntType = IntType(size: Size, uns: bool)

  /** 2 to the number of bits */
  function Range(s: Size): nat {
    match s case S1 => 0x100 case S2 => 0x1_0000 case S4 => 0x1_0000_0000 case S8 => M64
  }

  function Bits(s: Size): nat { match s case S1 => 8 case S2 => 16 case S4 => 32 case S8 => 64 }

  /** what conversion to an integer type means: reduction modulo its range, into
      the values of the type; an unsigned long keeps its signed 64-bit pattern */
  function Convert(t: IntType, v: int): int {
    var r := Range(t.size);
    if t.uns && !t.size.S8? then v % r else Signed(v, r / 2, r)
  }

  /** v reduced modulo r into the range from -p, where r is 2 * p */
  function Signed(v: int, p: nat, r: nat): int
    requires r > 0
  {
    (v + p) % r - p
  }

  /** truncate_const, in 64-bit arithmetic */
  function TruncateConst(v: int, t: IntType): int {
    if t.size.S8? then v
    else
      if t.uns then Bitwise(BAnd, v, Range(t.size) - 1) else SignFix(v, Range(t.size) / 2, Range(t.size))
  }

  /** mask, flip the sign bit, subtract it */
  function SignFix(v: int, p: nat, r: nat): int { FlipSign(Bitwise(BAnd, v, r - 1), p) }

  function FlipSign(low: int, p: nat): int { Wrap64(Bitwise(BXor, low, p) - p) }

  /** the immediate operations cast_to applies to a0 */
  function CastOps(t: IntType): seq<(ImmOp, int)> {
    match t.size
    case S1 => if t.uns then [(ANDI, 0xff)] else [(SLLI, 56), (SRAI, 56)]
    case S2 => [(SLLI, 48), (if t.uns then SRLI else SRAI, 48)]
    case S4 => if t.uns then [(SLLI, 32), (SRLI, 32)] else [(ADDIW, 0)]
    case S8 => []
  }

  function Apply(ops: seq<(ImmOp, int)>, v: int): int
    decreases |ops|
  {
    if ops == [] then v else Apply(ops[1..], ImmValue(ops[0].0, v, ops[0].1))
  }

  lemma Widths()
    ensures Pow2(8) == 0x100 && Pow2(16) == 0x1_0000 && Pow2(32) == 0x1_0000_0000 && Pow2(48) == 0x1_0000_0000_0000
    ensures Pow2(56) == 0x100_0000_0000_0000
    ensures Pow2(7) == 0x80 && Pow2(15) == 0x8000 && Pow2(31) == 0x8000_0000
  {
    Pow2Values();
    Pow2Sum(5, 3); Pow2Sum(8, 8); Pow2Sum(16, 32); Pow2Sum(48, 8); Pow2Sum(1, 7); Pow2Sum(1, 15); Pow2Sum(1, 31);
    assert Pow2(3) == 8 && Pow2(1) == 2;
  }

  // ----- masks and sign bits -----

  lemma {:induction false} AndLow(v: int, mask: int, k: nat, n: nat)
    requires k <= n && mask == Pow2(k) - 1
    ensures BitsLow(BAnd, v, mask, n) == v % Pow2(k)
    decreases n
  {
    if k == 0 {
      AndNothing(v, n);
    } else {
      var p := Pow2(k - 1);
      assert mask == 2 * (p - 1) + 1;
      HalfMask(mask, p - 1);
      AndLow(v / 2, mask / 2, k - 1, n - 1);
      HalfMod(v, p);
    }
  }

  lemma HalfMask(m: int, h: int)
    requires m == 2 * h + 1
    ensures m / 2 == h && m % 2 == 1
  {
  }

  lemma {:induction false} AndNothing(v: int, n: nat)
    ensures BitsLow(BAnd, v, 0, n) == 0
    decreases n
  {
    if n != 0 { AndNothing(v / 2, n - 1); }
  }

  /** xor with one bit flips it */
  lemma {:induction false} XorBit(x: nat, k: nat, n: nat)
    requires k < n && x < 2 * Pow2(k)
    ensures BitsLow(BXor, x, Pow2(k), n) == if x < Pow2(k) then x + Pow2(k) else x - Pow2(k)
    decreases n
  {
    if k == 0 {
      XorSame(x / 2, n - 1);
    } else {
      assert Pow2(k) / 2 == Pow2(k - 1) && Pow2(k) % 2 == 0;
      XorBit(x / 2, k - 1, n - 1);
    }
  }

  lemma {:induction false} XorSame(z: int, n: nat)
    requires z == 0
    ensures BitsLow(BXor, z, z, n) == 0
    decreases n
  {
    if n != 0 { XorSame(z / 2, n - 1); }
  }

  /** Bitwise with its width as a variable */
  lemma BitwiseLow(f: BitFn, a: int, b: int, n: nat)
    requires n == XLEN && BitsLow(f, a, b, n) < H64
    ensures Bitwise(f, a, b) == BitsLow(f, a, b, n)
  {
    WrapSmall(BitsLow(f, a, b, n));
  }

  lemma SmallPow(k: nat, n: nat)
    requires k < n == 63
    ensures 2 * Pow2(k) <= H64
  {
    Pow2Mono(k, n);
    Pow2Values();
    Pow2Sum(1, n);
    assert Pow2(1) == 2;
  }

  lemma Masked(v: int, k: nat, mask: int, r: nat)
    requires k < 63 && r == Pow2(k) && mask == r - 1
    ensures Bitwise(BAnd, v, mask) == v % r
  {
    var n := XLEN;
    SmallPow(k, n - 1);
    AndLow(v, mask, k, n);
    BitwiseLow(BAnd, v, mask, n);
  }

  lemma SignBit(x: nat, k: nat, p: nat)
    requires k < 62 && p == Pow2(k) && x < 2 * p
    ensures Bitwise(BXor, x, p) == (if x < p then x + p else x - p) && 4 * p <= H64
  {
    var n := XLEN;
    SmallPow(k + 1, n - 1);
    XorBit(x, k, n);
    BitwiseLow(BXor, x, p, n);
  }

  lemma Flipped(y: int, x: nat, p: nat)
    requires 4 * p <= H64 && x < 2 * p && y == if x < p then x + p else x - p
    ensures Wrap64(y - p) == if x < p then x else x - 2 * p
  {
  }

  lemma SignedMod(v: int, p: nat)
    requires p > 0
    ensures (v + p) % (2 * p) - p == if v % (2 * p) < p then v % (2 * p) else v % (2 * p) - 2 * p
  {
    var q, r := v / (2 * p), v % (2 * p);
    assert v == q * (2 * p) + r;
    if r < p { ModIs(v + p, 2 * p, q, r + p); } else { ModIs(v + p, 2 * p, q + 1, r - p); }
  }

  lemma SizeHalf(s: Size)
    ensures Pow2(Bits(s) - 1) == Range(s) / 2 && Range(s) == 2 * (Range(s) / 2)
    ensures (s != S8 ==> Pow2(Bits(s)) == Range(s))
  {
    Widths();
    Pow2Values();
    if s == S8 { Pow2Sum(1, 63); assert Pow2(1) == 2; }
  }

  /** truncate_const converts, for every 64-bit value and every integer type */
  lemma TruncateConverts(v: int, t: IntType)
    requires InS64(v)
    ensures TruncateConst(v, t) == Convert(t, v)
  {
    if t.size.S8? {
    } else if t.uns {
      SizeHalf(t.size);
      Masked(v, Bits(t.size), Range(t.size) - 1, Range(t.size));
    } else {
      TruncateSigned(v, t.size);
    }
  }

  lemma TruncateSigned(v: int, size: Size)
    requires InS64(v) && !size.S8?
    ensures TruncateConst(v, IntType(size, false)) == Convert(IntType(size, false), v)
  {
    var r, p := Range(size), Range(size) / 2;
    SizeHalf(size);
    TruncateVia(v, Bits(size) - 1, p, r);
  }

  lemma TruncateVia(v: int, k: nat, p: nat, r: nat)
    requires k < 62 && p == Pow2(k) && r == 2 * p
    ensures SignFix(v, p, r) == Signed(v, p, r)
  {
    SignFixIs(v, p, r);
    var low := Bitwise(BAnd, v, r - 1);
    FlipSignIs(low, p);
    FlipMasked(v, k, p, r, low, Bitwise(BXor, low, p));
  }

  lemma SignFixIs(v: int, p: nat, r: nat)
    ensures SignFix(v, p, r) == FlipSign(Bitwise(BAnd, v, r - 1), p)
  {
  }

  lemma FlipMasked(v: int, k: nat, p: nat, r: nat, low: int, y: int)
    requires k < 62 && p == Pow2(k) && r == 2 * p && low == Bitwise(BAnd, v, r - 1) && y == Bitwise(BXor, low, p)
    ensures Wrap64(y - p) == Signed(v, p, r)
  {
    MaskedLow(v, k + 1, r, low);
    FlipCorrect(low, k, p, y);
    SignedIs(v, p, r, low);
  }

  lemma FlipSignIs(low: int, p: nat)
    ensures FlipSign(low, p) == Wrap64(Bitwise(BXor, low, p) - p)
  {
  }

  lemma FlipCorrect(low: nat, k: nat, p: nat, y: int)
    requires k < 62 && p == Pow2(k) && low < 2 * p && y == Bitwise(BXor, low, p)
    ensures Wrap64(y - p) == if low < p then low else low - 2 * p
  {
    SignFlip(low, k, p, y);
    Flipped(y, low, p);
  }

  lemma SignedIs(v: int, p: nat, r: nat, low: nat)
    requires p > 0 && r == 2 * p && low == v % r
    ensures Signed(v, p, r) == if low < p then low else low - 2 * p
  {
    SignedMod(v, p);
  }

  lemma SignFlip(low: nat, k: nat, p: nat, y: int)
    requires k < 62 && p == Pow2(k) && low < 2 * p && y == Bitwise(BXor, low, p)
    ensures y == (if low < p then low + p else low - p) && 4 * p <= H64
  {
    SignBit(low, k, p);
  }

  lemma MaskedLow(v: int, k: nat, r: nat, low: int)
    requires k < 63 && r == Pow2(k) && low == Bitwise(BAnd, v, r - 1)
    ensures low == v % r && 0 <= low < r
  {
    Masked(v, k, r - 1, r);
  }

  // ----- shifts -----

  /** shifting up and arithmetically down keeps the low 64 - s bits, signed */
  lemma UpDownSigned(v: int, s: nat, p: nat, r: nat)
    requires 0 < s < 64 && p == Pow2(s) && p * r == M64 && r % 2 == 0
    ensures ImmValue(SRAI, ImmValue(SLLI, v, s), s) == Signed(v, r / 2, r)
  {
    var h := r / 2;
    var u := (v + h) % r - h;
    var q := (v + h) / r;
    assert v == q * r + u;
    Distribute(v, q, r, u, p);
    assert h * p == H64;
    Scale(u, h, p);
    Wrap64Shift(v * p, q);
    assert Wrap64(v * p) == u * p;
    ModIs(u * p, p, u, 0);
    Shrink(u, h, p);
  }

  /** a bounded number stays bounded after scaling */
  lemma Scale(u: int, h: int, p: int)
    requires 0 - h <= u < h && p > 0
    ensures 0 - h * p <= u * p < h * p
  {
    Nonneg(u + h, p);
    Nonneg(h - u - 1, p);
    assert (u + h) * p == u * p + h * p;
    assert (h - u - 1) * p == h * p - u * p - p;
  }

  lemma Nonneg(a: int, p: int)
    requires a >= 0 && p >= 0
    ensures a * p >= 0
  {
  }

  lemma Shrink(u: int, h: int, p: int)
    requires 0 - h <= u < h && p > 0 && h * p == H64
    ensures InS64(u)
  {
    Nonneg(h, p - 1);
    assert h * (p - 1) == h * p - h;
  }

  /** shifting up and logically down keeps the low 64 - s bits, unsigned */
  lemma UpDownUnsigned(v: int, s: nat, p: nat, r: nat)
    requires 0 < s < 64 && p == Pow2(s) && p * r == M64 && 0 < r < H64
    ensures ImmValue(SRLI, ImmValue(SLLI, v, s), s) == v % r
  {
    var q, u := v / r, v % r;
    assert v == q * r + u;
    Distribute(v, q, r, u, p);
    SlliIs(v, s, p);
    ShiftUpDown(ImmValue(SLLI, v, s), v, q, u, s, p, r);
  }

  lemma SlliIs(v: int, s: nat, p: nat)
    requires s < 64 && p == Pow2(s)
    ensures ImmValue(SLLI, v, s) == Wrap64(v * p)
  {
  }

  lemma ShiftUpDown(w: int, v: int, q: int, u: nat, s: nat, p: nat, r: nat)
    requires 0 < s < 64 && p == Pow2(s) && p * r == M64 && u < r < H64 && w == Wrap64(v * p) && v * p == u * p + q * M64
    ensures ImmValue(SRLI, w, s) == u
  {
    Wrap64Shift(v * p, q);
    ShiftedUp(u, p, r);
    ShiftDown(w, u, s, p);
  }

  lemma ShiftedUp(u: nat, p: nat, r: nat)
    requires u < r && p * r == M64
    ensures 0 <= u * p < M64 && Unsigned(Wrap64(u * p)) == u * p
  {
    Nonneg(u, p);
    Nonneg(r - u - 1, p);
    assert (r - u - 1) * p == r * p - u * p - p;
    WrapSmall(u * p);
  }

  lemma ShiftDown(w: int, u: nat, s: nat, p: nat)
    requires 0 < s < 64 && p == Pow2(s) && Unsigned(w) == u * p && u < H64
    ensures ImmValue(SRLI, w, s) == u
  {
    ModIs(u * p, p, u, 0);
    assert s % 64 == s;
    assert ShiftRight(Unsigned(w), s) == u;
  }

  lemma Distribute(v: int, q: int, r: int, u: int, p: int)
    requires v == q * r + u && p * r == M64
    ensures v * p == u * p + q * M64
  {
    assert v * p == q * (r * p) + u * p;
  }

  lemma CastBytes(v: int, uns: bool)
    ensures Apply(CastOps(IntType(S1, uns)), v) == Convert(IntType(S1, uns), v)
  {
    Widths();
    if uns {
      ApplyOne(ANDI, 0xff, v);
      Masked(v, 8, 0xff, 0x100);
    } else {
      ApplyTwo(SLLI, 56, SRAI, 56, v);
      UpDownSigned(v, 56, 0x100_0000_0000_0000, 0x100);
    }
  }

  lemma CastShorts(v: int, uns: bool)
    ensures Apply(CastOps(IntType(S2, uns)), v) == Convert(IntType(S2, uns), v)
  {
    Widths();
    if uns {
      ApplyTwo(SLLI, 48, SRLI, 48, v);
      UpDownUnsigned(v, 48, 0x1_0000_0000_0000, 0x1_0000);
    } else {
      ApplyTwo(SLLI, 48, SRAI, 48, v);
      UpDownSigned(v, 48, 0x1_0000_0000_0000, 0x1_0000);
    }
  }

  lemma CastInts(v: int, uns: bool)
    ensures Apply(CastOps(IntType(S4, uns)), v) == Convert(IntType(S4, uns), v)
  {
    Widths();
    if uns {
      ApplyTwo(SLLI, 32, SRLI, 32, v);
      UpDownUnsigned(v, 32, M32, M32);
    } else {
      ApplyOne(ADDIW, 0, v);
    }
  }

  /** the instructions of cast_to convert, for every value and every integer type */
  lemma CastConverts(v: int, t: IntType)
    requires InS64(v)
    ensures Apply(CastOps(t), v) == Convert(t, v)
  {
    match t.size
    case S1 => CastBytes(v, t.uns);
    case S2 => CastShorts(v, t.uns);
    case S4 => CastInts(v, t.uns);
    case S8 =>
  }

  lemma ApplyOne(f: ImmOp, i: int, v: int)
    ensures Apply([(f, i)], v) == ImmValue(f, v, i)
  {
    assert [(f, i)][1..] == [];
  }

  lemma ApplyTwo(f: ImmOp, i: int, g: ImmOp, j: int, v: int)
    ensures Apply([(f, i), (g, j)], v) == ImmValue(g, ImmValue(f, v, i), j)
  {
    assert [(f, i), (g, j)][1..] == [(g, j)];
    ApplyOne(g, j, ImmValue(f, v, i));
  }

  /** Folding a cast gives what the emitted cast computes. */
  lemma FoldedCastAgrees(v: int, t: IntType)
    requires InS64(v)
    ensures TruncateConst(v, t) == Apply(CastOps(t), v)
  {
    TruncateConverts(v, t);
    CastConverts(v, t);
  }

  // ----- eval_const -----

  function TypeFor(ty: Ty): IntType { IntType(match ty case I32 => S4 case I64 => S8, false) }

  /** eval_const, in 64-bit arithmetic; None is its fatal error (a zero divisor or
      something that is not a constant expression) */
  function EvalConst(e: Expr): Option<int> {
    match e
    case Num(v) => Some(v)
    case Un(u, e1) =>
      (match EvalConst(e1)
       case None => None
       case Some(a) => Some(UnValue(u, I64, a)))
    case Cast(ty, e1) =>
      (match EvalConst(e1)
       case None => None
       case Some(a) => Some(TruncateConst(a, TypeFor(ty))))
    case Bin(op, l, r) =>
      (match (EvalConst(l), EvalConst(r))
       case (Some(a), Some(b)) => if (op.Div? || op.Mod?) && b == 0 then None else Some(Wrap64(ArithValue(op, a, b)))
       case _ => None)
    case Cmp(c, l, r) =>
      (match (EvalConst(l), EvalConst(r))
       case (Some(a), Some(b)) => Some(CmpValue(c, a, b))
       case _ => None)
    case Logic(or, l, r) =>
      (match EvalConst(l)
       case None => None
       case Some(a) =>
         if (a != 0) == or then Some(Truth(or))
         else
           (match EvalConst(r)
            case None => None
            case Some(b) => Some(Truth(b != 0))))
    case Cond(c, t, f) =>
      (match EvalConst(c)
       case None => None
       case Some(a) => if a != 0 then EvalConst(t) else EvalConst(f))
    case _ => None
  }

  /** every value that folding computes on the way is a value of its node's type */
  predicate InRange(e: Expr) {
    EvalConst(e).Some? && InTy(TypeOf(e), EvalConst(e).value) &&
    match e
    case Un(_, e1) => InRange(e1)
    case Cast(_, e1) => InRange(e1)
    case Bin(_, l, r) => InRange(l) && InRange(r)
    case Cmp(_, l, r) => InRange(l) && InRange(r)
    case Logic(or, l, r) => InRange(l) && ((EvalConst(l).value != 0) != or ==> InRange(r))
    case Cond(c, t, f) => InRange(c) && if EvalConst(c).value != 0 then InRange(t) else InRange(f)
    case _ => true
  }

  /** folding and running agree on e and on every part of it that is evaluated */
  predicate Agrees(e: Expr, env: Env) {
    EvalConst(e) == Some(Eval(e, env).0) &&
    match e
    case Un(_, e1) => Agrees(e1, env)
    case Cast(_, e1) => Agrees(e1, env)
    case Bin(_, l, r) => Agrees(l, env) && Agrees(r, env)
    case Cmp(_, l, r) => Agrees(l, env) && Agrees(r, env)
    case Logic(or, l, r) => Agrees(l, env) && ((Eval(l, env).0 != 0) != or ==> Agrees(r, env))
    case Cond(c, t, f) => Agrees(c, env) && if Eval(c, env).0 != 0 then Agrees(t, env) else Agrees(f, env)
    case _ => true
  }

  /** cutting a 64-bit result down to a type it already fits changes nothing */
  lemma NarrowFold(ty: Ty, v: int)
    requires InTy(ty, Wrap64(v))
    ensures Wrap(ty, v) == Wrap64(v)
  {
    Wrap32Of64(v);
  }

  lemma CastFold(ty: Ty, v: int)
    requires InS64(v)
    ensures TruncateConst(v, TypeFor(ty)) == Wrap(ty, v)
  {
    TruncateConverts(v, TypeFor(ty));
    ConvertIs(ty, v);
  }

  lemma ConvertIs(ty: Ty, v: int)
    requires InS64(v)
    ensures Convert(TypeFor(ty), v) == Wrap(ty, v)
  {
  }

  lemma UnFold(u: UnOp, ty: Ty, a: int)
    requires u.Neg? ==> InTy(ty, Wrap64(-a))
    ensures UnValue(u, I64, a) == UnValue(u, ty, a)
  {
    if u.Neg? { NarrowFold(ty, -a); }
  }

  lemma BinFold(e: Expr, env: Env, lay: Layout)
    requires e.Bin? && Wf(e, lay) && EnvOk(env, lay) && InRange(e)
    ensures Agrees(e, env) && Eval(e, env).1 == env
    decreases e, 0
  {
    FoldAgrees(e.l, env, lay);
    FoldAgrees(e.r, env, lay);
    NarrowFold(TypeOf(e), ArithValue(e.op, EvalConst(e.l).value, EvalConst(e.r).value));
  }

  /** Folding agrees with running: a constant expression whose folded values stay
      in range folds to its meaning, which by compiler correctness is what its
      code leaves in a0; and it has no effect on the locals. */
  lemma {:induction false} FoldAgrees(e: Expr, env: Env, lay: Layout)
    requires Wf(e, lay) && EnvOk(env, lay) && InRange(e)
    ensures Agrees(e, env) && EvalConst(e) == Some(Eval(e, env).0) && Eval(e, env).1 == env
    decreases e, 1
  {
    match e
    case Num(v) =>
    case Un(u, e1) =>
      FoldAgrees(e1, env, lay);
      UnFold(u, TypeOf(e1), Eval(e1, env).0);
    case Cast(ty, e1) =>
      FoldAgrees(e1, env, lay);
      EvalInType(e1, env, lay);
      CastFold(ty, Eval(e1, env).0);
    case Bin(op, l, r) => BinFold(e, env, lay);
    case Cmp(c, l, r) =>
      FoldAgrees(l, env, lay);
      FoldAgrees(r, env, lay);
    case Logic(or, l, r) =>
      FoldAgrees(l, env, lay);
      if (EvalConst(l).value != 0) != or { FoldAgrees(r, env, lay); }
    case Cond(c, t, f) =>
      FoldAgrees(c, env, lay);
      if EvalConst(c).value != 0 { FoldAgrees(t, env, lay); } else { FoldAgrees(f, env, lay); }
  }

  lemma FrameEnvOk(m: Machine, env: Env, lay: Layout)
    requires Frame(m, env, lay)
    ensures EnvOk(env, lay)
  {
    forall x | x in lay ensures x in env && InTy(lay[x], env[x]) { LocalInType(m, x, env, lay); }
  }

  /** the code of a constant expression leaves its folded value in a0 */
  lemma FoldedRuns(code: Code, e: Expr, m: Machine, env: Env, lay: Layout) returns (m': Machine)
    requires Ready(code, e, m, env, lay) && InRange(e)
    ensures Leads(code, m, m', |Comp(e)|, env, lay) && EvalConst(e) == Some(m'.regs[A0])
  {
    FrameEnvOk(m, env, lay);
    FoldAgrees(e, env, lay);
    m' := ExprCorrect(code, e, m, env, lay);
  }

  lemma {:induction false} AgreesInRange(e: Expr, env: Env, lay: Layout)
    requires Wf(e, lay) && EnvOk(env, lay) && Agrees(e, env)
    ensures InRange(e)
    decreases e
  {
    EvalInType(e, env, lay);
    match e
    case Un(_, e1) => AgreesInRange(e1, env, lay);
    case Cast(_, e1) => AgreesInRange(e1, env, lay);
    case Bin(_, l, r) => AgreesInRange(l, env, lay); AgreesInRange(r, env, lay);
    case Cmp(_, l, r) => AgreesInRange(l, env, lay); AgreesInRange(r, env, lay);
    case Logic(or, l, r) =>
      AgreesInRange(l, env, lay);
      if (EvalConst(l).value != 0) != or { AgreesInRange(r, env, lay); }
    case Cond(c, t, f) =>
      AgreesInRange(c, env, lay);
      if EvalConst(c).value != 0 { AgreesInRange(t, env, lay); } else { AgreesInRange(f, env, lay); }
    case _ =>
  }

  /** The condition is exact: folding and running agree on every evaluated part of
      an expression if and only if every folded value fits its node's type. */
  lemma FoldExactly(e: Expr, env: Env, lay: Layout)
    requires Wf(e, lay) && EnvOk(env, lay)
    ensures Agrees(e, env) <==> InRange(e)
  {
    if InRange(e) { FoldAgrees(e, env, lay); }
    if Agrees(e, env) { AgreesInRange(e, env, lay); }
  }

  /** The range condition matters: INT_MAX + 1 folds to 2147483648, its code
      computes -2147483648. */
  lemma FoldDiffersOnOverflow()
    ensures
      var e := Bin(Add, Num(0x7fff_ffff), Num(1));
      EvalConst(e) == Some(0x8000_0000) && Eval(e, map[]).0 == -0x8000_0000 && !InRange(e)
  {
    var a, b := Num(0x7fff_ffff), Num(1);
    assert TypeOf(a) == I32 && TypeOf(b) == I32;
    assert EvalConst(a) == Some(0x7fff_ffff) && EvalConst(b) == Some(1);
  }
}
