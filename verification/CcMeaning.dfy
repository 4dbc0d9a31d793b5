/** What the operators compute, said without the functions that compute it: exact
    results by their defining relations, and the values of expression nodes as the
    numbers of their type congruent to them. */
module CcMeaning {
  import opened Options
  import opened Words
  import opened RvArith
  import opened RvMachine
  import opened CcSource
  import opened CcFold

  // ----- exact results -----

  /** bit i of a two's complement number of any width */
  predicate BitOf(v: int, i: nat) { v / Pow2(i) % 2 == 1 }

  /** q and r are C's quotient and remainder: r is smaller than the divisor and has the
      sign of the dividend */
  predicate Divides(a: int, b: int, q: int, r: int) {
    a == q * b + r && (if b < 0 then b < r < -b else -b < r < b) && (r != 0 ==> (r < 0 <==> a < 0))
  }

  /** what a bitwise operator does to single bits */
  predicate BitResult(op: ArithOp, x: bool, y: bool) {
    match op
    case BitAnd => x && y
    case BitOr => x || y
    case _ => x != y
  }

  ghost predicate BitRight(op: ArithOp, a: int, b: int, x: int, i: nat) {
    BitOf(x, i) <==> BitResult(op, BitOf(a, i), BitOf(b, i))
  }

  /** x is what op gives for a and b, before any truncation; division by zero and shift
      counts beyond 63 as RISC-V has them */
  ghost predicate Exact(op: ArithOp, a: int, b: int, x: int) {
    match op
    case Add => x == a + b
    case Sub => x + b == a
    case Mul => x == a * b
    case Div => if b == 0 then x == -1 else exists r {:trigger Divides(a, b, x, r)} :: Divides(a, b, x, r)
    case Mod => if b == 0 then x == a else exists q {:trigger Divides(a, b, q, x)} :: Divides(a, b, q, x)
    case Shl => x == a * Pow2(b % 64)
    case Shr => x * Pow2(b % 64) <= a < (x + 1) * Pow2(b % 64)
    case _ => InS64(x) && forall i: nat {:trigger BitRight(op, a, b, x, i)} | i < XLEN :: BitRight(op, a, b, x, i)
  }

  lemma DivisionDivides(a: int, b: int)
    requires b != 0
    ensures Divides(a, b, TruncDiv(a, b), TruncRem(a, b))
  {
    if a >= 0 {
      assert a == b * (a / b) + a % b;
    } else {
      assert -a == b * ((-a) / b) + (-a) % b;
    }
  }

  lemma DividesUnique(a: int, b: int, q: int, r: int, q': int, r': int)
    requires b != 0 && Divides(a, b, q, r) && Divides(a, b, q', r')
    ensures q == q' && r == r'
  {
    assert (q - q') * b == r' - r;
    var d, m := if q > q' then q - q' else q' - q, if b < 0 then -b else b;
    assert d * m == r' - r || d * m == r - r';
    if d >= 1 { AtLeastOnce(d, m); }
  }

  lemma {:induction false} LowBit(f: BitFn, op: ArithOp, a: int, b: int, n: nat, i: nat)
    requires i < n && (op == match f case BAnd => BitAnd case BOr => BitOr case BXor => BitXor)
    ensures BitOf(BitsLow(f, a, b, n), i) <==> BitResult(op, BitOf(a, i), BitOf(b, i))
    decreases n
  {
    var r, low := BitsLow(f, a, b, n), BitsLow(f, a / 2, b / 2, n - 1);
    assert r / 2 == low && r % 2 == Bit1(f, a % 2, b % 2);
    if i > 0 {
      LowBit(f, op, a / 2, b / 2, n - 1, i - 1);
      Halved(r, i);
      Halved(a, i);
      Halved(b, i);
    }
  }

  lemma Halved(v: int, i: nat)
    requires i > 0
    ensures BitOf(v, i) <==> BitOf(v / 2, i - 1)
  {
    var p := Pow2(i - 1);
    var q, r := v / 2 / p, v / 2 % p;
    assert v / 2 == q * p + r;
    assert v == q * (2 * p) + (2 * r + v % 2);
    ModIs(v, 2 * p, q, 2 * r + v % 2);
  }

  /** the low 64 bits of a wrapped number are its own */
  lemma WrappedBit(v: nat, i: nat)
    requires i < XLEN && v < M64
    ensures BitOf(Wrap64(v), i) <==> BitOf(v, i)
  {
    WrapSmall(v);
    if v >= H64 {
      var n := XLEN;
      var k: nat := n - i - 1;
      Pow2Values();
      Pow2Sum(i, k + 1);
      LowerBit(v, i, Pow2(k), M64);
    }
  }

  /** taking off a multiple of twice the place value leaves the bit alone */
  lemma LowerBit(v: int, i: nat, h: nat, m: int)
    requires m == Pow2(i) * (2 * h)
    ensures BitOf(v - m, i) <==> BitOf(v, i)
  {
    var p := Pow2(i);
    var q, r := v / p, v % p;
    assert v - m == (q - 2 * h) * p + r;
    ModIs(v - m, p, q - 2 * h, r);
  }

  lemma BitwiseBits(f: BitFn, op: ArithOp, a: int, b: int)
    requires op == match f case BAnd => BitAnd case BOr => BitOr case BXor => BitXor
    ensures Exact(op, a, b, Bitwise(f, a, b))
  {
    var n := XLEN;
    Pow2Values();
    var x := Bitwise(f, a, b);
    forall i: nat {:trigger BitRight(op, a, b, x, i)} | i < n ensures BitRight(op, a, b, x, i) {
      LowBit(f, op, a, b, n, i);
      WrappedBit(BitsLow(f, a, b, n), i);
    }
  }

  /** 64 bits determine a 64-bit number */
  lemma {:induction false} BitsDetermine(x: int, y: int, n: nat)
    requires forall i: nat {:trigger BitOf(x, i)} | i < n :: BitOf(x, i) <==> BitOf(y, i)
    ensures (x - y) % Pow2(n) == 0
    decreases n
  {
    if n > 0 {
      assert BitOf(x, 0) <==> BitOf(y, 0);
      forall i: nat {:trigger BitOf(x / 2, i)} | i < n - 1 ensures BitOf(x / 2, i) <==> BitOf(y / 2, i) {
        Halved(x, i + 1);
        Halved(y, i + 1);
        assert BitOf(x, i + 1) <==> BitOf(y, i + 1);
      }
      BitsDetermine(x / 2, y / 2, n - 1);
      var p := Pow2(n - 1);
      assert x - y == 2 * (x / 2 - y / 2);
      DoubleMod(x / 2 - y / 2, p);
    }
  }

  lemma BitsUnique(op: ArithOp, a: int, b: int, x: int, y: int)
    requires (op.BitAnd? || op.BitOr? || op.BitXor?) && Exact(op, a, b, x) && Exact(op, a, b, y)
    ensures x == y
  {
    var n := XLEN;
    forall i: nat {:trigger BitOf(x, i)} | i < n ensures BitOf(x, i) <==> BitOf(y, i) {
      assert BitRight(op, a, b, x, i) && BitRight(op, a, b, y, i);
    }
    BitsDetermine(x, y, n);
    Pow2Values();
    DiffZero(x, y);
  }

  lemma ShiftedRight(a: int, n: int)
    ensures var x := ShiftRight(a, n); x * Pow2(n % 64) <= a < (x + 1) * Pow2(n % 64)
  {
    var p := Pow2(n % 64);
    assert a == a / p * p + a % p;
  }

  lemma FloorUnique(a: int, p: nat, x: int, y: int)
    requires p > 0 && x * p <= a < (x + 1) * p && y * p <= a < (y + 1) * p
    ensures x == y
  {
    ModIs(a, p, x, a - x * p);
    ModIs(a, p, y, a - y * p);
  }

  lemma ComputesExact(op: ArithOp, a: int, b: int)
    ensures Exact(op, a, b, ArithValue(op, a, b))
  {
    match op
    case Div => if b != 0 { DivisionDivides(a, b); }
    case Mod => if b != 0 { DivisionDivides(a, b); }
    case BitAnd => BitwiseBits(BAnd, op, a, b);
    case BitOr => BitwiseBits(BOr, op, a, b);
    case BitXor => BitwiseBits(BXor, op, a, b);
    case Shr => ShiftedRight(a, b);
    case _ =>
  }

  /** The function both the source language and the machine use gives the exact result
      and nothing else does. */
  lemma ArithMeans(op: ArithOp, a: int, b: int, x: int)
    ensures Exact(op, a, b, x) <==> x == ArithValue(op, a, b)
  {
    ComputesExact(op, a, b);
    if Exact(op, a, b, x) {
      match op
      case Div =>
        if b != 0 {
          var r :| Divides(a, b, x, r);
          DivisionDivides(a, b);
          DividesUnique(a, b, x, r, TruncDiv(a, b), TruncRem(a, b));
        }
      case Mod =>
        if b != 0 {
          var q :| Divides(a, b, q, x);
          DivisionDivides(a, b);
          DividesUnique(a, b, q, x, TruncDiv(a, b), TruncRem(a, b));
        }
      case Shr => FloorUnique(a, Pow2(b % 64), x, ShiftRight(a, b));
      case BitAnd => BitsUnique(op, a, b, x, ArithValue(op, a, b));
      case BitOr => BitsUnique(op, a, b, x, ArithValue(op, a, b));
      case BitXor => BitsUnique(op, a, b, x, ArithValue(op, a, b));
      case _ =>
    }
  }

  // ----- values of nodes -----

  /** v is the value of the type that is congruent to x */
  predicate Reduced(ty: Ty, v: int, x: int) {
    InTy(ty, v) && (v - x) % (match ty case I32 => 0x1_0000_0000 case I64 => 0x1_0000_0000_0000_0000) == 0
  }

  lemma WrapReduces(ty: Ty, x: int, v: int)
    ensures Reduced(ty, v, x) <==> v == Wrap(ty, x)
  {
    match ty
    case I32 => ReducedIs(x, H32, M32, v);
    case I64 => ReducedIs(x, H64, M64, v);
  }

  lemma ReducedIs(x: int, h: int, m: nat, v: int)
    requires m == 2 * h > 0
    ensures (-h <= v < h && (v - x) % m == 0) <==> v == (x + h) % m - h
  {
    var q, r := (x + h) / m, (x + h) % m;
    assert x + h == q * m + r;
    if v == r - h {
      assert v - x == (-q) * m + 0;
      ModIs(v - x, m, -q, 0);
    } else if -h <= v < h && (v - x) % m == 0 {
      var k := (v - x) / m;
      assert x + h == (-k) * m + (v + h);
      ModIs(x + h, m, -k, v + h);
    }
  }

  /** shifts have the type of their left operand, other operators that of the wider */
  function OperatorType(op: ArithOp, l: Ty, r: Ty): Ty {
    if op.Shl? || op.Shr? then l else if l == I64 || r == I64 then I64 else I32
  }

  /** the types the parser gives: a constant is an int if it fits, comparisons and ! are
      ints, and one long operand or arm makes the whole long */
  lemma NodeTypes(e: Expr)
    ensures e.Num? ==> (TypeOf(e) == I32 <==> -0x8000_0000 <= e.v <= 0x7fff_ffff)
    ensures e.Cmp? || (e.Un? && e.u.Not?) ==> TypeOf(e) == I32
    ensures e.Un? && !e.u.Not? ==> TypeOf(e) == TypeOf(e.e)
    ensures e.Bin? ==> TypeOf(e) == OperatorType(e.op, TypeOf(e.l), TypeOf(e.r))
    ensures e.Logic? ==> (TypeOf(e) == I64 <==> TypeOf(e.l) == I64 || TypeOf(e.r) == I64)
    ensures e.Cond? ==> (TypeOf(e) == I64 <==> TypeOf(e.thn) == I64 || TypeOf(e.els) == I64)
    ensures e.Comma? ==> TypeOf(e) == TypeOf(e.r)
    ensures e.Var? || e.Assign? || e.OpAssign? || e.IncDec? || e.Cast? ==> TypeOf(e) == e.ty
  {
  }

  /** A binary node evaluates its operands from left to right; its value is the exact
      result of theirs, reduced to the type the two operands have in common. */
  lemma BinMeans(e: Expr, env: Env, x: int)
    requires e.Bin?
    ensures
      var (a, env1) := Eval(e.l, env);
      var (b, env2) := Eval(e.r, env1);
      && Eval(e, env).1 == env2
      && (Exact(e.op, a, b, x) ==> Reduced(OperatorType(e.op, TypeOf(e.l), TypeOf(e.r)), Eval(e, env).0, x))
  {
    var (a, env1) := Eval(e.l, env);
    var (b, env2) := Eval(e.r, env1);
    ArithMeans(e.op, a, b, x);
    WrapReduces(OperatorType(e.op, TypeOf(e.l), TypeOf(e.r)), x, Eval(e, env).0);
  }

  /** In particular C's division, where it is defined: any dividend, a divisor that is
      not zero, and a quotient that fits. */
  lemma DivisionMeans(e: Expr, env: Env, q: int, r: int)
    requires e.Bin? && (e.op.Div? || e.op.Mod?)
    ensures
      var (a, env1) := Eval(e.l, env);
      var (b, _) := Eval(e.r, env1);
      var x := if e.op.Div? then q else r;
      b != 0 && Divides(a, b, q, r) && InTy(OperatorType(e.op, TypeOf(e.l), TypeOf(e.r)), x) ==> Eval(e, env).0 == x
  {
    var (a, env1) := Eval(e.l, env);
    var (b, _) := Eval(e.r, env1);
    var x := if e.op.Div? then q else r;
    var ty := OperatorType(e.op, TypeOf(e.l), TypeOf(e.r));
    BinMeans(e, env, x);
    if b != 0 && Divides(a, b, q, r) && InTy(ty, x) { WrapReduces(ty, x, Eval(e, env).0); }
  }

  /** the value stored is reduced to the type of the variable, and is the value of the
      node unless that is a postfix one; x is the exact result of a compound assignment */
  ghost predicate StoreRight(e: Expr, env: Env, x: int)
    requires e.Assign? || e.OpAssign? || e.IncDec?
  {
    var (v, env2) := Eval(e, env);
    var stored := Lookup(env2, e.x);
    if e.IncDec? then
      && Reduced(e.ty, stored, Lookup(env, e.x) + e.delta)
      && v == (if e.prefix then stored else Lookup(env, e.x)) && env2 == env[e.x := stored]
    else
      var (b, env1) := Eval(e.rhs, env);
      && (e.Assign? ==> Reduced(e.ty, stored, b))
      && (e.OpAssign? && Exact(e.op, Lookup(env, e.x), b, x) ==> Reduced(e.ty, stored, x))
      && v == stored && env2 == env1[e.x := stored]
  }

  lemma StoreMeans(e: Expr, env: Env, x: int)
    requires e.Assign? || e.OpAssign? || e.IncDec?
    ensures StoreRight(e, env, x)
  {
    var stored := Lookup(Eval(e, env).1, e.x);
    if e.IncDec? {
      WrapReduces(e.ty, Lookup(env, e.x) + e.delta, stored);
    } else {
      var b := Eval(e.rhs, env).0;
      if e.Assign? {
        WrapReduces(e.ty, b, stored);
      } else {
        ArithMeans(e.op, Lookup(env, e.x), b, x);
        WrapReduces(e.ty, x, stored);
      }
    }
  }

  /** casts, negation, complement and logical negation */
  lemma UnMeans(e: Expr, env: Env)
    requires e.Un? || e.Cast?
    ensures Eval(e, env).1 == Eval(e.e, env).1
    ensures e.Cast? ==> Reduced(e.ty, Eval(e, env).0, Eval(e.e, env).0)
    ensures e.Un? && e.u.Neg? ==> Reduced(TypeOf(e.e), Eval(e, env).0, 0 - Eval(e.e, env).0)
    ensures e.Un? && e.u.BitNot? ==> Eval(e, env).0 + Eval(e.e, env).0 == -1
    ensures e.Un? && e.u.Not? ==> Eval(e, env).0 == if Eval(e.e, env).0 == 0 then 1 else 0
  {
    var a, v := Eval(e.e, env).0, Eval(e, env).0;
    if e.Cast? { WrapReduces(e.ty, a, v); } else if e.u.Neg? { WrapReduces(TypeOf(e.e), -a, v); }
  }

  /** Folding a binary node: an error exactly when an operand has no value or a divisor
      is zero, else the exact result reduced to 64 bits. */
  lemma FoldMeans(op: ArithOp, l: Expr, r: Expr, x: int)
    ensures
      var (a, b, v) := (EvalConst(l), EvalConst(r), EvalConst(Bin(op, l, r)));
      && (v.None? <==> a.None? || b.None? || (b.value == 0 && (op.Div? || op.Mod?)))
      && (v.Some? && Exact(op, a.value, b.value, x) ==> Reduced(I64, v.value, x))
  {
    var (a, b, v) := (EvalConst(l), EvalConst(r), EvalConst(Bin(op, l, r)));
    if v.Some? {
      ArithMeans(op, a.value, b.value, x);
      WrapReduces(I64, x, v.value);
    }
  }

  /** the machine's register operations */
  lemma InstructionMeans(op: ArithOp, a: int, b: int, x: int)
    requires Exact(op, a, b, x)
    ensures Reduced(I64, RegValue(Arith(op), a, b), x)
  {
    ArithMeans(op, a, b, x);
    WrapReduces(I64, x, RegValue(Arith(op), a, b));
  }

  /** -7 / 2 is -3 and -7 % 2 is -1 */
  lemma SevenHalves()
    ensures EvalConst(Bin(Div, Un(Neg, Num(7)), Num(2))) == Some(-3)
    ensures EvalConst(Bin(Mod, Un(Neg, Num(7)), Num(2))) == Some(-1)
  {
    var l, two := Un(Neg, Num(7)), Num(2);
    assert EvalConst(l) == Some(-7) && EvalConst(two) == Some(2);
    assert Divides(-7, 2, -3, -1);
    FoldMeans(Div, l, two, -3);
    FoldMeans(Mod, l, two, -1);
  }
}
