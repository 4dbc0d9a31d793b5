/** The source language: expressions over signed int and long locals, as the
    parser hands them to the code generator, and their meaning in terms of
    mathematical integers truncated to each node's type. Where C leaves a result
    undefined (division by zero, shift counts beyond the width) it is what the
    RISC-V instruction gives. */
module CcSource {
  import opened RvArith

  /** int and long */
  datatype Ty = I32 | I64

  type BinOp = ArithOp
  datatype CmpOp = Eq | Ne | Lt | Le | Gt | Ge
  datatype UnOp = Not | Neg | BitNot

  /** A local variable is named by its frame offset. */
  datatype Expr =
    | Num(v: int)
    | Var(x: nat, ty: Ty)
    | Assign(x: nat, ty: Ty, rhs: Expr)
    | OpAssign(op: BinOp, x: nat, ty: Ty, rhs: Expr)
    | IncDec(prefix: bool, delta: int, x: nat, ty: Ty)
    | Bin(op: BinOp, l: Expr, r: Expr)
    | Cmp(c: CmpOp, l: Expr, r: Expr)
    | Logic(or: bool, l: Expr, r: Expr)
    | Un(u: UnOp, e: Expr)
    | Cast(ty: Ty, e: Expr)
    | Cond(cnd: Expr, thn: Expr, els: Expr)
    | Comma(l: Expr, r: Expr)

  function Wrap(ty: Ty, v: int): int {
    match ty case I32 => Wrap32(v) case I64 => Wrap64(v)
  }

  predicate InTy(ty: Ty, v: int) {
    match ty case I32 => InS32(v) case I64 => InS64(v)
  }

  function Wider(a: Ty, b: Ty): Ty { if a.I64? || b.I64? then I64 else I32 }

  /** the type new_num, new_binary, new_cmp, new_unary and the rest assign */
  function TypeOf(e: Expr): Ty {
    match e
    case Num(v) => if InS32(v) then I32 else I64
    case Var(_, ty) => ty
    case Assign(_, ty, _) => ty
    case OpAssign(_, _, ty, _) => ty
    case IncDec(_, _, _, ty) => ty
    case Bin(op, l, r) => if op.Shl? || op.Shr? then TypeOf(l) else Wider(TypeOf(l), TypeOf(r))
    case Cmp(_, _, _) => I32
    case Logic(_, l, r) => Wider(TypeOf(l), TypeOf(r))
    case Un(u, e1) => if u.Not? then I32 else TypeOf(e1)
    case Cast(ty, _) => ty
    case Cond(_, t, f) => Wider(TypeOf(t), TypeOf(f))
    case Comma(_, r) => TypeOf(r)
  }

  function Truth(b: bool): int { if b then 1 else 0 }

  function CmpValue(c: CmpOp, a: int, b: int): int {
    match c
    case Eq => Truth(a == b)
    case Ne => Truth(a != b)
    case Lt => Truth(a < b)
    case Le => Truth(a <= b)
    case Gt => Truth(a > b)
    case Ge => Truth(a >= b)
  }

  function UnValue(u: UnOp, ty: Ty, a: int): int {
    match u
    case Not => Truth(a == 0)
    case Neg => Wrap(ty, -a)
    case BitNot => -1 - a
  }

  /** values of the locals */
  type Env = map<nat, int>

  function Lookup(env: Env, x: nat): int { if x in env then env[x] else 0 }

  /** value and side effects, left to right */
  function Eval(e: Expr, env: Env): (int, Env) {
    match e
    case Num(v) => (v, env)
    case Var(x, _) => (Lookup(env, x), env)
    case Assign(x, ty, rhs) =>
      var (v, env1) := Eval(rhs, env);
      (Wrap(ty, v), env1[x := Wrap(ty, v)])
    case OpAssign(op, x, ty, rhs) =>
      // the variable is read before the right-hand side is evaluated
      var a := Lookup(env, x);
      var (b, env1) := Eval(rhs, env);
      var v := Wrap(ty, ArithValue(op, a, b));
      (v, env1[x := v])
    case IncDec(prefix, d, x, ty) =>
      var a := Lookup(env, x);
      var v := Wrap(ty, a + d);
      (if prefix then v else a, env[x := v])
    case Bin(op, l, r) =>
      var (a, env1) := Eval(l, env);
      var (b, env2) := Eval(r, env1);
      (Wrap(TypeOf(e), ArithValue(op, a, b)), env2)
    case Cmp(c, l, r) =>
      var (a, env1) := Eval(l, env);
      var (b, env2) := Eval(r, env1);
      (CmpValue(c, a, b), env2)
    case Logic(or, l, r) =>
      // && and || look at the right operand only when the left one leaves it open
      var (a, env1) := Eval(l, env);
      if (a != 0) == or then (Truth(or), env1) else var (b, env2) := Eval(r, env1); (Truth(b != 0), env2)
    case Un(u, e1) =>
      var (a, env1) := Eval(e1, env);
      (UnValue(u, TypeOf(e1), a), env1)
    case Cast(ty, e1) =>
      var (a, env1) := Eval(e1, env);
      (Wrap(ty, a), env1)
    case Cond(c, t, f) =>
      var (a, env1) := Eval(c, env);
      if a != 0 then Eval(t, env1) else Eval(f, env1)
    case Comma(l, r) =>
      var (_, env1) := Eval(l, env);
      Eval(r, env1)
  }

  /** the function's locals: type by frame offset */
  type Layout = map<nat, Ty>

  predicate WfVar(x: nat, ty: Ty, lay: Layout) { x in lay && lay[x] == ty }

  /** variables are declared, constants fit in 64 bits, steps are one */
  predicate Wf(e: Expr, lay: Layout) {
    match e
    case Num(v) => InS64(v)
    case Var(x, ty) => WfVar(x, ty, lay)
    case Assign(x, ty, rhs) => WfVar(x, ty, lay) && Wf(rhs, lay)
    case OpAssign(_, x, ty, rhs) => WfVar(x, ty, lay) && Wf(rhs, lay)
    case IncDec(_, d, x, ty) => WfVar(x, ty, lay) && (d == 1 || d == -1)
    case Bin(_, l, r) => Wf(l, lay) && Wf(r, lay)
    case Cmp(_, l, r) => Wf(l, lay) && Wf(r, lay)
    case Logic(_, l, r) => Wf(l, lay) && Wf(r, lay)
    case Un(_, e1) => Wf(e1, lay)
    case Cast(_, e1) => Wf(e1, lay)
    case Cond(c, t, f) => Wf(c, lay) && Wf(t, lay) && Wf(f, lay)
    case Comma(l, r) => Wf(l, lay) && Wf(r, lay)
  }

  /** every local holds a value of its type */
  ghost predicate EnvOk(env: Env, lay: Layout) {
    forall x | x in lay :: x in env && InTy(lay[x], env[x])
  }

  /** Every node's value is in the range of the node's type, and stores keep
      locals in range. */
  lemma {:induction false} EvalInType(e: Expr, env: Env, lay: Layout)
    requires Wf(e, lay) && EnvOk(env, lay)
    ensures InTy(TypeOf(e), Eval(e, env).0) && EnvOk(Eval(e, env).1, lay)
    decreases e
  {
    match e
    case Num(v) =>
    case Var(x, ty) =>
    case Assign(x, ty, rhs) => EvalInType(rhs, env, lay);
    case OpAssign(op, x, ty, rhs) => EvalInType(rhs, env, lay);
    case IncDec(prefix, d, x, ty) =>
    case Bin(op, l, r) => EvalInType(l, env, lay); EvalInType(r, Eval(l, env).1, lay);
    case Cmp(c, l, r) => EvalInType(l, env, lay); EvalInType(r, Eval(l, env).1, lay);
    case Logic(or, l, r) => EvalInType(l, env, lay); EvalInType(r, Eval(l, env).1, lay);
    case Un(u, e1) => EvalInType(e1, env, lay);
    case Cast(ty, e1) => EvalInType(e1, env, lay);
    case Cond(c, t, f) =>
      EvalInType(c, env, lay);
      EvalInType(t, Eval(c, env).1, lay);
      EvalInType(f, Eval(c, env).1, lay);
    case Comma(l, r) => EvalInType(l, env, lay); EvalInType(r, Eval(l, env).1, lay);
  }
}
