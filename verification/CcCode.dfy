/** The code gen_expr emits, with every jump already resolved: jumps inside an
    expression are relative, so the code does not depend on its position. */
module CcCode {
  import opened RvArith
  import opened RvMachine
  import opened CcMacros
  import opened CcSource

  function WidthOf(ty: Ty): Width { match ty case I32 => Word case I64 => Double }

  /** cast_to for int and long: addiw a0,a0,0 or nothing */
  function CastCode(ty: Ty): seq<Instr> {
    match ty case I32 => [OpImm(ADDIW, A0, A0, 0)] case I64 => []
  }

  /** gen_addr of a local */
  function AddrCode(x: nat): seq<Instr> { Addi(A0, S0, 0 - x) }

  function LoadCode(ty: Ty): seq<Instr> { [Load(WidthOf(ty), A0, A0, 0)] }
  function StoreCode(ty: Ty): seq<Instr> { [Store(WidthOf(ty), A1, A0, 0)] }

  /** the comparison tail of gen_bin */
  function CmpCode(c: CmpOp): seq<Instr> {
    match c
    case Eq => [Op(Arith(BitXor), A0, A0, A1), OpImm(SLTIU, A0, A0, 1)]
    case Ne => [Op(Arith(BitXor), A0, A0, A1), Op(SLTU, A0, X0, A0)]
    case Lt => [Op(SLT, A0, A0, A1)]
    case Gt => [Op(SLT, A0, A1, A0)]
    case Le => [Op(SLT, A0, A1, A0), OpImm(XORI, A0, A0, 1)]
    case Ge => [Op(SLT, A0, A0, A1), OpImm(XORI, A0, A0, 1)]
  }

  /** save a0, evaluate the right operand into a1, restore a0 */
  function RightCode(r: seq<Instr>): seq<Instr> {
    Push(A0) + (r + (Mv(A1, A0) + Pop(A0)))
  }

  /** store a1 at the address in a0, leave the value in a0 */
  function FinishStore(ty: Ty): seq<Instr> { StoreCode(ty) + (Mv(A0, A1) + CastCode(ty)) }

  /** jump_if_zero and jump_if_nonzero: skip the jump or take it */
  function JumpIf(zero: bool, words: int): seq<Instr> {
    [Branch(zero, A0, X0, 8), Jal(X0, 4 * words)]
  }

  /** && jumps to the final li when an operand is zero, || when it is not */
  function LogicCode(or: bool, cr: seq<Instr>): seq<Instr> {
    JumpIf(!or, |cr| + 5) + (cr + (JumpIf(!or, 3) + (Li(A0, Truth(!or)) + ([Jal(X0, 8)] + Li(A0, Truth(or))))))
  }

  function CondCode(ct: seq<Instr>, cf: seq<Instr>): seq<Instr> {
    JumpIf(true, |ct| + 2) + (ct + ([Jal(X0, 4 * (|cf| + 1))] + cf))
  }

  function UnCode(u: UnOp, ty: Ty): seq<Instr> {
    match u
    case Not => [OpImm(SLTIU, A0, A0, 1)]
    case Neg => [Op(Arith(Sub), A0, X0, A0)] + CastCode(ty)
    case BitNot => [OpImm(XORI, A0, A0, -1)]
  }

  /** the second half of gen_opassign: combine, and reload value and address */
  function OpAssignTail(op: ArithOp, ty: Ty): seq<Instr> {
    [Op(Arith(op), A0, A0, A1)] + (Push(A0) + (Pop(A1) + (Pop(A0) + FinishStore(ty))))
  }

  /** gen_incdec after the old value is in a0 and the address is pushed */
  function IncDecTail(prefix: bool, d: int, ty: Ty): seq<Instr> {
    Push(A0) + (Addi(A0, A0, d) + (Push(A0) + (Pop(A1) + (Pop(T0) + (Pop(T1) +
    (Mv(A0, T1) + (StoreCode(ty) + (Mv(A0, if prefix then A1 else T0) + CastCode(ty)))))))))
  }

  /** address, push it, load the old value */
  function OldValueCode(x: nat, ty: Ty): seq<Instr> { AddrCode(x) + (Push(A0) + LoadCode(ty)) }

  function Comp(e: Expr): seq<Instr> {
    match e
    case Num(v) => Li(A0, v)
    case Var(x, ty) => AddrCode(x) + LoadCode(ty)
    case Assign(x, ty, rhs) => AddrCode(x) + (RightCode(Comp(rhs)) + FinishStore(ty))
    case OpAssign(op, x, ty, rhs) => OldValueCode(x, ty) + (RightCode(Comp(rhs)) + OpAssignTail(op, ty))
    case IncDec(prefix, d, x, ty) => OldValueCode(x, ty) + IncDecTail(prefix, d, ty)
    case Bin(op, l, r) => Comp(l) + (RightCode(Comp(r)) + ([Op(Arith(op), A0, A0, A1)] + CastCode(TypeOf(e))))
    case Cmp(c, l, r) => Comp(l) + (RightCode(Comp(r)) + CmpCode(c))
    case Logic(or, l, r) => Comp(l) + LogicCode(or, Comp(r))
    case Un(u, e1) => Comp(e1) + UnCode(u, TypeOf(e1))
    case Cast(ty, e1) => Comp(e1) + CastCode(ty)
    case Cond(c, t, f) => Comp(c) + CondCode(Comp(t), Comp(f))
    case Comma(l, r) => Comp(l) + Comp(r)
  }

  function Max(a: nat, b: nat): nat { if a < b then b else a }

  /** how many 16-byte stack slots the evaluation needs */
  function Slots(e: Expr): nat {
    match e
    case Num(_) => 0
    case Var(_, _) => 0
    case Assign(_, _, rhs) => 1 + Slots(rhs)
    case OpAssign(_, _, _, rhs) => 2 + Slots(rhs)
    case IncDec(_, _, _, _) => 3
    case Bin(_, l, r) => Max(Slots(l), 1 + Slots(r))
    case Cmp(_, l, r) => Max(Slots(l), 1 + Slots(r))
    case Logic(_, l, r) => Max(Slots(l), Slots(r))
    case Un(_, e1) => Slots(e1)
    case Cast(_, e1) => Slots(e1)
    case Cond(c, t, f) => Max(Slots(c), Max(Slots(t), Slots(f)))
    case Comma(l, r) => Max(Slots(l), Slots(r))
  }

  /** What the code around an expression sees of it: its code, its meaning, and
      whether it is well formed and evaluates within n stack slots. Everything
      built from expressions is proved for any such view; the compiler's own is Cc. */
  datatype ExprLang = ExprLang(comp: Expr -> seq<Instr>, eval: (Expr, Env) -> (int, Env),
    ok: (Expr, Layout, nat) -> bool)

  function Cc(): ExprLang {
    ExprLang(e => Comp(e), (e, env) => Eval(e, env), (e, lay, n) => Wf(e, lay) && Slots(e) <= n)
  }

  ghost predicate MatchesAt(L: ExprLang, e: Expr) { L.comp(e) == Comp(e) }

  /** the code in a view is the compiler's */
  ghost predicate Matches(L: ExprLang) { forall e {:trigger MatchesAt(L, e)} :: MatchesAt(L, e) }

  /** one step of Comp, the operands' code seen through L */
  function CompVia(L: ExprLang, e: Expr): seq<Instr> {
    match e
    case Num(v) => Li(A0, v)
    case Var(x, ty) => AddrCode(x) + LoadCode(ty)
    case Assign(x, ty, rhs) => AddrCode(x) + (RightCode(L.comp(rhs)) + FinishStore(ty))
    case OpAssign(op, x, ty, rhs) => OldValueCode(x, ty) + (RightCode(L.comp(rhs)) + OpAssignTail(op, ty))
    case IncDec(prefix, d, x, ty) => OldValueCode(x, ty) + IncDecTail(prefix, d, ty)
    case Bin(op, l, r) => L.comp(l) + (RightCode(L.comp(r)) + ([Op(Arith(op), A0, A0, A1)] + CastCode(TypeOf(e))))
    case Cmp(c, l, r) => L.comp(l) + (RightCode(L.comp(r)) + CmpCode(c))
    case Logic(or, l, r) => L.comp(l) + LogicCode(or, L.comp(r))
    case Un(u, e1) => L.comp(e1) + UnCode(u, TypeOf(e1))
    case Cast(ty, e1) => L.comp(e1) + CastCode(ty)
    case Cond(c, t, f) => L.comp(c) + CondCode(L.comp(t), L.comp(f))
    case Comma(l, r) => L.comp(l) + L.comp(r)
  }

  lemma CompIs(L: ExprLang, e: Expr)
    requires Matches(L)
    ensures L.comp(e) == CompVia(L, e)
  {
    assert MatchesAt(L, e);
    match e
    case Assign(_, _, rhs) => assert MatchesAt(L, rhs);
    case OpAssign(_, _, _, rhs) => assert MatchesAt(L, rhs);
    case Bin(_, l, r) => assert MatchesAt(L, l) && MatchesAt(L, r);
    case Cmp(_, l, r) => assert MatchesAt(L, l) && MatchesAt(L, r);
    case Logic(_, l, r) => assert MatchesAt(L, l) && MatchesAt(L, r);
    case Un(_, e1) => assert MatchesAt(L, e1);
    case Cast(_, e1) => assert MatchesAt(L, e1);
    case Cond(c, t, f) => assert MatchesAt(L, c) && MatchesAt(L, t) && MatchesAt(L, f);
    case Comma(l, r) => assert MatchesAt(L, l) && MatchesAt(L, r);
    case _ =>
  }
}
