/** Compiler correctness for expressions. */
module CcExpr {
  import opened RvArith
  import opened RvMachine
  import opened CcMacros
  import opened CcSource
  import opened CcCode
  import opened CcFrame

  lemma WrapTwice(ty: Ty, v: int)
    ensures Wrap(ty, Wrap64(v)) == Wrap(ty, v)
  {
    Wrap32Of64(v);
  }

  // ----- single instructions on a0 and a1 -----

  lemma ArithStep(code: Code, m: Machine, op: ArithOp, rs: nat, rs2: nat, env: Env, lay: Layout) returns (m': Machine)
    requires Frame(m, env, lay) && rs < 32 && rs2 < 32 && At(code, m.pc, [Op(Arith(op), A0, rs, rs2)])
    ensures m' == With(m, 1, A0, Wrap64(ArithValue(op, m.regs[rs], m.regs[rs2]))) && Leads(code, m, m', 1, env, lay)
  {
    m' := RegStep(code, m, Op(Arith(op), A0, rs, rs2), A0, Wrap64(ArithValue(op, m.regs[rs], m.regs[rs2])), env, lay);
  }

  lemma SltStep(code: Code, m: Machine, rs: nat, rs2: nat, env: Env, lay: Layout) returns (m': Machine)
    requires Frame(m, env, lay) && rs < 32 && rs2 < 32 && At(code, m.pc, [Op(SLT, A0, rs, rs2)])
    ensures m' == With(m, 1, A0, Truth(m.regs[rs] < m.regs[rs2])) && Leads(code, m, m', 1, env, lay)
  {
    m' := RegStep(code, m, Op(SLT, A0, rs, rs2), A0, Truth(m.regs[rs] < m.regs[rs2]), env, lay);
  }

  lemma SeqzStep(code: Code, m: Machine, env: Env, lay: Layout) returns (m': Machine)
    requires Frame(m, env, lay) && At(code, m.pc, [OpImm(SLTIU, A0, A0, 1)])
    ensures m' == With(m, 1, A0, Truth(m.regs[A0] == 0)) && Leads(code, m, m', 1, env, lay)
  {
    m' := RegStep(code, m, OpImm(SLTIU, A0, A0, 1), A0, Truth(m.regs[A0] == 0), env, lay);
  }

  lemma SnezStep(code: Code, m: Machine, env: Env, lay: Layout) returns (m': Machine)
    requires Frame(m, env, lay) && At(code, m.pc, [Op(SLTU, A0, X0, A0)])
    ensures m' == With(m, 1, A0, Truth(m.regs[A0] != 0)) && Leads(code, m, m', 1, env, lay)
  {
    m' := RegStep(code, m, Op(SLTU, A0, X0, A0), A0, Truth(m.regs[A0] != 0), env, lay);
  }

  lemma XoriStep(code: Code, m: Machine, imm: int, env: Env, lay: Layout) returns (m': Machine)
    requires Frame(m, env, lay) && At(code, m.pc, [OpImm(XORI, A0, A0, imm)])
    ensures m' == With(m, 1, A0, Bitwise(BXor, m.regs[A0], imm)) && Leads(code, m, m', 1, env, lay)
  {
    m' := RegStep(code, m, OpImm(XORI, A0, A0, imm), A0, Bitwise(BXor, m.regs[A0], imm), env, lay);
  }

  // ----- comparisons -----

  lemma XorStep(code: Code, m: Machine, env: Env, lay: Layout) returns (m': Machine)
    requires Frame(m, env, lay) && At(code, m.pc, [Op(Arith(BitXor), A0, A0, A1)])
    ensures Leads(code, m, m', 1, env, lay) && (m'.regs[A0] == 0 <==> m.regs[A0] == m.regs[A1])
  {
    XorEq(m.regs[A0], m.regs[A1]);
    m' := ArithStep(code, m, BitXor, A0, A1, env, lay);
  }

  lemma EqualCorrect(code: Code, m: Machine, c: CmpOp, env: Env, lay: Layout) returns (m': Machine)
    requires Frame(m, env, lay) && (c.Eq? || c.Ne?) && At(code, m.pc, CmpCode(c))
    ensures Leads(code, m, m', 2, env, lay) && m'.regs[A0] == CmpValue(c, m.regs[A0], m.regs[A1])
  {
    var i1, i2 := CmpCode(c)[0], CmpCode(c)[1];
    assert CmpCode(c) == [i1] + [i2];
    AtSplit(code, m.pc, [i1], [i2]);
    var m1 := XorStep(code, m, env, lay);
    if c.Eq? { m' := SeqzStep(code, m1, env, lay); } else { m' := SnezStep(code, m1, env, lay); }
    LeadsTrans(code, m, m1, m', 1, 1, env, env, lay);
  }

  lemma NotLessCorrect(code: Code, m: Machine, r1: nat, r2: nat, env: Env, lay: Layout) returns (m': Machine)
    requires Frame(m, env, lay) && r1 < 32 && r2 < 32
    requires At(code, m.pc, [Op(SLT, A0, r1, r2), OpImm(XORI, A0, A0, 1)])
    ensures Leads(code, m, m', 2, env, lay) && m'.regs[A0] == Truth(m.regs[r1] >= m.regs[r2])
  {
    var i1, i2 := Op(SLT, A0, r1, r2), OpImm(XORI, A0, A0, 1);
    assert [i1, i2] == [i1] + [i2];
    AtSplit(code, m.pc, [i1], [i2]);
    var m1 := SltStep(code, m, r1, r2, env, lay);
    XorBool(m1.regs[A0]);
    m' := XoriStep(code, m1, 1, env, lay);
    LeadsTrans(code, m, m1, m', 1, 1, env, env, lay);
  }

  /** the comparison sequences compute C's comparisons */
  lemma CmpCorrect(code: Code, m: Machine, c: CmpOp, env: Env, lay: Layout) returns (m': Machine)
    requires Frame(m, env, lay) && At(code, m.pc, CmpCode(c))
    ensures Leads(code, m, m', |CmpCode(c)|, env, lay) && m'.regs[A0] == CmpValue(c, m.regs[A0], m.regs[A1])
  {
    match c
    case Eq => m' := EqualCorrect(code, m, c, env, lay);
    case Ne => m' := EqualCorrect(code, m, c, env, lay);
    case Lt => m' := SltStep(code, m, A0, A1, env, lay);
    case Gt => m' := SltStep(code, m, A1, A0, env, lay);
    case Le => m' := NotLessCorrect(code, m, A1, A0, env, lay);
    case Ge => m' := NotLessCorrect(code, m, A0, A1, env, lay);
  }

  /** xori with 1 negates a truth value */
  lemma XorBool(t: int)
    requires t == 0 || t == 1
    ensures Bitwise(BXor, t, 1) == 1 - t
  {
    XorOne(t, XLEN);
  }

  lemma XorOne(t: int, n: nat)
    requires (t == 0 || t == 1) && n > 0
    ensures BitsLow(BXor, t, 1, n) == 1 - t
  {
    XorNothing(t / 2, n - 1);
    assert t / 2 == 0;
  }

  lemma {:induction false} XorNothing(z: int, n: nat)
    requires z == 0
    ensures BitsLow(BXor, z, z, n) == 0
  {
    if n != 0 { XorNothing(z / 2, n - 1); }
  }

  // ----- the pieces of gen_expr -----

  /** storing a1 and truncating the result */
  lemma FinishCorrect(code: Code, m: Machine, x: nat, env: Env, lay: Layout) returns (m': Machine)
    requires Frame(m, env, lay) && x in lay && At(code, m.pc, FinishStore(lay[x])) && m.regs[A0] == m.regs[S0] - x
    ensures
      var v := Wrap(lay[x], m.regs[A1]);
      Leads(code, m, m', |FinishStore(lay[x])|, env[x := v], lay) && m'.regs[A0] == v
  {
    var ty := lay[x];
    var env' := env[x := Wrap(ty, m.regs[A1])];
    AtSplit(code, m.pc, StoreCode(ty), Mv(A0, A1) + CastCode(ty));
    AtSplit(code, m.pc + 4, Mv(A0, A1), CastCode(ty));
    var m1 := StoreStep(code, m, x, env, lay);
    var m2 := MvStep(code, m1, A0, A1, env', lay);
    LeadsTrans(code, m, m1, m2, 1, 1, env', env', lay);
    m' := CastStep(code, m2, ty, env', lay);
    LeadsTrans(code, m, m2, m', 2, |CastCode(ty)|, env', env', lay);
  }

  // The lemmas named ...Open and ...Close speak of machine states and code
  // segments only; those named ...Runs of any view of the operands.

  lemma RightOpen(code: Code, m: Machine, cr: seq<Instr>, env: Env, lay: Layout) returns (m1: Machine)
    requires Frame(m, env, lay) && Room(m, 1) && At(code, m.pc, RightCode(cr))
    ensures Goes(code, m, m1) && Frame(m1, env, lay) && At(code, m1.pc, cr) && |RightCode(cr)| == |cr| + 5
    ensures m1 == Machine(m.pc + 8, m.regs[SP := m.regs[SP] - 16], m.mem[m.regs[SP] - 16 := m.regs[A0]])
    ensures At(code, m1.pc + 4 * |cr|, Mv(A1, A0) + Pop(A0))
  {
    AtSplit(code, m.pc, Push(A0), cr + (Mv(A1, A0) + Pop(A0)));
    m1 := PushStep(code, m, A0, env, lay);
    AtSplit(code, m1.pc, cr, Mv(A1, A0) + Pop(A0));
  }

  lemma RightClose(code: Code, m: Machine, m1: Machine, m2: Machine, n: int, env: Env, env2: Env, lay: Layout)
    returns (m': Machine)
    requires Frame(m, env, lay) && Goes(code, m, m1)
    requires m1 == Machine(m.pc + 8, m.regs[SP := m.regs[SP] - 16], m.mem[m.regs[SP] - 16 := m.regs[A0]])
    requires Leads(code, m1, m2, n, env2, lay) && At(code, m2.pc, Mv(A1, A0) + Pop(A0))
    ensures Leads(code, m, m', n + 5, env2, lay) && m'.regs[A0] == m.regs[A0] && m'.regs[A1] == m2.regs[A0]
  {
    AtSplit(code, m2.pc, Mv(A1, A0), Pop(A0));
    var m3 := MvStep(code, m2, A1, A0, env2, lay);
    WithinTrans(m1, m2, m3, lay);
    m' := PopStep(code, m, m1, m3, A0, env, env2, lay, m.regs[A0]);
    GoesTrans(code, m, m1, m2);
    GoesTrans(code, m, m2, m3);
    GoesTrans(code, m, m3, m');
  }

  /** the right operand: a0 survives, its value arrives in a1 */
  lemma RightRuns(L: ExprLang, code: Code, r: Expr, m: Machine, env: Env, lay: Layout, n: nat) returns (m': Machine)
    requires Good(L, code, r) && L.ok(r, lay, n) && Frame(m, env, lay) && Room(m, n + 1)
    requires At(code, m.pc, RightCode(L.comp(r)))
    ensures Leads(code, m, m', |RightCode(L.comp(r))|, L.eval(r, env).1, lay)
    ensures m'.regs[A0] == m.regs[A0] && m'.regs[A1] == L.eval(r, env).0
  {
    var m1 := RightOpen(code, m, L.comp(r), env, lay);
    var m2 := ExprRuns(L, code, r, m1, env, lay, n);
    m' := RightClose(code, m, m1, m2, |L.comp(r)|, env, L.eval(r, env).1, lay);
  }

  /** operation and truncation */
  lemma OpClose(code: Code, m: Machine, op: ArithOp, rs: nat, rs2: nat, ty: Ty, env: Env, lay: Layout)
    returns (m': Machine)
    requires Frame(m, env, lay) && rs < 32 && rs2 < 32 && At(code, m.pc, [Op(Arith(op), A0, rs, rs2)] + CastCode(ty))
    ensures Leads(code, m, m', 1 + |CastCode(ty)|, env, lay)
    ensures m'.regs[A0] == Wrap(ty, ArithValue(op, m.regs[rs], m.regs[rs2]))
  {
    AtSplit(code, m.pc, [Op(Arith(op), A0, rs, rs2)], CastCode(ty));
    var m1 := ArithStep(code, m, op, rs, rs2, env, lay);
    WrapTwice(ty, ArithValue(op, m.regs[rs], m.regs[rs2]));
    m' := CastStep(code, m1, ty, env, lay);
    LeadsTrans(code, m, m1, m', 1, |CastCode(ty)|, env, env, lay);
  }

  lemma VarRuns(code: Code, x: nat, ty: Ty, m: Machine, env: Env, lay: Layout) returns (m': Machine)
    requires WfVar(x, ty, lay) && Frame(m, env, lay) && At(code, m.pc, AddrCode(x) + LoadCode(ty))
    ensures Leads(code, m, m', |AddrCode(x) + LoadCode(ty)|, env, lay) && m'.regs[A0] == Lookup(env, x)
  {
    AtSplit(code, m.pc, AddrCode(x), LoadCode(ty));
    var m1 := AddrStep(code, m, x, env, lay);
    m' := LoadStep(code, m1, x, env, lay);
    LeadsTrans(code, m, m1, m', |AddrCode(x)|, 1, env, env, lay);
  }

  lemma AssignRuns(L: ExprLang, code: Code, x: nat, ty: Ty, rhs: Expr, m: Machine, env: Env, lay: Layout, n: nat)
    returns (m': Machine)
    requires Good(L, code, rhs) && L.ok(rhs, lay, n) && WfVar(x, ty, lay) && Frame(m, env, lay) && Room(m, n + 1)
    requires At(code, m.pc, AddrCode(x) + (RightCode(L.comp(rhs)) + FinishStore(ty)))
    ensures
      var (v, env1) := L.eval(rhs, env);
      Leads(code, m, m', |AddrCode(x) + (RightCode(L.comp(rhs)) + FinishStore(ty))|, env1[x := Wrap(ty, v)], lay) &&
        m'.regs[A0] == Wrap(ty, v)
  {
    var ac, rc, fc := AddrCode(x), RightCode(L.comp(rhs)), FinishStore(ty);
    var (v, env1) := L.eval(rhs, env);
    AtSplit(code, m.pc, ac, rc + fc);
    var m1 := AddrStep(code, m, x, env, lay);
    AtSplit(code, m1.pc, rc, fc);
    var m2 := RightRuns(L, code, rhs, m1, env, lay, n);
    m' := FinishCorrect(code, m2, x, env1, lay);
    LeadsTrans(code, m, m1, m2, |ac|, |rc|, env, env1, lay);
    LeadsTrans(code, m, m2, m', |ac| + |rc|, |fc|, env1, env1[x := Wrap(ty, v)], lay);
  }

  /** both operands: the left one's value in a0, the right one's in a1 */
  lemma BothRuns(L: ExprLang, code: Code, l: Expr, r: Expr, m: Machine, env: Env, lay: Layout, n: nat, k: nat,
        rest: seq<Instr>)
    returns (m2: Machine)
    requires Good(L, code, l) && Good(L, code, r) && L.ok(l, lay, n) && L.ok(r, lay, k) && Frame(m, env, lay)
    requires Room(m, n) && Room(m, k + 1)
    requires At(code, m.pc, L.comp(l) + (RightCode(L.comp(r)) + rest))
    ensures
      var (a, env1) := L.eval(l, env);
      var (b, env2) := L.eval(r, env1);
      Leads(code, m, m2, |L.comp(l)| + |RightCode(L.comp(r))|, env2, lay) && m2.regs[A0] == a && m2.regs[A1] == b
    ensures At(code, m2.pc, rest)
  {
    var cl, rc := L.comp(l), RightCode(L.comp(r));
    var env1 := L.eval(l, env).1;
    AtSplit(code, m.pc, cl, rc + rest);
    var m1 := ExprRuns(L, code, l, m, env, lay, n);
    AtSplit(code, m1.pc, rc, rest);
    m2 := RightRuns(L, code, r, m1, env1, lay, k);
    LeadsTrans(code, m, m1, m2, |cl|, |rc|, env1, L.eval(r, env1).1, lay);
  }

  lemma BinRuns(L: ExprLang, code: Code, op: ArithOp, l: Expr, r: Expr, ty: Ty, m: Machine, env: Env, lay: Layout,
        n: nat, k: nat)
    returns (m': Machine)
    requires Good(L, code, l) && Good(L, code, r) && L.ok(l, lay, n) && L.ok(r, lay, k) && Frame(m, env, lay)
    requires Room(m, n) && Room(m, k + 1)
    requires At(code, m.pc, L.comp(l) + (RightCode(L.comp(r)) + ([Op(Arith(op), A0, A0, A1)] + CastCode(ty))))
    ensures
      var (a, env1) := L.eval(l, env);
      var (b, env2) := L.eval(r, env1);
      var c := L.comp(l) + (RightCode(L.comp(r)) + ([Op(Arith(op), A0, A0, A1)] + CastCode(ty)));
      Leads(code, m, m', |c|, env2, lay) && m'.regs[A0] == Wrap(ty, ArithValue(op, a, b))
  {
    var opc := [Op(Arith(op), A0, A0, A1)] + CastCode(ty);
    var m2 := BothRuns(L, code, l, r, m, env, lay, n, k, opc);
    var env2 := L.eval(r, L.eval(l, env).1).1;
    m' := OpClose(code, m2, op, A0, A1, ty, env2, lay);
    LeadsTrans(code, m, m2, m', |L.comp(l)| + |RightCode(L.comp(r))|, |opc|, env2, env2, lay);
  }

  lemma CompareRuns(L: ExprLang, code: Code, c: CmpOp, l: Expr, r: Expr, m: Machine, env: Env, lay: Layout, n: nat,
        k: nat)
    returns (m': Machine)
    requires Good(L, code, l) && Good(L, code, r) && L.ok(l, lay, n) && L.ok(r, lay, k) && Frame(m, env, lay)
    requires Room(m, n) && Room(m, k + 1)
    requires At(code, m.pc, L.comp(l) + (RightCode(L.comp(r)) + CmpCode(c)))
    ensures
      var (a, env1) := L.eval(l, env);
      var (b, env2) := L.eval(r, env1);
      Leads(code, m, m', |L.comp(l) + (RightCode(L.comp(r)) + CmpCode(c))|, env2, lay) &&
        m'.regs[A0] == CmpValue(c, a, b)
  {
    var m2 := BothRuns(L, code, l, r, m, env, lay, n, k, CmpCode(c));
    var env2 := L.eval(r, L.eval(l, env).1).1;
    m' := CmpCorrect(code, m2, c, env2, lay);
    LeadsTrans(code, m, m2, m', |L.comp(l)| + |RightCode(L.comp(r))|, |CmpCode(c)|, env2, env2, lay);
  }

  lemma UnClose(code: Code, m: Machine, u: UnOp, ty: Ty, env: Env, lay: Layout) returns (m': Machine)
    requires Frame(m, env, lay) && At(code, m.pc, UnCode(u, ty))
    ensures Leads(code, m, m', |UnCode(u, ty)|, env, lay) && m'.regs[A0] == UnValue(u, ty, m.regs[A0])
  {
    match u
    case Not => m' := SeqzStep(code, m, env, lay);
    case Neg => m' := OpClose(code, m, Sub, X0, A0, ty, env, lay);
    case BitNot => XorNot(m.regs[A0]); m' := XoriStep(code, m, -1, env, lay);
  }

  lemma UnRuns(L: ExprLang, code: Code, u: UnOp, ty: Ty, e: Expr, m: Machine, env: Env, lay: Layout, n: nat)
    returns (m': Machine)
    requires Good(L, code, e) && L.ok(e, lay, n) && Frame(m, env, lay) && Room(m, n)
    requires At(code, m.pc, L.comp(e) + UnCode(u, ty))
    ensures
      var (a, env1) := L.eval(e, env);
      Leads(code, m, m', |L.comp(e) + UnCode(u, ty)|, env1, lay) && m'.regs[A0] == UnValue(u, ty, a)
  {
    var ce, uc, env1 := L.comp(e), UnCode(u, ty), L.eval(e, env).1;
    AtSplit(code, m.pc, ce, uc);
    var m1 := ExprRuns(L, code, e, m, env, lay, n);
    m' := UnClose(code, m1, u, ty, env1, lay);
    LeadsTrans(code, m, m1, m', |ce|, |uc|, env1, env1, lay);
  }

  lemma CastRuns(L: ExprLang, code: Code, ty: Ty, e: Expr, m: Machine, env: Env, lay: Layout, n: nat)
    returns (m': Machine)
    requires Good(L, code, e) && L.ok(e, lay, n) && Frame(m, env, lay) && Room(m, n)
    requires At(code, m.pc, L.comp(e) + CastCode(ty))
    ensures
      var (a, env1) := L.eval(e, env);
      Leads(code, m, m', |L.comp(e) + CastCode(ty)|, env1, lay) && m'.regs[A0] == Wrap(ty, a)
  {
    var ce, cc, env1 := L.comp(e), CastCode(ty), L.eval(e, env).1;
    AtSplit(code, m.pc, ce, cc);
    var m1 := ExprRuns(L, code, e, m, env, lay, n);
    m' := CastStep(code, m1, ty, env1, lay);
    LeadsTrans(code, m, m1, m', |ce|, |cc|, env1, env1, lay);
  }

  lemma CommaRuns(L: ExprLang, code: Code, l: Expr, r: Expr, m: Machine, env: Env, lay: Layout, n: nat)
    returns (m': Machine)
    requires Good(L, code, l) && Good(L, code, r) && L.ok(l, lay, n) && L.ok(r, lay, n) && Frame(m, env, lay)
    requires Room(m, n)
    requires At(code, m.pc, L.comp(l) + L.comp(r))
    ensures
      var (b, env2) := L.eval(r, L.eval(l, env).1);
      Leads(code, m, m', |L.comp(l) + L.comp(r)|, env2, lay) && m'.regs[A0] == b
  {
    var cl, cr, env1 := L.comp(l), L.comp(r), L.eval(l, env).1;
    AtSplit(code, m.pc, cl, cr);
    var m1 := ExprRuns(L, code, l, m, env, lay, n);
    m' := ExprRuns(L, code, r, m1, env1, lay, n);
    LeadsTrans(code, m, m1, m', |cl|, |cr|, env1, L.eval(r, env1).1, lay);
  }

  // ----- && and || -----

  /** the left operand decides: the result is loaded at the far end */
  lemma LogicShort(code: Code, m: Machine, or: bool, cr: seq<Instr>, env: Env, lay: Layout) returns (m': Machine)
    requires Frame(m, env, lay) && At(code, m.pc, LogicCode(or, cr)) && (m.regs[A0] != 0) == or
    ensures Leads(code, m, m', |LogicCode(or, cr)|, env, lay) && m'.regs[A0] == Truth(or)
  {
    LogicAt(code, m.pc, or, cr);
    var m1 := JumpIfStep(code, m, !or, |cr| + 5, env, lay);
    m' := LiStep(code, m1, A0, Truth(or), env, lay);
    LeadsTrans(code, m, m1, m', |cr| + 6, 1, env, env, lay);
  }

  /** where the parts of the sequence lie */
  lemma LogicAt(code: Code, pc: int, or: bool, cr: seq<Instr>)
    requires At(code, pc, LogicCode(or, cr))
    ensures At(code, pc, JumpIf(!or, |cr| + 5)) && At(code, pc + 8, cr) && At(code, pc + 4 * (|cr| + 2), JumpIf(!or, 3))
    ensures At(code, pc + 4 * (|cr| + 4), Li(A0, Truth(!or))) && At(code, pc + 4 * (|cr| + 5), [Jal(X0, 8)])
    ensures At(code, pc + 4 * (|cr| + 6), Li(A0, Truth(or)))
    ensures |LogicCode(or, cr)| == |cr| + 7
  {
    var j1, j2, l1, j3, l2 :=
      JumpIf(!or, |cr| + 5), JumpIf(!or, 3), Li(A0, Truth(!or)), [Jal(X0, 8)], Li(A0, Truth(or));
    AtSplit(code, pc, j1, cr + (j2 + (l1 + (j3 + l2))));
    AtSplit(code, pc + 8, cr, j2 + (l1 + (j3 + l2)));
    AtSplit(code, pc + 4 * (|cr| + 2), j2, l1 + (j3 + l2));
    AtSplit(code, pc + 4 * (|cr| + 4), l1, j3 + l2);
    AtSplit(code, pc + 4 * (|cr| + 5), j3, l2);
  }

  /** the right operand decides */
  lemma LogicClose(code: Code, m: Machine, m2: Machine, or: bool, cr: seq<Instr>, env: Env, env2: Env, lay: Layout)
    returns (m': Machine)
    requires Frame(m, env, lay) && At(code, m.pc, LogicCode(or, cr)) && Leads(code, m, m2, |cr| + 2, env2, lay)
    ensures Leads(code, m, m', |LogicCode(or, cr)|, env2, lay) && m'.regs[A0] == Truth(m2.regs[A0] != 0)
  {
    LogicAt(code, m.pc, or, cr);
    var m3 := JumpIfStep(code, m2, !or, 3, env2, lay);
    if (m2.regs[A0] != 0) == or {
      LeadsTrans(code, m, m2, m3, |cr| + 2, 4, env2, env2, lay);
      m' := LiStep(code, m3, A0, Truth(or), env2, lay);
      LeadsTrans(code, m, m3, m', |cr| + 6, 1, env2, env2, lay);
    } else {
      LeadsTrans(code, m, m2, m3, |cr| + 2, 2, env2, env2, lay);
      var m4 := LiStep(code, m3, A0, Truth(!or), env2, lay);
      LeadsTrans(code, m, m3, m4, |cr| + 4, 1, env2, env2, lay);
      m' := JalStep(code, m4, 2, env2, lay);
      LeadsTrans(code, m, m4, m', |cr| + 5, 2, env2, env2, lay);
    }
  }

  /** the right operand of && or || is evaluated */
  lemma LogicLong(L: ExprLang, code: Code, or: bool, r: Expr, m1: Machine, env1: Env, lay: Layout, n: nat)
    returns (m': Machine)
    requires Good(L, code, r) && L.ok(r, lay, n) && Frame(m1, env1, lay) && Room(m1, n) && (m1.regs[A0] != 0) != or
    requires At(code, m1.pc, LogicCode(or, L.comp(r)))
    ensures
      var (b, env2) := L.eval(r, env1);
      Leads(code, m1, m', |LogicCode(or, L.comp(r))|, env2, lay) && m'.regs[A0] == Truth(b != 0)
  {
    var cr, env2 := L.comp(r), L.eval(r, env1).1;
    LogicAt(code, m1.pc, or, cr);
    var m2 := JumpIfStep(code, m1, !or, |cr| + 5, env1, lay);
    var m3 := ExprRuns(L, code, r, m2, env1, lay, n);
    LeadsTrans(code, m1, m2, m3, 2, |cr|, env1, env2, lay);
    m' := LogicClose(code, m1, m3, or, cr, env1, env2, lay);
  }

  lemma LogicRuns(L: ExprLang, code: Code, or: bool, l: Expr, r: Expr, m: Machine, env: Env, lay: Layout, n: nat)
    returns (m': Machine)
    requires Good(L, code, l) && Good(L, code, r) && L.ok(l, lay, n) && L.ok(r, lay, n) && Frame(m, env, lay)
    requires Room(m, n)
    requires At(code, m.pc, L.comp(l) + LogicCode(or, L.comp(r)))
    ensures
      var (a, env1) := L.eval(l, env);
      var (v, env2) := if (a != 0) == or then (Truth(or), env1) else (Truth(L.eval(r, env1).0 != 0), L.eval(r, env1).1);
      Leads(code, m, m', |L.comp(l) + LogicCode(or, L.comp(r))|, env2, lay) && m'.regs[A0] == v
  {
    var cl, lc := L.comp(l), LogicCode(or, L.comp(r));
    var (a, env1) := L.eval(l, env);
    AtSplit(code, m.pc, cl, lc);
    var m1 := ExprRuns(L, code, l, m, env, lay, n);
    if (a != 0) == or {
      m' := LogicShort(code, m1, or, L.comp(r), env1, lay);
      LeadsTrans(code, m, m1, m', |cl|, |lc|, env1, env1, lay);
    } else {
      m' := LogicLong(L, code, or, r, m1, env1, lay, n);
      LeadsTrans(code, m, m1, m', |cl|, |lc|, env1, L.eval(r, env1).1, lay);
    }
  }

  // ----- the conditional operator -----

  lemma CondAt(code: Code, pc: int, ct: seq<Instr>, cf: seq<Instr>)
    requires At(code, pc, CondCode(ct, cf))
    ensures At(code, pc, JumpIf(true, |ct| + 2)) && At(code, pc + 8, ct)
    ensures At(code, pc + 4 * (|ct| + 2), [Jal(X0, 4 * (|cf| + 1))]) && At(code, pc + 4 * (|ct| + 3), cf)
    ensures |CondCode(ct, cf)| == |ct| + |cf| + 3
  {
    var j1, j2 := JumpIf(true, |ct| + 2), [Jal(X0, 4 * (|cf| + 1))];
    AtSplit(code, pc, j1, ct + (j2 + cf));
    AtSplit(code, pc + 8, ct, j2 + cf);
    AtSplit(code, pc + 4 * (|ct| + 2), j2, cf);
  }

  lemma CondSkip(code: Code, m1: Machine, ct: seq<Instr>, cf: seq<Instr>, env1: Env, lay: Layout) returns (m2: Machine)
    requires At(code, m1.pc, CondCode(ct, cf)) && Frame(m1, env1, lay) && m1.regs[A0] == 0
    ensures Leads(code, m1, m2, |ct| + 3, env1, lay) && At(code, m2.pc, cf) && m2.regs == m1.regs
  {
    CondAt(code, m1.pc, ct, cf);
    m2 := JumpIfStep(code, m1, true, |ct| + 2, env1, lay);
  }

  lemma CondThenClose(code: Code, m1: Machine, m2: Machine, m3: Machine, ct: seq<Instr>, cf: seq<Instr>, env1: Env,
        env2: Env, lay: Layout)
    returns (m': Machine)
    requires At(code, m1.pc, CondCode(ct, cf)) && Leads(code, m1, m2, 2, env1, lay)
    requires Leads(code, m2, m3, |ct|, env2, lay)
    ensures Leads(code, m1, m', |CondCode(ct, cf)|, env2, lay) && m'.regs == m3.regs
  {
    CondAt(code, m1.pc, ct, cf);
    LeadsTrans(code, m1, m2, m3, 2, |ct|, env1, env2, lay);
    m' := JalStep(code, m3, |cf| + 1, env2, lay);
    LeadsTrans(code, m1, m3, m', |ct| + 2, |cf| + 1, env2, env2, lay);
  }

  lemma CondRuns(L: ExprLang, code: Code, c: Expr, t: Expr, f: Expr, m: Machine, env: Env, lay: Layout, n: nat)
    returns (m': Machine)
    requires Good(L, code, c) && Good(L, code, t) && Good(L, code, f) && L.ok(c, lay, n) && L.ok(t, lay, n)
    requires L.ok(f, lay, n)
    requires Frame(m, env, lay) && Room(m, n) && At(code, m.pc, L.comp(c) + CondCode(L.comp(t), L.comp(f)))
    ensures
      var (a, env1) := L.eval(c, env);
      var (v, env2) := if a != 0 then L.eval(t, env1) else L.eval(f, env1);
      Leads(code, m, m', |L.comp(c) + CondCode(L.comp(t), L.comp(f))|, env2, lay) && m'.regs[A0] == v
  {
    var cc, ct, cf := L.comp(c), L.comp(t), L.comp(f);
    var (a, env1) := L.eval(c, env);
    AtSplit(code, m.pc, cc, CondCode(ct, cf));
    var m1 := ExprRuns(L, code, c, m, env, lay, n);
    CondAt(code, m1.pc, ct, cf);
    if a != 0 {
      var env2 := L.eval(t, env1).1;
      var m2 := JumpIfStep(code, m1, true, |ct| + 2, env1, lay);
      var m3 := ExprRuns(L, code, t, m2, env1, lay, n);
      m' := CondThenClose(code, m1, m2, m3, ct, cf, env1, env2, lay);
      LeadsTrans(code, m, m1, m', |cc|, |CondCode(ct, cf)|, env1, env2, lay);
    } else {
      var env2 := L.eval(f, env1).1;
      var m2 := CondSkip(code, m1, ct, cf, env1, lay);
      m' := ExprRuns(L, code, f, m2, env1, lay, n);
      LeadsTrans(code, m1, m2, m', |ct| + 3, |cf|, env1, env2, lay);
      LeadsTrans(code, m, m1, m', |cc|, |ct| + |cf| + 3, env1, env2, lay);
    }
  }

  // ----- compound assignment -----

  /** m2 is m with r pushed */
  ghost predicate Pushed(m: Machine, m2: Machine, v: int) {
    |m.regs| == 32 && m2.regs == m.regs[SP := m.regs[SP] - 16] && m2.mem == m.mem[m.regs[SP] - 16 := v]
  }

  lemma OldValueOpen(code: Code, m: Machine, x: nat, env: Env, lay: Layout)
    returns (m1: Machine, m2: Machine, m3: Machine)
    requires Frame(m, env, lay) && Room(m, 1) && x in lay && At(code, m.pc, OldValueCode(x, lay[x]))
    ensures Leads(code, m, m1, |AddrCode(x)|, env, lay) && m1.regs[A0] == m1.regs[S0] - x && Pushed(m1, m2, m1.regs[A0])
    ensures Goes(code, m, m3) && m3.pc == m.pc + 4 * |OldValueCode(x, lay[x])|
    ensures Frame(m3, env, lay) && Within(m2, m3, lay) && x in env && m3.regs[A0] == env[x]
  {
    AtSplit(code, m.pc, AddrCode(x), Push(A0) + LoadCode(lay[x]));
    m1 := AddrStep(code, m, x, env, lay);
    AtSplit(code, m1.pc, Push(A0), LoadCode(lay[x]));
    m2 := PushStep(code, m1, A0, env, lay);
    m3 := LoadStep(code, m2, x, env, lay);
    GoesTrans(code, m, m1, m2);
    GoesTrans(code, m, m2, m3);
  }

  /** push a0 and pop it into r right away: a move through the stack */
  lemma PushPop(code: Code, m: Machine, r: nat, env: Env, lay: Layout) returns (m': Machine)
    requires Frame(m, env, lay) && Room(m, 1) && Scratch(r) && At(code, m.pc, Push(A0) + Pop(r))
    ensures Leads(code, m, m', 4, env, lay) && m'.regs == m.regs[r := m.regs[A0]]
  {
    AtSplit(code, m.pc, Push(A0), Pop(r));
    var m1 := PushStep(code, m, A0, env, lay);
    WithinSame(m1, m1, lay);
    m' := PopStep(code, m, m1, m1, r, env, env, lay, m.regs[A0]);
    GoesTrans(code, m, m1, m');
    assert m.regs[SP := m.regs[SP] - 16][r := m.regs[A0]][SP := m.regs[SP]] == m.regs[r := m.regs[A0]];
  }

  lemma OpAssignClose(code: Code, m1: Machine, m2: Machine, m3: Machine, op: ArithOp, x: nat, env: Env, env1: Env,
        lay: Layout)
    returns (m': Machine)
    requires Frame(m1, env, lay) && x in lay && m1.regs[A0] == m1.regs[S0] - x && Pushed(m1, m2, m1.regs[A0])
    requires Within(m2, m3, lay) && Frame(m3, env1, lay) && Room(m3, 1) && At(code, m3.pc, OpAssignTail(op, lay[x]))
    ensures
      var v := Wrap(lay[x], ArithValue(op, m3.regs[A0], m3.regs[A1]));
      && Goes(code, m3, m') && m'.pc == m3.pc + 4 * |OpAssignTail(op, lay[x])|
      && Within(m1, m', lay) && Frame(m', env1[x := v], lay) && m'.regs[A0] == v
  {
    var m5 := OpAssignOpen(code, m2, m3, op, FinishStore(lay[x]), env1, lay);
    var m6 := PopStep(code, m1, m2, m5, A0, env, env1, lay, m1.regs[A0]);
    m' := FinishCorrect(code, m6, x, env1, lay);
    WrapTwice(lay[x], ArithValue(op, m3.regs[A0], m3.regs[A1]));
    WithinTrans(m1, m6, m', lay);
    GoesTrans(code, m3, m5, m6);
    GoesTrans(code, m3, m6, m');
  }

  /** the operation, and its result into a1 */
  lemma OpAssignOpen(code: Code, m2: Machine, m3: Machine, op: ArithOp, fc: seq<Instr>, env1: Env, lay: Layout)
    returns (m5: Machine)
    requires Within(m2, m3, lay) && Frame(m3, env1, lay) && Room(m3, 1)
    requires At(code, m3.pc, [Op(Arith(op), A0, A0, A1)] + (Push(A0) + (Pop(A1) + (Pop(A0) + fc))))
    ensures Goes(code, m3, m5) && m5.pc == m3.pc + 20 && Frame(m5, env1, lay) && Within(m2, m5, lay)
    ensures m5.regs[A1] == Wrap64(ArithValue(op, m3.regs[A0], m3.regs[A1]))
    ensures At(code, m5.pc, Pop(A0)) && At(code, m5.pc + 8, fc)
  {
    var m4 := ArithFirst(code, m3, op, Push(A0) + (Pop(A1) + (Pop(A0) + fc)), env1, lay);
    m5 := ResultOver(code, m4, fc, env1, lay);
    WithinTrans(m2, m3, m4, lay);
    WithinTrans(m2, m4, m5, lay);
    GoesTrans(code, m3, m4, m5);
  }

  lemma ArithFirst(code: Code, m: Machine, op: ArithOp, rest: seq<Instr>, env: Env, lay: Layout) returns (m': Machine)
    requires Frame(m, env, lay) && At(code, m.pc, [Op(Arith(op), A0, A0, A1)] + rest)
    ensures Leads(code, m, m', 1, env, lay) && At(code, m'.pc, rest)
    ensures m'.regs[A0] == Wrap64(ArithValue(op, m.regs[A0], m.regs[A1]))
  {
    AtSplit(code, m.pc, [Op(Arith(op), A0, A0, A1)], rest);
    m' := ArithStep(code, m, op, A0, A1, env, lay);
  }

  /** a0 into a1 over the stack */
  lemma ResultOver(code: Code, m: Machine, fc: seq<Instr>, env: Env, lay: Layout) returns (m': Machine)
    requires Frame(m, env, lay) && Room(m, 1) && At(code, m.pc, Push(A0) + (Pop(A1) + (Pop(A0) + fc)))
    ensures Leads(code, m, m', 4, env, lay) && m'.regs[A1] == m.regs[A0]
    ensures At(code, m'.pc, Pop(A0)) && At(code, m'.pc + 8, fc)
  {
    assert Push(A0) + (Pop(A1) + (Pop(A0) + fc)) == (Push(A0) + Pop(A1)) + (Pop(A0) + fc);
    AtSplit(code, m.pc, Push(A0) + Pop(A1), Pop(A0) + fc);
    m' := PushPop(code, m, A1, env, lay);
    AtSplit(code, m'.pc, Pop(A0), fc);
  }

  lemma OpAssignRuns(L: ExprLang, code: Code, op: ArithOp, x: nat, ty: Ty, rhs: Expr, m: Machine, env: Env, lay: Layout,
        n: nat)
    returns (m': Machine)
    requires Good(L, code, rhs) && L.ok(rhs, lay, n) && WfVar(x, ty, lay) && Frame(m, env, lay) && Room(m, n + 2)
    requires At(code, m.pc, OldValueCode(x, ty) + (RightCode(L.comp(rhs)) + OpAssignTail(op, ty)))
    ensures
      var (b, env1) := L.eval(rhs, env);
      var v := Wrap(ty, ArithValue(op, Lookup(env, x), b));
      Leads(code, m, m', |OldValueCode(x, ty) + (RightCode(L.comp(rhs)) + OpAssignTail(op, ty))|, env1[x := v],
        lay) && m'.regs[A0] == v
  {
    var oc, rc, tc := OldValueCode(x, ty), RightCode(L.comp(rhs)), OpAssignTail(op, ty);
    var env1 := L.eval(rhs, env).1;
    AtSplit(code, m.pc, oc, rc + tc);
    var m1, m2, m3 := OldValueOpen(code, m, x, env, lay);
    AtSplit(code, m3.pc, rc, tc);
    var m4 := RightRuns(L, code, rhs, m3, env, lay, n);
    WithinTrans(m2, m3, m4, lay);
    m' := OpAssignClose(code, m1, m2, m4, op, x, env, env1, lay);
    WithinTrans(m, m1, m', lay);
    GoesTrans(code, m, m3, m4);
    GoesTrans(code, m, m4, m');
  }

  // ----- ++ and -- -----

  /** the stores and moves of gen_incdec: new value in a1, old one in t0, address in t1 */
  lemma IncDecStore(code: Code, m: Machine, prefix: bool, x: nat, env: Env, lay: Layout) returns (m': Machine)
    requires Frame(m, env, lay) && x in lay && m.regs[T1] == m.regs[S0] - x
    requires At(code, m.pc, Mv(A0, T1) + (StoreCode(lay[x]) + (Mv(A0, if prefix then A1 else T0) + CastCode(lay[x]))))
    ensures Leads(code, m, m', 3 + |CastCode(lay[x])|, env[x := Wrap(lay[x], m.regs[A1])], lay)
    ensures m'.regs[A0] == Wrap(lay[x], if prefix then m.regs[A1] else m.regs[T0])
  {
    var ty, r := lay[x], if prefix then A1 else T0;
    var env' := env[x := Wrap(ty, m.regs[A1])];
    AtSplit(code, m.pc, Mv(A0, T1), StoreCode(ty) + (Mv(A0, r) + CastCode(ty)));
    var m1 := MvStep(code, m, A0, T1, env, lay);
    AtSplit(code, m1.pc, StoreCode(ty), Mv(A0, r) + CastCode(ty));
    var m2 := StoreStep(code, m1, x, env, lay);
    LeadsTrans(code, m, m1, m2, 1, 1, env, env', lay);
    AtSplit(code, m2.pc, Mv(A0, r), CastCode(ty));
    var m3 := MvStep(code, m2, A0, r, env', lay);
    LeadsTrans(code, m, m2, m3, 2, 1, env', env', lay);
    m' := CastStep(code, m3, ty, env', lay);
    LeadsTrans(code, m, m3, m', 3, |CastCode(ty)|, env', env', lay);
  }

  lemma IncDecRuns(code: Code, prefix: bool, d: int, x: nat, ty: Ty, m: Machine, env: Env, lay: Layout)
    returns (m': Machine)
    requires WfVar(x, ty, lay) && (d == 1 || d == -1) && Frame(m, env, lay) && Room(m, 3)
    requires At(code, m.pc, OldValueCode(x, ty) + IncDecTail(prefix, d, ty))
    ensures
      var a := Lookup(env, x);
      var v := Wrap(ty, a + d);
      Leads(code, m, m', |OldValueCode(x, ty) + IncDecTail(prefix, d, ty)|, env[x := v], lay) &&
        m'.regs[A0] == if prefix then v else a
  {
    var oc, tc := OldValueCode(x, ty), IncDecTail(prefix, d, ty);
    AtSplit(code, m.pc, oc, tc);
    var m1, m2, m3 := OldValueOpen(code, m, x, env, lay);
    m' := IncDecClose(code, m1, m2, m3, prefix, d, x, env, lay);
    WithinTrans(m, m1, m', lay);
    GoesTrans(code, m, m3, m');
  }

  lemma IncDecClose(code: Code, m1: Machine, m2: Machine, m3: Machine, prefix: bool, d: int, x: nat, env: Env,
        lay: Layout)
    returns (m': Machine)
    requires Frame(m1, env, lay) && x in lay && m1.regs[A0] == m1.regs[S0] - x && Pushed(m1, m2, m1.regs[A0])
    requires Within(m2, m3, lay) && Frame(m3, env, lay) && Room(m3, 2) && At(code, m3.pc, IncDecTail(prefix, d, lay[x]))
    requires (d == 1 || d == -1)
    requires x in env && m3.regs[A0] == env[x]
    ensures
      var v := Wrap(lay[x], env[x] + d);
      && Goes(code, m3, m') && m'.pc == m3.pc + 4 * |IncDecTail(prefix, d, lay[x])|
      && Within(m1, m', lay) && Frame(m', env[x := v], lay) && m'.regs[A0] == if prefix then v else env[x]
  {
    IncDecAt(code, m3.pc, prefix, d, lay[x]);
    var m7 := IncDecCount(code, m3, d, env, lay);
    WithinTrans(m2, m3, m7, lay);
    m' := IncDecRest(code, m1, m2, m7, prefix, d, x, env, lay);
    GoesTrans(code, m3, m7, m');
  }

  /** pop the address, store, and leave the result */
  lemma IncDecRest(code: Code, m1: Machine, m2: Machine, m7: Machine, prefix: bool, d: int, x: nat, env: Env,
        lay: Layout)
    returns (m': Machine)
    requires Frame(m1, env, lay) && x in lay && m1.regs[A0] == m1.regs[S0] - x && Pushed(m1, m2, m1.regs[A0])
    requires Within(m2, m7, lay) && Frame(m7, env, lay) && x in env
    requires m7.regs[A1] == Wrap64(env[x] + d) && m7.regs[T0] == env[x] && At(code, m7.pc, Pop(T1))
    requires At(code, m7.pc + 8, Mv(A0, T1) +
      (StoreCode(lay[x]) + (Mv(A0, if prefix then A1 else T0) + CastCode(lay[x]))))
    ensures
      var v := Wrap(lay[x], env[x] + d);
      && Goes(code, m7, m') && m'.pc == m7.pc + 4 * (5 + |CastCode(lay[x])|)
      && Within(m1, m', lay) && Frame(m', env[x := v], lay) && m'.regs[A0] == if prefix then v else env[x]
  {
    var m8 := PopStep(code, m1, m2, m7, T1, env, env, lay, m1.regs[A0]);
    m' := IncDecStore(code, m8, prefix, x, env, lay);
    GoesTrans(code, m7, m8, m');
    WithinTrans(m1, m8, m', lay);
    WrapTwice(lay[x], env[x] + d);
    LocalInType(m1, x, env, lay);
  }

  /** the new value in a1, the old one in t0 */
  lemma IncDecCount(code: Code, m3: Machine, d: int, env: Env, lay: Layout) returns (m7: Machine)
    requires Frame(m3, env, lay) && Room(m3, 2) && (d == 1 || d == -1)
    requires At(code, m3.pc, Push(A0)) && At(code, m3.pc + 8, Addi(A0, A0, d))
    requires At(code, m3.pc + 12, Push(A0) + Pop(A1))
    requires At(code, m3.pc + 28, Pop(T0))
    ensures Leads(code, m3, m7, 9, env, lay) && m7.regs[A1] == Wrap64(m3.regs[A0] + d) && m7.regs[T0] == m3.regs[A0]
  {
    var m4 := PushStep(code, m3, A0, env, lay);
    var m5 := AddiStep(code, m4, A0, A0, d, env, lay);
    var m6 := PushPop(code, m5, A1, env, lay);
    WithinTrans(m4, m5, m6, lay);
    m7 := PopStep(code, m3, m4, m6, T0, env, env, lay, m3.regs[A0]);
    GoesTrans(code, m3, m4, m5);
    GoesTrans(code, m3, m5, m6);
    GoesTrans(code, m3, m6, m7);
  }

  lemma LocalInType(m: Machine, x: nat, env: Env, lay: Layout)
    requires Frame(m, env, lay) && x in lay
    ensures x in env && InTy(lay[x], env[x]) && Wrap(lay[x], env[x]) == env[x]
  {
    assert VarAt(m, env, lay, x);
  }

  lemma IncDecAt(code: Code, pc: int, prefix: bool, d: int, ty: Ty)
    requires At(code, pc, IncDecTail(prefix, d, ty)) && (d == 1 || d == -1)
    ensures At(code, pc, Push(A0)) && At(code, pc + 8, Addi(A0, A0, d)) && At(code, pc + 12, Push(A0) + Pop(A1))
    ensures At(code, pc + 28, Pop(T0)) && At(code, pc + 36, Pop(T1))
    ensures At(code, pc + 44, Mv(A0, T1) + (StoreCode(ty) + (Mv(A0, if prefix then A1 else T0) + CastCode(ty))))
    ensures |IncDecTail(prefix, d, ty)| == 14 + |CastCode(ty)|
  {
    var p, a, p1, p0, pt := Push(A0), Addi(A0, A0, d), Pop(A1), Pop(T0), Pop(T1);
    var st := Mv(A0, T1) + (StoreCode(ty) + (Mv(A0, if prefix then A1 else T0) + CastCode(ty)));
    assert IncDecTail(prefix, d, ty) == p + (a + ((p + p1) + (p0 + (pt + st))));
    AtSplit(code, pc, p, a + ((p + p1) + (p0 + (pt + st))));
    AtSplit(code, pc + 8, a, (p + p1) + (p0 + (pt + st)));
    AtSplit(code, pc + 12, p + p1, p0 + (pt + st));
    AtSplit(code, pc + 28, p0, pt + st);
    AtSplit(code, pc + 36, pt, st);
  }

  // ----- the recursion over the expression -----

  /** executing the code of e from m: value in a0, locals as the source says */
  ghost predicate Computes(code: Code, e: Expr, m: Machine, m': Machine, env: Env, lay: Layout) {
    Leads(code, m, m', |Comp(e)|, Eval(e, env).1, lay) && m'.regs[A0] == Eval(e, env).0
  }

  ghost predicate Ready(code: Code, e: Expr, m: Machine, env: Env, lay: Layout) {
    Wf(e, lay) && Frame(m, env, lay) && Room(m, Slots(e)) && At(code, m.pc, Comp(e))
  }

  /** the compiler's own view of an expression is a good one */
  lemma GoodCc(code: Code, e: Expr)
    ensures Good(Cc(), code, e)
    decreases e, 3
  {
    forall m, env, lay, n: nat {:trigger SoundAt(Cc(), code, e, m, env, lay, n)}
      ensures SoundAt(Cc(), code, e, m, env, lay, n)
    {
      GoodCcAt(code, e, m, env, lay, n);
    }
  }

  lemma GoodCcAt(code: Code, e: Expr, m: Machine, env: Env, lay: Layout, n: nat)
    ensures SoundAt(Cc(), code, e, m, env, lay, n)
    decreases e, 2
  {
    if Wf(e, lay) && Slots(e) <= n && Frame(m, env, lay) && Room(m, n) && At(code, m.pc, Comp(e)) {
      var m' := ExprCorrect(code, e, m, env, lay);
    }
  }

  /** Compiler correctness for expressions: from a frame that holds the locals,
      with room for the temporaries, the code of e runs to its end, leaves e's
      value in a0 and its side effects in the locals, restores sp, and touches
      nothing else at or above sp. */
  lemma ExprCorrect(code: Code, e: Expr, m: Machine, env: Env, lay: Layout) returns (m': Machine)
    requires Ready(code, e, m, env, lay)
    ensures Computes(code, e, m, m', env, lay)
    decreases e, 1
  {
    match e
    case Num(v) => m' := NumCorrect(code, e, m, env, lay);
    case Var(x, ty) => m' := VarCorrect(code, e, m, env, lay);
    case Assign(x, ty, rhs) => m' := AssignCorrect(code, e, m, env, lay);
    case Bin(op, l, r) => m' := BinCorrect(code, e, m, env, lay);
    case Cmp(c, l, r) => m' := CompareCorrect(code, e, m, env, lay);
    case OpAssign(op, x, ty, rhs) => m' := OpAssignCorrect(code, e, m, env, lay);
    case IncDec(prefix, d, x, ty) => m' := IncDecCorrect(code, e, m, env, lay);
    case Logic(or, l, r) => m' := LogicCorrect(code, e, m, env, lay);
    case Un(u, e1) => m' := UnCorrect(code, e, m, env, lay);
    case Cast(ty, e1) => m' := CastCorrect(code, e, m, env, lay);
    case Cond(c, t, f) => m' := CondCorrect(code, e, m, env, lay);
    case Comma(l, r) => m' := CommaCorrect(code, e, m, env, lay);
  }

  lemma NumCorrect(code: Code, e: Expr, m: Machine, env: Env, lay: Layout) returns (m': Machine)
    requires Ready(code, e, m, env, lay) && e.Num?
    ensures Computes(code, e, m, m', env, lay)
  {
    m' := LiStep(code, m, A0, e.v, env, lay);
  }

  lemma VarCorrect(code: Code, e: Expr, m: Machine, env: Env, lay: Layout) returns (m': Machine)
    requires Ready(code, e, m, env, lay) && e.Var?
    ensures Computes(code, e, m, m', env, lay)
  {
    m' := VarRuns(code, e.x, e.ty, m, env, lay);
  }

  lemma IncDecReady(code: Code, e: Expr, m: Machine, env: Env, lay: Layout)
    requires Ready(code, e, m, env, lay) && e.IncDec?
    ensures Room(m, 3) && WfVar(e.x, e.ty, lay) && Frame(m, env, lay) && (e.delta == 1 || e.delta == -1)
    ensures At(code, m.pc, OldValueCode(e.x, e.ty) + IncDecTail(e.prefix, e.delta, e.ty))
  {
    assert Comp(e) == OldValueCode(e.x, e.ty) + IncDecTail(e.prefix, e.delta, e.ty);
  }

  lemma IncDecCorrect(code: Code, e: Expr, m: Machine, env: Env, lay: Layout) returns (m': Machine)
    requires Ready(code, e, m, env, lay) && e.IncDec?
    ensures Computes(code, e, m, m', env, lay)
  {
    IncDecReady(code, e, m, env, lay);
    m' := IncDecRuns(code, e.prefix, e.delta, e.x, e.ty, m, env, lay);
    IncDecIs(e, env);
  }

  lemma IncDecIs(e: Expr, env: Env)
    requires e.IncDec?
    ensures Comp(e) == OldValueCode(e.x, e.ty) + IncDecTail(e.prefix, e.delta, e.ty)
    ensures Eval(e, env).1 == env[e.x := Wrap(e.ty, Lookup(env, e.x) + e.delta)]
    ensures Eval(e, env).0 == if e.prefix then Wrap(e.ty, Lookup(env, e.x) + e.delta) else Lookup(env, e.x)
  {
  }

  lemma AssignCorrect(code: Code, e: Expr, m: Machine, env: Env, lay: Layout) returns (m': Machine)
    requires Ready(code, e, m, env, lay) && e.Assign?
    ensures Computes(code, e, m, m', env, lay)
    decreases e, 0
  {
    GoodCc(code, e.rhs);
    m' := AssignRuns(Cc(), code, e.x, e.ty, e.rhs, m, env, lay, Slots(e.rhs));
  }

  lemma BinCorrect(code: Code, e: Expr, m: Machine, env: Env, lay: Layout) returns (m': Machine)
    requires Ready(code, e, m, env, lay) && e.Bin?
    ensures Computes(code, e, m, m', env, lay)
    decreases e, 0
  {
    GoodCc(code, e.l);
    GoodCc(code, e.r);
    m' := BinRuns(Cc(), code, e.op, e.l, e.r, TypeOf(e), m, env, lay, Slots(e.l), Slots(e.r));
  }

  lemma CompareCorrect(code: Code, e: Expr, m: Machine, env: Env, lay: Layout) returns (m': Machine)
    requires Ready(code, e, m, env, lay) && e.Cmp?
    ensures Computes(code, e, m, m', env, lay)
    decreases e, 0
  {
    GoodCc(code, e.l);
    GoodCc(code, e.r);
    m' := CompareRuns(Cc(), code, e.c, e.l, e.r, m, env, lay, Slots(e.l), Slots(e.r));
  }

  lemma UnCorrect(code: Code, e: Expr, m: Machine, env: Env, lay: Layout) returns (m': Machine)
    requires Ready(code, e, m, env, lay) && e.Un?
    ensures Computes(code, e, m, m', env, lay)
    decreases e, 0
  {
    GoodCc(code, e.e);
    m' := UnRuns(Cc(), code, e.u, TypeOf(e.e), e.e, m, env, lay, Slots(e.e));
  }

  lemma CastCorrect(code: Code, e: Expr, m: Machine, env: Env, lay: Layout) returns (m': Machine)
    requires Ready(code, e, m, env, lay) && e.Cast?
    ensures Computes(code, e, m, m', env, lay)
    decreases e, 0
  {
    GoodCc(code, e.e);
    m' := CastRuns(Cc(), code, e.ty, e.e, m, env, lay, Slots(e.e));
  }

  lemma CommaCorrect(code: Code, e: Expr, m: Machine, env: Env, lay: Layout) returns (m': Machine)
    requires Ready(code, e, m, env, lay) && e.Comma?
    ensures Computes(code, e, m, m', env, lay)
    decreases e, 0
  {
    GoodCc(code, e.l);
    GoodCc(code, e.r);
    m' := CommaRuns(Cc(), code, e.l, e.r, m, env, lay, Slots(e));
  }

  lemma LogicCorrect(code: Code, e: Expr, m: Machine, env: Env, lay: Layout) returns (m': Machine)
    requires Ready(code, e, m, env, lay) && e.Logic?
    ensures Computes(code, e, m, m', env, lay)
    decreases e, 0
  {
    GoodCc(code, e.l);
    GoodCc(code, e.r);
    m' := LogicRuns(Cc(), code, e.or, e.l, e.r, m, env, lay, Slots(e));
  }

  lemma CondCorrect(code: Code, e: Expr, m: Machine, env: Env, lay: Layout) returns (m': Machine)
    requires Ready(code, e, m, env, lay) && e.Cond?
    ensures Computes(code, e, m, m', env, lay)
    decreases e, 0
  {
    GoodCc(code, e.cnd);
    GoodCc(code, e.thn);
    GoodCc(code, e.els);
    m' := CondRuns(Cc(), code, e.cnd, e.thn, e.els, m, env, lay, Slots(e));
  }

  lemma OpAssignCorrect(code: Code, e: Expr, m: Machine, env: Env, lay: Layout) returns (m': Machine)
    requires Ready(code, e, m, env, lay) && e.OpAssign?
    ensures Computes(code, e, m, m', env, lay)
    decreases e, 0
  {
    GoodCc(code, e.rhs);
    m' := OpAssignRuns(Cc(), code, e.op, e.x, e.ty, e.rhs, m, env, lay, Slots(e.rhs));
  }
}
