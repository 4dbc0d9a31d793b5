/** gen_expr: emits the code of an expression through the emitter, with labels
    and fixups; the result, once its labels are placed, is Comp(e). */
module CcGenExpr {
  import opened RvArith
  import opened RvMachine
  import opened CcMacros
  import opened CcSource
  import opened CcCode
  import opened CcBuffer
  import opened CcEmitter

  lemma EmittedThree(b0: Buf, b1: Buf, b2: Buf, b3: Buf, s1: seq<Instr>, s2: seq<Instr>, s3: seq<Instr>)
    requires Emitted(b0, b1, s1) && Emitted(b1, b2, s2) && Emitted(b2, b3, s3)
    ensures Emitted(b0, b3, s1 + (s2 + s3))
  {
    EmittedTrans(b1, b2, b3, s2, s3);
    EmittedTrans(b0, b1, b3, s1, s2 + s3);
  }

  /** push_reg */
  method PushReg(g: Emitter, r: nat)
    requires g.Valid() && r < 32
    modifies g
    ensures g.Valid() && Emitted(old(g.b), g.b, Push(r)) && g.curBreak == old(g.curBreak) && g.curCont == old(g.curCont)
  {
    ghost var b0 := g.b;
    g.PutAddi(SP, SP, -16);
    ghost var b1 := g.b;
    g.Put(Store(Double, r, SP, 0));
    EmittedTrans(b0, b1, g.b, Addi(SP, SP, -16), [Store(Double, r, SP, 0)]);
  }

  /** pop_reg */
  method PopReg(g: Emitter, r: nat)
    requires g.Valid() && r < 32
    modifies g
    ensures g.Valid() && Emitted(old(g.b), g.b, Pop(r)) && g.curBreak == old(g.curBreak) && g.curCont == old(g.curCont)
  {
    ghost var b0 := g.b;
    g.Put(Load(Double, r, SP, 0));
    ghost var b1 := g.b;
    g.PutAddi(SP, SP, 16);
    EmittedTrans(b0, b1, g.b, [Load(Double, r, SP, 0)], Addi(SP, SP, 16));
  }

  /** the operation of gen_bin, then cast_to */
  method PutArith(g: Emitter, op: ArithOp, ty: Ty)
    requires g.Valid()
    modifies g
    ensures g.Valid() && Emitted(old(g.b), g.b, [Op(Arith(op), A0, A0, A1)] + CastCode(ty))
    ensures g.curBreak == old(g.curBreak) && g.curCont == old(g.curCont)
  {
    ghost var b0 := g.b;
    g.Put(Op(Arith(op), A0, A0, A1));
    ghost var b1 := g.b;
    g.PutAll(CastCode(ty));
    EmittedTrans(b0, b1, g.b, [Op(Arith(op), A0, A0, A1)], CastCode(ty));
  }

  /** save a0, right operand into a1, restore a0 */
  method GenRight(g: Emitter, ghost L: ExprLang, r: Expr)
    requires Matches(L) && g.Valid()
    modifies g
    ensures g.Valid() && Emitted(old(g.b), g.b, RightCode(L.comp(r))) && g.curBreak == old(g.curBreak)
    ensures g.curCont == old(g.curCont)
    decreases r, 2
  {
    ghost var b0 := g.b;
    PushReg(g, A0);
    ghost var b1 := g.b;
    GenExpr(g, L, r);
    ghost var b2 := g.b;
    g.PutAddi(A1, A0, 0);
    ghost var b3 := g.b;
    PopReg(g, A0);
    EmittedTrans(b2, b3, g.b, Mv(A1, A0), Pop(A0));
    EmittedTrans(b1, b2, g.b, L.comp(r), Mv(A1, A0) + Pop(A0));
    EmittedTrans(b0, b1, g.b, Push(A0), L.comp(r) + (Mv(A1, A0) + Pop(A0)));
  }

  /** store_value, then the value back into a0 */
  method PutFinishStore(g: Emitter, ty: Ty)
    requires g.Valid()
    modifies g
    ensures g.Valid() && Emitted(old(g.b), g.b, FinishStore(ty)) && g.curBreak == old(g.curBreak)
    ensures g.curCont == old(g.curCont)
  {
    ghost var b0 := g.b;
    g.PutAll(StoreCode(ty));
    ghost var b1 := g.b;
    g.PutAddi(A0, A1, 0);
    ghost var b2 := g.b;
    g.PutAll(CastCode(ty));
    EmittedTrans(b1, b2, g.b, Mv(A0, A1), CastCode(ty));
    EmittedTrans(b0, b1, g.b, StoreCode(ty), Mv(A0, A1) + CastCode(ty));
  }

  method PutOldValue(g: Emitter, x: nat, ty: Ty)
    requires g.Valid()
    modifies g
    ensures g.Valid() && Emitted(old(g.b), g.b, OldValueCode(x, ty)) && g.curBreak == old(g.curBreak)
    ensures g.curCont == old(g.curCont)
  {
    ghost var b0 := g.b;
    g.PutAddi(A0, S0, 0 - x);
    ghost var b1 := g.b;
    PushReg(g, A0);
    ghost var b2 := g.b;
    g.PutAll(LoadCode(ty));
    EmittedTrans(b1, b2, g.b, Push(A0), LoadCode(ty));
    EmittedTrans(b0, b1, g.b, AddrCode(x), Push(A0) + LoadCode(ty));
  }

  method PutOpAssignTail(g: Emitter, op: ArithOp, ty: Ty)
    requires g.Valid()
    modifies g
    ensures g.Valid() && Emitted(old(g.b), g.b, OpAssignTail(op, ty)) && g.curBreak == old(g.curBreak)
    ensures g.curCont == old(g.curCont)
  {
    ghost var b0 := g.b;
    g.Put(Op(Arith(op), A0, A0, A1));
    ghost var b1 := g.b;
    PushReg(g, A0);
    ghost var b2 := g.b;
    PopReg(g, A1);
    ghost var b3 := g.b;
    PopReg(g, A0);
    ghost var b4 := g.b;
    PutFinishStore(g, ty);
    EmittedTrans(b3, b4, g.b, Pop(A0), FinishStore(ty));
    EmittedTrans(b2, b3, g.b, Pop(A1), Pop(A0) + FinishStore(ty));
    EmittedTrans(b1, b2, g.b, Push(A0), Pop(A1) + (Pop(A0) + FinishStore(ty)));
    EmittedTrans(b0, b1, g.b, [Op(Arith(op), A0, A0, A1)], Push(A0) + (Pop(A1) + (Pop(A0) + FinishStore(ty))));
  }

  method PutIncDecStore(g: Emitter, prefix: bool, ty: Ty)
    requires g.Valid()
    modifies g
    ensures g.Valid() && g.curBreak == old(g.curBreak) && g.curCont == old(g.curCont)
    ensures Emitted(old(g.b), g.b, Mv(A0, T1) + (StoreCode(ty) + (Mv(A0, if prefix then A1 else T0) + CastCode(ty))))
  {
    ghost var b0 := g.b;
    var r := if prefix then A1 else T0;
    g.PutAddi(A0, T1, 0);
    ghost var b1 := g.b;
    g.PutAll(StoreCode(ty));
    ghost var b2 := g.b;
    g.PutAddi(A0, r, 0);
    ghost var b3 := g.b;
    g.PutAll(CastCode(ty));
    EmittedTrans(b2, b3, g.b, Mv(A0, r), CastCode(ty));
    EmittedTrans(b1, b2, g.b, StoreCode(ty), Mv(A0, r) + CastCode(ty));
    EmittedTrans(b0, b1, g.b, Mv(A0, T1), StoreCode(ty) + (Mv(A0, r) + CastCode(ty)));
  }

  method PutPops(g: Emitter, prefix: bool, ty: Ty)
    requires g.Valid()
    modifies g
    ensures g.Valid() && g.curBreak == old(g.curBreak) && g.curCont == old(g.curCont)
    ensures Emitted(old(g.b), g.b, Pop(T0) +
      (Pop(T1) + (Mv(A0, T1) + (StoreCode(ty) + (Mv(A0, if prefix then A1 else T0) + CastCode(ty))))))
  {
    ghost var b0 := g.b;
    ghost var st := Mv(A0, T1) + (StoreCode(ty) + (Mv(A0, if prefix then A1 else T0) + CastCode(ty)));
    PopReg(g, T0);
    ghost var b1 := g.b;
    PopReg(g, T1);
    ghost var b2 := g.b;
    PutIncDecStore(g, prefix, ty);
    EmittedTrans(b1, b2, g.b, Pop(T1), st);
    EmittedTrans(b0, b1, g.b, Pop(T0), Pop(T1) + st);
  }

  method PutIncDecTail(g: Emitter, prefix: bool, d: int, ty: Ty)
    requires g.Valid()
    modifies g
    ensures g.Valid() && Emitted(old(g.b), g.b, IncDecTail(prefix, d, ty)) && g.curBreak == old(g.curBreak)
    ensures g.curCont == old(g.curCont)
  {
    ghost var b0 := g.b;
    ghost var rest :=
      Pop(T0) + (Pop(T1) + (Mv(A0, T1) + (StoreCode(ty) + (Mv(A0, if prefix then A1 else T0) + CastCode(ty)))));
    PushReg(g, A0);
    ghost var b1 := g.b;
    g.PutAddi(A0, A0, d);
    ghost var b2 := g.b;
    PushReg(g, A0);
    ghost var b3 := g.b;
    PopReg(g, A1);
    ghost var b4 := g.b;
    PutPops(g, prefix, ty);
    EmittedTrans(b3, b4, g.b, Pop(A1), rest);
    EmittedTrans(b2, b3, g.b, Push(A0), Pop(A1) + rest);
    EmittedTrans(b1, b2, g.b, Addi(A0, A0, d), Push(A0) + (Pop(A1) + rest));
    EmittedTrans(b0, b1, g.b, Push(A0), Addi(A0, A0, d) + (Push(A0) + (Pop(A1) + rest)));
  }

  /** jump_if_zero (or nonzero): a branch over a pending jump */
  ghost predicate Jumped(b: Buf, b1: Buf, zero: bool, lbl: nat) {
    && BufOk(b1) && Grows(b, b1) && SameLabels(b, b1) && |b1.ins| == |b.ins| + 2
    && HasCode(b1, |b.ins|, [Branch(zero, A0, X0, 8)]) && HasJump(b1, |b.ins| + 1, lbl)
  }

  method PutJumpIf(g: Emitter, zero: bool, lbl: nat)
    requires g.Valid() && lbl < |g.b.pos|
    modifies g
    ensures g.Valid() && Jumped(old(g.b), g.b, zero, lbl) && g.curBreak == old(g.curBreak)
    ensures g.curCont == old(g.curCont)
  {
    g.Put(Branch(zero, A0, X0, 8));
    ghost var b1 := g.b;
    g.JumpTo(lbl);
    GrowsTrans(old(g.b), b1, g.b);
    SameLabelsTrans(old(g.b), b1, g.b);
    CodeKept(b1, g.b, |old(g.b).ins|, [Branch(zero, A0, X0, 8)]);
  }

  /** once the label is placed, that is JumpIf */
  lemma JumpIfSettled(b: Buf, w: nat, zero: bool, lbl: nat, p: int)
    requires HasCode(b, w, [Branch(zero, A0, X0, 8)]) && HasJump(b, w + 1, lbl) && lbl < |b.pos| && b.pos[lbl] == p >= 0
    ensures HasCode(b, w, JumpIf(zero, p - (w + 1)))
  {
    JumpSettled(b, w + 1, lbl, p);
    CodeJoin(b, w, [Branch(zero, A0, X0, 8)], [Jal(X0, 4 * (p - (w + 1)))]);
    assert JumpIf(zero, p - (w + 1)) == [Branch(zero, A0, X0, 8)] + [Jal(X0, 4 * (p - (w + 1)))];
  }

  /** gen_expr */
  method GenExpr(g: Emitter, ghost L: ExprLang, e: Expr)
    requires Matches(L) && g.Valid()
    modifies g
    ensures g.Valid() && Emitted(old(g.b), g.b, L.comp(e)) && g.curBreak == old(g.curBreak)
    ensures g.curCont == old(g.curCont)
    decreases e, 1
  {
    CompIs(L, e);
    match e
    case Num(v) => g.PutLi(A0, v);
    case Var(x, ty) => GenVar(g, x, ty);
    case Assign(x, ty, rhs) => GenAssign(g, L, x, ty, rhs);
    case OpAssign(op, x, ty, rhs) => GenOpAssign(g, L, op, x, ty, rhs);
    case IncDec(prefix, d, x, ty) => GenIncDec(g, prefix, d, x, ty);
    case Bin(op, l, r) => GenBin(g, L, op, l, r, TypeOf(e));
    case Cmp(c, l, r) => GenCmp(g, L, c, l, r);
    case Logic(or, l, r) => GenLogic(g, L, or, l, r);
    case Un(u, e1) => GenThen(g, L, e1, UnCode(u, TypeOf(e1)));
    case Cast(ty, e1) => GenThen(g, L, e1, CastCode(ty));
    case Cond(c, t, f) => GenCond(g, L, c, t, f);
    case Comma(l, r) => GenComma(g, L, e, l, r);
  }

  method GenVar(g: Emitter, x: nat, ty: Ty)
    requires g.Valid()
    modifies g
    ensures g.Valid() && Emitted(old(g.b), g.b, AddrCode(x) + LoadCode(ty)) && g.curBreak == old(g.curBreak)
    ensures g.curCont == old(g.curCont)
  {
    ghost var b0 := g.b;
    g.PutAddi(A0, S0, 0 - x);
    ghost var b1 := g.b;
    g.PutAll(LoadCode(ty));
    EmittedTrans(b0, b1, g.b, AddrCode(x), LoadCode(ty));
  }

  /** gen_incdec */
  method GenIncDec(g: Emitter, prefix: bool, d: int, x: nat, ty: Ty)
    requires g.Valid()
    modifies g
    ensures g.Valid() && Emitted(old(g.b), g.b, OldValueCode(x, ty) + IncDecTail(prefix, d, ty))
    ensures g.curBreak == old(g.curBreak) && g.curCont == old(g.curCont)
  {
    ghost var b0 := g.b;
    PutOldValue(g, x, ty);
    ghost var b1 := g.b;
    PutIncDecTail(g, prefix, d, ty);
    EmittedTrans(b0, b1, g.b, OldValueCode(x, ty), IncDecTail(prefix, d, ty));
  }

  /** an operand, then a fixed sequence on a0 */
  method GenThen(g: Emitter, ghost L: ExprLang, e1: Expr, tail: seq<Instr>)
    requires Matches(L) && g.Valid() && AllLegal(tail)
    modifies g
    ensures g.Valid() && Emitted(old(g.b), g.b, L.comp(e1) + tail) && g.curBreak == old(g.curBreak)
    ensures g.curCont == old(g.curCont)
    decreases e1, 2
  {
    ghost var b0 := g.b;
    GenExpr(g, L, e1);
    ghost var b1 := g.b;
    g.PutAll(tail);
    EmittedTrans(b0, b1, g.b, L.comp(e1), tail);
  }

  method GenComma(g: Emitter, ghost L: ExprLang, ghost e: Expr, l: Expr, r: Expr)
    requires Matches(L) && l < e && r < e && g.Valid()
    modifies g
    ensures g.Valid() && Emitted(old(g.b), g.b, L.comp(l) + L.comp(r)) && g.curBreak == old(g.curBreak)
    ensures g.curCont == old(g.curCont)
    decreases e, 0, 1
  {
    ghost var b0 := g.b;
    GenExpr(g, L, l);
    GenAfter(g, L, e, r, b0, L.comp(l));
  }

  /** an expression behind code already emitted */
  method GenAfter(g: Emitter, ghost L: ExprLang, ghost e: Expr, r: Expr, ghost b0: Buf, ghost front: seq<Instr>)
    requires Matches(L) && r < e && g.Valid() && Emitted(b0, g.b, front)
    modifies g
    ensures g.Valid() && Emitted(b0, g.b, front + L.comp(r)) && g.curBreak == old(g.curBreak)
    ensures g.curCont == old(g.curCont)
    decreases e, 0, 0
  {
    ghost var b1 := g.b;
    GenExpr(g, L, r);
    EmittedTrans(b0, b1, g.b, front, L.comp(r));
  }

  method GenAssign(g: Emitter, ghost L: ExprLang, x: nat, ty: Ty, rhs: Expr)
    requires Matches(L) && g.Valid()
    modifies g
    ensures g.Valid() && Emitted(old(g.b), g.b, AddrCode(x) + (RightCode(L.comp(rhs)) + FinishStore(ty)))
    ensures g.curBreak == old(g.curBreak) && g.curCont == old(g.curCont)
    decreases rhs, 3
  {
    ghost var b0 := g.b;
    g.PutAddi(A0, S0, 0 - x);
    ghost var b1 := g.b;
    GenRight(g, L, rhs);
    ghost var b2 := g.b;
    PutFinishStore(g, ty);
    EmittedTrans(b1, b2, g.b, RightCode(L.comp(rhs)), FinishStore(ty));
    EmittedTrans(b0, b1, g.b, AddrCode(x), RightCode(L.comp(rhs)) + FinishStore(ty));
  }

  /** gen_opassign */
  method GenOpAssign(g: Emitter, ghost L: ExprLang, op: ArithOp, x: nat, ty: Ty, rhs: Expr)
    requires Matches(L) && g.Valid()
    modifies g
    ensures g.Valid() && Emitted(old(g.b), g.b, OldValueCode(x, ty) + (RightCode(L.comp(rhs)) + OpAssignTail(op, ty)))
    ensures g.curBreak == old(g.curBreak) && g.curCont == old(g.curCont)
    decreases rhs, 3
  {
    ghost var b0 := g.b;
    PutOldValue(g, x, ty);
    ghost var b1 := g.b;
    GenRight(g, L, rhs);
    ghost var b2 := g.b;
    PutOpAssignTail(g, op, ty);
    EmittedTrans(b1, b2, g.b, RightCode(L.comp(rhs)), OpAssignTail(op, ty));
    EmittedTrans(b0, b1, g.b, OldValueCode(x, ty), RightCode(L.comp(rhs)) + OpAssignTail(op, ty));
  }

  /** the operands of gen_bin: left in a0, right in a1 */
  method GenBoth(g: Emitter, ghost L: ExprLang, ghost e: Expr, l: Expr, r: Expr)
    requires Matches(L) && l < e && r < e && g.Valid()
    modifies g
    ensures g.Valid() && Emitted(old(g.b), g.b, L.comp(l) + RightCode(L.comp(r))) && g.curBreak == old(g.curBreak)
    ensures g.curCont == old(g.curCont)
    decreases e, 0, 0
  {
    ghost var b0 := g.b;
    GenExpr(g, L, l);
    ghost var b1 := g.b;
    GenRight(g, L, r);
    EmittedTrans(b0, b1, g.b, L.comp(l), RightCode(L.comp(r)));
  }

  lemma EmittedTail(b0: Buf, b2: Buf, b3: Buf, s1: seq<Instr>, s2: seq<Instr>, s3: seq<Instr>)
    requires Emitted(b0, b2, s1 + s2) && Emitted(b2, b3, s3)
    ensures Emitted(b0, b3, s1 + (s2 + s3))
  {
    EmittedTrans(b0, b2, b3, s1 + s2, s3);
    assert s1 + (s2 + s3) == (s1 + s2) + s3;
  }

  /** gen_bin, arithmetic */
  method GenBin(g: Emitter, ghost L: ExprLang, op: ArithOp, l: Expr, r: Expr, ty: Ty)
    requires Matches(L) && g.Valid()
    modifies g
    ensures g.Valid()
    ensures Emitted(old(g.b), g.b, L.comp(l) + (RightCode(L.comp(r)) + ([Op(Arith(op), A0, A0, A1)] + CastCode(ty))))
    ensures g.curBreak == old(g.curBreak) && g.curCont == old(g.curCont)
    decreases Bin(op, l, r), 0, 1
  {
    ghost var b0 := g.b;
    GenBoth(g, L, Bin(op, l, r), l, r);
    ghost var b2 := g.b;
    PutArith(g, op, ty);
    EmittedTail(b0, b2, g.b, L.comp(l), RightCode(L.comp(r)), [Op(Arith(op), A0, A0, A1)] + CastCode(ty));
  }

  method PutCmp(g: Emitter, c: CmpOp)
    requires g.Valid()
    modifies g
    ensures g.Valid() && Emitted(old(g.b), g.b, CmpCode(c)) && g.curBreak == old(g.curBreak)
    ensures g.curCont == old(g.curCont)
  {
    g.PutAll(CmpCode(c));
  }

  /** gen_bin, comparisons */
  method GenCmp(g: Emitter, ghost L: ExprLang, c: CmpOp, l: Expr, r: Expr)
    requires Matches(L) && g.Valid()
    modifies g
    ensures g.Valid() && Emitted(old(g.b), g.b, L.comp(l) + (RightCode(L.comp(r)) + CmpCode(c)))
    ensures g.curBreak == old(g.curBreak) && g.curCont == old(g.curCont)
    decreases Cmp(c, l, r), 0, 1
  {
    ghost var b0 := g.b;
    GenBoth(g, L, Cmp(c, l, r), l, r);
    ghost var b2 := g.b;
    PutCmp(g, c);
    EmittedTail(b0, b2, g.b, L.comp(l), RightCode(L.comp(r)), CmpCode(c));
  }

  // ----- && and ||, ?: -----

  /** where the pieces of LogicCode stand when its two labels are placed */
  ghost predicate LogicPieces(b: Buf, w: nat, or: bool, cr: seq<Instr>, short: nat, end: nat) {
    var k := |cr|;
    && HasCode(b, w, [Branch(!or, A0, X0, 8)]) && HasJump(b, w + 1, short) && HasCode(b, w + 2, cr)
    && HasCode(b, w + 2 + k, [Branch(!or, A0, X0, 8)]) && HasJump(b, w + 3 + k, short)
    && HasCode(b, w + 4 + k, Li(A0, Truth(!or))) && HasJump(b, w + 5 + k, end) &&
      HasCode(b, w + 6 + k, Li(A0, Truth(or)))
    && short < |b.pos| && b.pos[short] == w + 6 + k && end < |b.pos| && b.pos[end] == w + 7 + k
  }

  lemma LogicSettled(b: Buf, w: nat, or: bool, cr: seq<Instr>, short: nat, end: nat)
    requires LogicPieces(b, w, or, cr, short, end)
    ensures HasCode(b, w, LogicCode(or, cr))
  {
    var k := |cr|;
    var l1, l2 := Li(A0, Truth(!or)), Li(A0, Truth(or));
    var j1, j2, j3 := JumpIf(!or, k + 5), JumpIf(!or, 3), [Jal(X0, 8)];
    JumpIfSettled(b, w, !or, short, w + 6 + k);
    JumpIfSettled(b, w + 2 + k, !or, short, w + 6 + k);
    JumpSettled(b, w + 5 + k, end, w + 7 + k);
    CodeJoin(b, w + 5 + k, j3, l2);
    CodeJoin(b, w + 4 + k, l1, j3 + l2);
    CodeJoin(b, w + 2 + k, j2, l1 + (j3 + l2));
    CodeJoin(b, w + 2, cr, j2 + (l1 + (j3 + l2)));
    CodeJoin(b, w, j1, cr + (j2 + (l1 + (j3 + l2))));
  }

  /** everything emitted so far for the right-hand side of && or || */
  ghost predicate LogicOpen(b: Buf, w: nat, or: bool, cr: seq<Instr>, short: nat) {
    var k := |cr|;
    && HasCode(b, w, [Branch(!or, A0, X0, 8)]) && HasJump(b, w + 1, short) && HasCode(b, w + 2, cr)
    && HasCode(b, w + 2 + k, [Branch(!or, A0, X0, 8)]) && HasJump(b, w + 3 + k, short)
  }

  lemma LogicOpenKept(b: Buf, b1: Buf, w: nat, or: bool, cr: seq<Instr>, short: nat)
    requires BufOk(b) && Grows(b, b1) && LogicOpen(b, w, or, cr, short)
    ensures LogicOpen(b1, w, or, cr, short)
  {
    var k, br := |cr|, [Branch(!or, A0, X0, 8)];
    CodeKept(b, b1, w, br);
    JumpKept(b, b1, w + 1, short);
    CodeKept(b, b1, w + 2, cr);
    CodeKept(b, b1, w + 2 + k, br);
    JumpKept(b, b1, w + 3 + k, short);
  }

  method GenLogicOpen(g: Emitter, ghost L: ExprLang, or: bool, r: Expr, short: nat)
    requires Matches(L) && g.Valid() && short < |g.b.pos|
    modifies g
    ensures g.Valid() && g.curBreak == old(g.curBreak) && g.curCont == old(g.curCont)
    ensures Grows(old(g.b), g.b) && SameLabels(old(g.b), g.b) && |g.b.ins| == |old(g.b).ins| + |L.comp(r)| + 4
    ensures LogicOpen(g.b, |old(g.b).ins|, or, L.comp(r), short)
    decreases r, 2
  {
    ghost var b0, br := g.b, [Branch(!or, A0, X0, 8)];
    PutJumpIf(g, !or, short);
    ghost var b1 := g.b;
    GenExpr(g, L, r);
    ghost var b2 := g.b;
    PutJumpIf(g, !or, short);
    GrowsTrans(b1, b2, g.b);
    GrowsTrans(b0, b1, g.b);
    SameLabelsTrans(b1, b2, g.b);
    SameLabelsTrans(b0, b1, g.b);
    CodeKept(b1, g.b, |b0.ins|, br);
    JumpKept(b1, g.b, |b0.ins| + 1, short);
    CodeKept(b2, g.b, |b1.ins|, L.comp(r));
  }

  /** load one result, jump past the other, which stands at the label `short` */
  method GenLogicClose(g: Emitter, or: bool, short: nat, end: nat)
    requires g.Valid() && short < |g.b.pos| && end < |g.b.pos| && short != end && g.b.pos[short] < 0 && g.b.pos[end] < 0
    modifies g
    ensures g.Valid() && g.curBreak == old(g.curBreak) && g.curCont == old(g.curCont)
    ensures Grows(old(g.b), g.b) && |g.b.ins| == |old(g.b).ins| + 3 && |g.b.pos| == |old(g.b).pos|
    ensures var w := |old(g.b).ins|;
      HasCode(g.b, w, Li(A0, Truth(!or))) && HasJump(g.b, w + 1, end) && HasCode(g.b, w + 2, Li(A0, Truth(or)))
    ensures g.b.pos == old(g.b).pos[short := |old(g.b).ins| + 2][end := |old(g.b).ins| + 3]
  {
    ghost var b0 := g.b;
    g.PutAll(Li(A0, Truth(!or)));
    ghost var b1 := g.b;
    g.JumpTo(end);
    ghost var b2 := g.b;
    g.PlaceLabel(short);
    ghost var b3 := g.b;
    g.PutAll(Li(A0, Truth(or)));
    ghost var b4 := g.b;
    g.PlaceLabel(end);
    GrowsTrans(b3, b4, g.b);
    GrowsTrans(b2, b3, g.b);
    GrowsTrans(b1, b2, g.b);
    GrowsTrans(b0, b1, g.b);
    CodeKept(b1, g.b, |b0.ins|, Li(A0, Truth(!or)));
    JumpKept(b2, g.b, |b1.ins|, end);
    CodeKept(b4, g.b, |b3.ins|, Li(A0, Truth(or)));
  }

  method GenLogic(g: Emitter, ghost L: ExprLang, or: bool, l: Expr, r: Expr)
    requires Matches(L) && g.Valid()
    modifies g
    ensures g.Valid() && Emitted(old(g.b), g.b, L.comp(l) + LogicCode(or, L.comp(r))) && g.curBreak == old(g.curBreak)
    ensures g.curCont == old(g.curCont)
    decreases Logic(or, l, r), 0
  {
    ghost var b0 := g.b;
    var short, end := GenTwoWay(g, L, l);
    ghost var b3 := g.b;
    GenLogicRest(g, L, or, r, short, end);
    CodeAfter(b0, b3, g.b, L.comp(l), LogicCode(or, L.comp(r)));
  }

  /** two new labels, then the operand that decides between two ways */
  method GenTwoWay(g: Emitter, ghost L: ExprLang, c: Expr) returns (l1: nat, l2: nat)
    requires Matches(L) && g.Valid()
    modifies g
    ensures g.Valid() && Emitted(old(g.b), g.b, L.comp(c)) && g.curBreak == old(g.curBreak)
    ensures g.curCont == old(g.curCont)
    ensures l1 == |old(g.b).pos| && l1 < l2 < |g.b.pos| && g.b.pos[l1] < 0 && g.b.pos[l2] < 0
    decreases c, 2
  {
    ghost var b0 := g.b;
    l1 := g.NewLabel();
    ghost var b1 := g.b;
    l2 := g.NewLabel();
    ghost var b2 := g.b;
    GenExpr(g, L, c);
    LabelSame(b2, g.b, l1);
    LabelSame(b2, g.b, l2);
    GrowsTrans(b0, b1, b2);
    LabelsEmitted(b0, b2, g.b, L.comp(c));
  }

  /** seg has been appended; labels from n on may have been placed */
  ghost predicate Finished(b: Buf, b1: Buf, n: nat, seg: seq<Instr>) {
    && BufOk(b1) && Grows(b, b1) && n <= |b.pos| <= |b1.pos| && b1.pos[..n] == b.pos[..n]
    && |b1.ins| == |b.ins| + |seg| && HasCode(b1, |b.ins|, seg)
  }

  lemma CodeAfter(b0: Buf, b3: Buf, b5: Buf, cc: seq<Instr>, rest: seq<Instr>)
    requires Emitted(b0, b3, cc) && Finished(b3, b5, |b0.pos|, rest)
    ensures Emitted(b0, b5, cc + rest)
  {
    GrowsTrans(b0, b3, b5);
    CodeKept(b3, b5, |b0.ins|, cc);
    CodeJoin(b5, |b0.ins|, cc, rest);
  }

  method GenLogicRest(g: Emitter, ghost L: ExprLang, or: bool, r: Expr, short: nat, end: nat)
    requires Matches(L) && g.Valid() && short < end < |g.b.pos| && g.b.pos[short] < 0 && g.b.pos[end] < 0
    modifies g
    ensures g.Valid() && Finished(old(g.b), g.b, short, LogicCode(or, L.comp(r))) && g.curBreak == old(g.curBreak)
    ensures g.curCont == old(g.curCont)
    decreases r, 3
  {
    ghost var b3 := g.b;
    GenLogicOpen(g, L, or, r, short);
    ghost var b4 := g.b;
    LabelSame(b3, b4, short);
    LabelSame(b3, b4, end);
    GenLogicClose(g, or, short, end);
    LogicJoin(b3, b4, g.b, or, L.comp(r), short, end);
    GrowsTrans(b3, b4, g.b);
    assert g.b.pos[..short] == b4.pos[..short] == b4.pos[..|b3.pos|][..short];
  }

  lemma LabelSame(b: Buf, b1: Buf, l: nat)
    requires SameLabels(b, b1) && l < |b.pos|
    ensures b1.pos[l] == b.pos[l]
  {
    assert b1.pos[..|b.pos|][l] == b.pos[l];
  }

  /** labels allocated before do not matter */
  lemma LabelsEmitted(b0: Buf, b2: Buf, b3: Buf, seg: seq<Instr>)
    requires Grows(b0, b2) && b2.ins == b0.ins && |b2.pos| >= |b0.pos| && b2.pos[..|b0.pos|] == b0.pos
    requires Emitted(b2, b3, seg)
    ensures Emitted(b0, b3, seg)
  {
    GrowsTrans(b0, b2, b3);
    SameLabelsTrans(b0, b2, b3);
  }

  lemma LogicJoin(b3: Buf, b4: Buf, b5: Buf, or: bool, cr: seq<Instr>, short: nat, end: nat)
    requires BufOk(b4) && Grows(b4, b5) && LogicOpen(b4, |b3.ins|, or, cr, short) && |b4.ins| == |b3.ins| + |cr| + 4
    requires short < |b4.pos| && end < |b4.pos| && short != end
    requires b5.pos == b4.pos[short := |b4.ins| + 2][end := |b4.ins| + 3]
    requires
      var w := |b4.ins|;
      HasCode(b5, w, Li(A0, Truth(!or))) && HasJump(b5, w + 1, end) && HasCode(b5, w + 2, Li(A0, Truth(or)))
    ensures HasCode(b5, |b3.ins|, LogicCode(or, cr))
  {
    LogicOpenKept(b4, b5, |b3.ins|, or, cr, short);
    LogicSettled(b5, |b3.ins|, or, cr, short, end);
  }

  /** the branches of ?: around two labels */
  ghost predicate CondPieces(b: Buf, w: nat, ct: seq<Instr>, cf: seq<Instr>, els: nat, end: nat) {
    && HasCode(b, w, [Branch(true, A0, X0, 8)]) && HasJump(b, w + 1, els) && HasCode(b, w + 2, ct)
    && HasJump(b, w + 2 + |ct|, end) && HasCode(b, w + 3 + |ct|, cf)
    && els < |b.pos| && b.pos[els] == w + 3 + |ct| && end < |b.pos| && b.pos[end] == w + 3 + |ct| + |cf|
  }

  lemma CondSettled(b: Buf, w: nat, ct: seq<Instr>, cf: seq<Instr>, els: nat, end: nat)
    requires CondPieces(b, w, ct, cf, els, end)
    ensures HasCode(b, w, CondCode(ct, cf))
  {
    var j1, j2 := JumpIf(true, |ct| + 2), [Jal(X0, 4 * (|cf| + 1))];
    JumpIfSettled(b, w, true, els, w + 3 + |ct|);
    JumpSettled(b, w + 2 + |ct|, end, w + 3 + |ct| + |cf|);
    CodeJoin(b, w + 2 + |ct|, j2, cf);
    CodeJoin(b, w + 2, ct, j2 + cf);
    CodeJoin(b, w, j1, ct + (j2 + cf));
  }

  /** jump out, first branch, jump to the end */
  method GenCondOpen(g: Emitter, ghost L: ExprLang, t: Expr, els: nat, end: nat)
    requires Matches(L) && g.Valid() && els < |g.b.pos| && end < |g.b.pos|
    modifies g
    ensures g.Valid() && g.curBreak == old(g.curBreak) && g.curCont == old(g.curCont)
    ensures Grows(old(g.b), g.b) && SameLabels(old(g.b), g.b) && |g.b.ins| == |old(g.b).ins| + |L.comp(t)| + 3
    ensures var w := |old(g.b).ins|;
      && HasCode(g.b, w, [Branch(true, A0, X0, 8)]) && HasJump(g.b, w + 1, els) && HasCode(g.b, w + 2, L.comp(t))
      && HasJump(g.b, w + 2 + |L.comp(t)|, end)
    decreases t, 2
  {
    ghost var b0, br := g.b, [Branch(true, A0, X0, 8)];
    PutJumpIf(g, true, els);
    ghost var b1 := g.b;
    GenExpr(g, L, t);
    ghost var b2 := g.b;
    g.JumpTo(end);
    GrowsTrans(b1, b2, g.b);
    GrowsTrans(b0, b1, g.b);
    SameLabelsTrans(b1, b2, g.b);
    SameLabelsTrans(b0, b1, g.b);
    CodeKept(b1, g.b, |b0.ins|, br);
    JumpKept(b1, g.b, |b0.ins| + 1, els);
    CodeKept(b2, g.b, |b1.ins|, L.comp(t));
  }

  /** the second branch between its label and the end label */
  method GenCondClose(g: Emitter, ghost L: ExprLang, f: Expr, els: nat, end: nat)
    requires Matches(L) && g.Valid() && els < |g.b.pos| && end < |g.b.pos| && els != end && g.b.pos[els] < 0
    requires g.b.pos[end] < 0
    modifies g
    ensures g.Valid() && g.curBreak == old(g.curBreak) && g.curCont == old(g.curCont)
    ensures Grows(old(g.b), g.b) && |g.b.ins| == |old(g.b).ins| + |L.comp(f)| && HasCode(g.b, |old(g.b).ins|, L.comp(f))
    ensures |old(g.b).pos| <= |g.b.pos|
    ensures g.b.pos[..|old(g.b).pos|] == old(g.b).pos[els := |old(g.b).ins|][end := |g.b.ins|]
    decreases f, 2
  {
    ghost var b0 := g.b;
    g.PlaceLabel(els);
    ghost var b1 := g.b;
    GenExpr(g, L, f);
    ghost var b2 := g.b;
    assert b2.pos[..|b1.pos|] == b1.pos;
    assert b2.pos[end] == b1.pos[end];
    g.PlaceLabel(end);
    GrowsTrans(b1, b2, g.b);
    GrowsTrans(b0, b1, g.b);
    CodeKept(b2, g.b, |b1.ins|, L.comp(f));
    assert g.b.pos[..|b0.pos|] == b2.pos[..|b0.pos|][end := |g.b.ins|];
  }

  method GenCond(g: Emitter, ghost L: ExprLang, c: Expr, t: Expr, f: Expr)
    requires Matches(L) && g.Valid()
    modifies g
    ensures g.Valid() && Emitted(old(g.b), g.b, L.comp(c) + CondCode(L.comp(t), L.comp(f)))
    ensures g.curBreak == old(g.curBreak) && g.curCont == old(g.curCont)
    decreases Cond(c, t, f), 0, 1
  {
    ghost var b0 := g.b;
    var els, end := GenTwoWay(g, L, c);
    ghost var b3 := g.b;
    GenCondRest(g, L, Cond(c, t, f), t, f, els, end);
    CodeAfter(b0, b3, g.b, L.comp(c), CondCode(L.comp(t), L.comp(f)));
  }

  method GenCondRest(g: Emitter, ghost L: ExprLang, ghost e: Expr, t: Expr, f: Expr, els: nat, end: nat)
    requires Matches(L) && t < e && f < e && g.Valid() && els < end < |g.b.pos| && g.b.pos[els] < 0 && g.b.pos[end] < 0
    modifies g
    ensures g.Valid() && Finished(old(g.b), g.b, els, CondCode(L.comp(t), L.comp(f))) && g.curBreak == old(g.curBreak)
    ensures g.curCont == old(g.curCont)
    decreases e, 0, 0
  {
    ghost var b3 := g.b;
    GenCondOpen(g, L, t, els, end);
    ghost var b4 := g.b;
    LabelSame(b3, b4, els);
    LabelSame(b3, b4, end);
    GenCondClose(g, L, f, els, end);
    CondWhole(b3, b4, g.b, L.comp(t), L.comp(f), els, end);
  }

  lemma CondWhole(b3: Buf, b4: Buf, b5: Buf, ct: seq<Instr>, cf: seq<Instr>, els: nat, end: nat)
    requires BufOk(b4) && Grows(b3, b4) && Grows(b4, b5) && BufOk(b5) && SameLabels(b3, b4)
    requires els < end < |b3.pos| && |b4.pos| <= |b5.pos|
    requires b5.pos[..|b4.pos|] == b4.pos[els := |b4.ins|][end := |b5.ins|]
    requires |b4.ins| == |b3.ins| + |ct| + 3 && |b5.ins| == |b4.ins| + |cf| && HasCode(b5, |b4.ins|, cf)
    requires var w := |b3.ins|;
      && HasCode(b4, w, [Branch(true, A0, X0, 8)]) && HasJump(b4, w + 1, els) && HasCode(b4, w + 2, ct)
      && HasJump(b4, w + 2 + |ct|, end)
    ensures Finished(b3, b5, els, CondCode(ct, cf))
  {
    var w, br := |b3.ins|, [Branch(true, A0, X0, 8)];
    CodeKept(b4, b5, w, br);
    JumpKept(b4, b5, w + 1, els);
    CodeKept(b4, b5, w + 2, ct);
    JumpKept(b4, b5, w + 2 + |ct|, end);
    assert b5.pos[els] == b5.pos[..|b4.pos|][els] && b5.pos[end] == b5.pos[..|b4.pos|][end];
    CondSettled(b5, w, ct, cf, els, end);
    GrowsTrans(b3, b4, b5);
    assert b5.pos[..els] == b5.pos[..|b4.pos|][..els] == b4.pos[..els] == b4.pos[..|b3.pos|][..els];
  }
}
