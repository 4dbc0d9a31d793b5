/** Running code inside a stack frame: locals live at fixed offsets below s0,
    temporaries are pushed below sp, and nothing else at or above sp moves. */
module CcFrame {
  import opened Options
  import opened RvArith
  import opened RvMachine
  import opened CcMacros
  import opened CcSource
  import opened CcCode

  /** what loading a variable's slot gives */
  function LoadVar(ty: Ty, mem: Mem, a: int): int {
    match ty case I32 => Wrap32(Rd(mem, a)) case I64 => Rd(mem, a)
  }

  ghost predicate VarAt(m: Machine, env: Env, lay: Layout, x: nat)
    requires |m.regs| == 32
  {
    && x in lay && x in env && x % 8 == 0 && 0 < x < H32 && m.regs[SP] <= m.regs[S0] - x
    && LoadVar(lay[x], m.mem, m.regs[S0] - x) == env[x]
  }

  /** the machine's frame holds the locals' values */
  ghost predicate Frame(m: Machine, env: Env, lay: Layout) {
    && Ok(m) && m.regs[S0] % 16 == 0 && m.regs[SP] % 16 == 0 && 0 <= m.regs[SP] <= m.regs[S0] < H64 - 16
    && forall x {:trigger VarAt(m, env, lay, x)} | x in lay :: VarAt(m, env, lay, x)
  }

  /** room for n pushes */
  predicate Room(m: Machine, n: nat) { |m.regs| == 32 && m.regs[SP] >= 16 * n }

  ghost predicate KeptAt(m: Machine, m': Machine, a: int) { Rd(m'.mem, a) == Rd(m.mem, a) }

  ghost predicate IsSlot(m: Machine, lay: Layout, a: int)
    requires |m.regs| == 32
  {
    m.regs[S0] >= a && m.regs[S0] - a in lay
  }

  /** the same frame later: sp, s0 and ra are back, and memory at or above sp
      has changed at most in the locals */
  ghost predicate Within(m: Machine, m': Machine, lay: Layout) {
    && |m.regs| == 32 && |m'.regs| == 32
    && m'.regs[SP] == m.regs[SP] && m'.regs[S0] == m.regs[S0] && m'.regs[RA] == m.regs[RA]
    && forall a {:trigger KeptAt(m, m', a)} | a >= m.regs[SP] && !IsSlot(m, lay, a) :: KeptAt(m, m', a)
  }

  lemma WithinTrans(m: Machine, m1: Machine, m2: Machine, lay: Layout)
    requires Within(m, m1, lay) && Within(m1, m2, lay)
    ensures Within(m, m2, lay)
  {
    forall a {:trigger KeptAt(m, m2, a)} | a >= m.regs[SP] && !IsSlot(m, lay, a) ensures KeptAt(m, m2, a) {
      assert KeptAt(m, m1, a) && KeptAt(m1, m2, a);
    }
  }

  lemma WithinSame(m: Machine, m': Machine, lay: Layout)
    requires |m.regs| == 32 && |m'.regs| == 32 && m'.mem == m.mem
    requires m'.regs[SP] == m.regs[SP] && m'.regs[S0] == m.regs[S0] && m'.regs[RA] == m.regs[RA]
    ensures Within(m, m', lay)
  {
  }

  lemma FrameSame(m: Machine, m': Machine, env: Env, lay: Layout)
    requires Frame(m, env, lay) && Ok(m') && m'.mem == m.mem && m'.regs[SP] == m.regs[SP] && m'.regs[S0] == m.regs[S0]
    ensures Frame(m', env, lay)
  {
    forall x {:trigger VarAt(m', env, lay, x)} | x in lay
      ensures VarAt(m', env, lay, x)
    {
      assert VarAt(m, env, lay, x);
    }
  }

  /** registers the code may use freely */
  predicate Scratch(rd: nat) { 0 < rd < 32 && rd != SP && rd != S0 && rd != RA }

  /** m' is reached from m in the same frame, n instructions further on */
  ghost predicate Leads(code: Code, m: Machine, m': Machine, n: int, env: Env, lay: Layout) {
    Goes(code, m, m') && m'.pc == m.pc + 4 * n && Within(m, m', lay) && Frame(m', env, lay)
  }

  lemma LeadsTrans(code: Code, m: Machine, m1: Machine, m2: Machine, n: int, k: int, env1: Env, env2: Env, lay: Layout)
    requires Leads(code, m, m1, n, env1, lay) && Leads(code, m1, m2, k, env2, lay)
    ensures Leads(code, m, m2, n + k, env2, lay)
  {
    GoesTrans(code, m, m1, m2);
    WithinTrans(m, m1, m2, lay);
  }

  /** one instruction writing a scratch register */
  lemma RegStep(code: Code, m: Machine, i: Instr, rd: nat, v: int, env: Env, lay: Layout) returns (m': Machine)
    requires Frame(m, env, lay) && At(code, m.pc, [i]) && RegsOk(i) && Scratch(rd) && InS64(v)
    requires Exec(i, m) == Some(With(m, 1, rd, v))
    ensures m' == With(m, 1, rd, v) && Leads(code, m, m', 1, env, lay)
  {
    m' := With(m, 1, rd, v);
    SetAt(code, m, i, rd, v);
    WithOk(m, 1, rd, v);
    FrameSame(m, m', env, lay);
    WithinSame(m, m', lay);
  }

  lemma LiStep(code: Code, m: Machine, rd: nat, v: int, env: Env, lay: Layout) returns (m': Machine)
    requires Frame(m, env, lay) && At(code, m.pc, Li(rd, v)) && Scratch(rd) && InS64(v)
    ensures m' == With(m, |Li(rd, v)|, rd, v) && Leads(code, m, m', |Li(rd, v)|, env, lay)
  {
    m' := With(m, |Li(rd, v)|, rd, v);
    LiCorrect(code, m, rd, v);
    WithOk(m, |Li(rd, v)|, rd, v);
    FrameSame(m, m', env, lay);
    WithinSame(m, m', lay);
  }

  lemma AddiStep(code: Code, m: Machine, rd: nat, rs: nat, imm: int, env: Env, lay: Layout) returns (m': Machine)
    requires Frame(m, env, lay) && At(code, m.pc, Addi(rd, rs, imm)) && Scratch(rd) && rd != T6 && rs < 32 && rs != T6
    requires InS32(imm)
    ensures Leads(code, m, m', |Addi(rd, rs, imm)|, env, lay) && m'.mem == m.mem
    ensures m'.regs[rd] == Wrap64(m.regs[rs] + imm) && SameRegs(m, m', {rd, T6})
  {
    m' := AddiCorrect(code, m, rd, rs, imm);
    FrameSame(m, m', env, lay);
    WithinSame(m, m', lay);
  }

  lemma MvStep(code: Code, m: Machine, rd: nat, rs: nat, env: Env, lay: Layout) returns (m': Machine)
    requires Frame(m, env, lay) && At(code, m.pc, Mv(rd, rs)) && Scratch(rd) && rd != T6 && rs < 32 && rs != T6
    ensures |Mv(rd, rs)| == 1 && m' == With(m, 1, rd, m.regs[rs]) && Leads(code, m, m', 1, env, lay)
  {
    m' := AddiCorrect(code, m, rd, rs, 0);
    FrameSame(m, m', env, lay);
    WithinSame(m, m', lay);
  }

  /** a push opens a deeper frame ... */
  lemma PushStep(code: Code, m: Machine, r: nat, env: Env, lay: Layout) returns (m': Machine)
    requires Frame(m, env, lay) && Room(m, 1) && At(code, m.pc, Push(r)) && r < 32 && r != SP
    ensures |Push(r)| == 2 && Goes(code, m, m') && m'.pc == m.pc + 8 && Frame(m', env, lay)
    ensures m' == Machine(m.pc + 8, m.regs[SP := m.regs[SP] - 16], m.mem[m.regs[SP] - 16 := m.regs[r]])
  {
    m' := PushCorrect(code, m, r);
    forall x {:trigger VarAt(m', env, lay, x)} | x in lay
      ensures VarAt(m', env, lay, x)
    {
      assert VarAt(m, env, lay, x);
    }
  }

  /** ... in which the pushed word stays put ... */
  lemma PushedKept(m: Machine, m1: Machine, m2: Machine, env: Env, lay: Layout, v: int)
    requires Frame(m, env, lay) && InS64(v) && |m1.regs| == 32
    requires m1.regs == m.regs[SP := m.regs[SP] - 16] && m1.mem == m.mem[m.regs[SP] - 16 := v]
    requires Within(m1, m2, lay)
    ensures Rd(m2.mem, m.regs[SP] - 16) == v
  {
    var a := m.regs[SP] - 16;
    assert IsSlot(m1, lay, a) ==> VarAt(m, env, lay, m.regs[S0] - a);
    assert KeptAt(m1, m2, a);
  }

  /** ... and a pop closes it again. */
  lemma PopStep(code: Code, m: Machine, m1: Machine, m2: Machine, r: nat, env: Env, env2: Env, lay: Layout, v: int)
    returns (m3: Machine)
    requires Frame(m, env, lay) && InS64(v) && |m1.regs| == 32
    requires m1.regs == m.regs[SP := m.regs[SP] - 16] && m1.mem == m.mem[m.regs[SP] - 16 := v]
    requires Within(m1, m2, lay) && Frame(m2, env2, lay) && At(code, m2.pc, Pop(r)) && Scratch(r)
    ensures |Pop(r)| == 2 && Goes(code, m2, m3) && m3.pc == m2.pc + 8 && Frame(m3, env2, lay) && Within(m, m3, lay)
    ensures m3 == Machine(m2.pc + 8, m2.regs[r := v][SP := m.regs[SP]], m2.mem)
  {
    PushedKept(m, m1, m2, env, lay, v);
    m3 := PopCorrect(code, m2, r);
    PopFrame(m, m2, m3, r, env, env2, lay, v);
    PopWithin(m, m1, m2, m3, r, lay, v);
  }

  lemma PopWithin(m: Machine, m1: Machine, m2: Machine, m3: Machine, r: nat, lay: Layout, v: int)
    requires |m.regs| == 32 && |m1.regs| == 32 && Scratch(r) && Within(m1, m2, lay)
    requires m1.regs == m.regs[SP := m.regs[SP] - 16] && m1.mem == m.mem[m.regs[SP] - 16 := v]
    requires m3.regs == m2.regs[r := v][SP := m.regs[SP]] && m3.mem == m2.mem
    ensures Within(m, m3, lay)
  {
    forall a {:trigger KeptAt(m, m3, a)} | a >= m.regs[SP] && !IsSlot(m, lay, a) ensures KeptAt(m, m3, a) {
      assert KeptAt(m1, m2, a);
    }
  }

  lemma PopFrame(m: Machine, m2: Machine, m3: Machine, r: nat, env: Env, env2: Env, lay: Layout, v: int)
    requires Frame(m, env, lay) && Frame(m2, env2, lay) && Scratch(r) && Ok(m3)
    requires m2.regs[SP] == m.regs[SP] - 16 && m2.regs[S0] == m.regs[S0]
    requires m3.regs == m2.regs[r := v][SP := m.regs[SP]] && m3.mem == m2.mem
    ensures Frame(m3, env2, lay)
  {
    forall x {:trigger VarAt(m3, env2, lay, x)} | x in lay ensures VarAt(m3, env2, lay, x) {
      assert VarAt(m2, env2, lay, x);
      assert VarAt(m, env, lay, x);
    }
  }

  lemma SetLowRead(was: int, v: int)
    ensures Wrap32(SetLow(was, v)) == Wrap32(v)
  {
    var q := (v - v % M32) / M32;
    assert was - was % M32 + v % M32 == v + (was / M32 - q) * M32;
    ModShift(v + H32, was / M32 - q);
    Wrap32Of64(was - was % M32 + v % M32);
  }

  lemma SlotAddress(fp: int, x: nat)
    requires fp % 16 == 0 && x % 8 == 0
    ensures (fp - x) % 8 == 0
  {
    ModIs(fp - x, 8, 2 * (fp / 16) - x / 8, 0);
  }

  /** the doubleword after storing v into a slot of the given type */
  function Stored(ty: Ty, was: int, v: int): int { match ty case I32 => SetLow(was, v) case I64 => v }

  lemma StoreExec(m: Machine, ty: Ty, a: int)
    requires Ok(m) && m.regs[A0] == a && a % 8 == 0
    ensures Exec(Store(WidthOf(ty), A1, A0, 0), m) ==
      Some(Machine(m.pc + 4, m.regs, m.mem[a := Stored(ty, Rd(m.mem, a), m.regs[A1])]))
  {
  }

  lemma StoredRead(ty: Ty, mem: Mem, a: int, was: int, v: int)
    requires InS64(v) && a in mem && mem[a] == Stored(ty, was, v)
    ensures LoadVar(ty, mem, a) == Wrap(ty, v)
  {
    SetLowRead(was, v);
  }

  /** storing a1 into the local at the address in a0 */
  lemma StoreStep(code: Code, m: Machine, x: nat, env: Env, lay: Layout) returns (m': Machine)
    requires Frame(m, env, lay) && x in lay && At(code, m.pc, StoreCode(lay[x])) && m.regs[A0] == m.regs[S0] - x
    ensures Leads(code, m, m', 1, env[x := Wrap(lay[x], m.regs[A1])], lay) && m'.regs == m.regs
  {
    assert VarAt(m, env, lay, x);
    var a := m.regs[A0];
    SlotAddress(m.regs[S0], x);
    StoreExec(m, lay[x], a);
    m' := Machine(m.pc + 4, m.regs, m.mem[a := Stored(lay[x], Rd(m.mem, a), m.regs[A1])]);
    StepAt(code, m, Store(WidthOf(lay[x]), A1, A0, 0), m');
    StoreFrame(m, m', x, env, lay);
  }

  lemma StoreFrame(m: Machine, m': Machine, x: nat, env: Env, lay: Layout)
    requires Frame(m, env, lay) && x in lay && m'.regs == m.regs
    requires var a := m.regs[S0] - x; m'.mem == m.mem[a := Stored(lay[x], Rd(m.mem, a), m.regs[A1])]
    ensures Frame(m', env[x := Wrap(lay[x], m.regs[A1])], lay) && Within(m, m', lay)
  {
    var a, v := m.regs[S0] - x, m.regs[A1];
    StoredRead(lay[x], m'.mem, a, Rd(m.mem, a), v);
    var env' := env[x := Wrap(lay[x], v)];
    forall y {:trigger VarAt(m', env', lay, y)} | y in lay
      ensures VarAt(m', env', lay, y)
    {
      assert VarAt(m, env, lay, y);
    }
    forall b {:trigger KeptAt(m, m', b)} | b >= m.regs[SP] && !IsSlot(m, lay, b) ensures KeptAt(m, m', b) {}
  }

  lemma LoadExec(m: Machine, ty: Ty, a: int)
    requires Ok(m) && m.regs[A0] == a && a % 8 == 0
    ensures Exec(Load(WidthOf(ty), A0, A0, 0), m) == Some(With(m, 1, A0, LoadVar(ty, m.mem, a)))
  {
  }

  /** loading the local at the address in a0 */
  lemma LoadStep(code: Code, m: Machine, x: nat, env: Env, lay: Layout) returns (m': Machine)
    requires Frame(m, env, lay) && x in lay && At(code, m.pc, LoadCode(lay[x])) && m.regs[A0] == m.regs[S0] - x
    ensures x in env && m' == With(m, 1, A0, env[x]) && Leads(code, m, m', 1, env, lay)
  {
    assert VarAt(m, env, lay, x);
    SlotAddress(m.regs[S0], x);
    LoadExec(m, lay[x], m.regs[A0]);
    m' := RegStep(code, m, Load(WidthOf(lay[x]), A0, A0, 0), A0, env[x], env, lay);
  }

  /** the address of a local */
  lemma AddrStep(code: Code, m: Machine, x: nat, env: Env, lay: Layout) returns (m': Machine)
    requires Frame(m, env, lay) && x in lay && At(code, m.pc, AddrCode(x))
    ensures Leads(code, m, m', |AddrCode(x)|, env, lay) && m'.regs[A0] == m'.regs[S0] - x
  {
    assert VarAt(m, env, lay, x);
    m' := AddiStep(code, m, A0, S0, 0 - x, env, lay);
  }

  /** cast_to truncates a0 to the type */
  lemma CastStep(code: Code, m: Machine, ty: Ty, env: Env, lay: Layout) returns (m': Machine)
    requires Frame(m, env, lay) && At(code, m.pc, CastCode(ty))
    ensures m' == With(m, |CastCode(ty)|, A0, Wrap(ty, m.regs[A0])) && Leads(code, m, m', |CastCode(ty)|, env, lay)
  {
    match ty
    case I32 =>
      m' := RegStep(code, m, OpImm(ADDIW, A0, A0, 0), A0, Wrap32(m.regs[A0]), env, lay);
    case I64 =>
      m' := m;
      assert m.regs == m.regs[A0 := m.regs[A0]];
      GoesRefl(code, m);
      WithinSame(m, m, lay);
  }

  lemma LeadsRefl(code: Code, m: Machine, env: Env, lay: Layout)
    requires Frame(m, env, lay)
    ensures Leads(code, m, m, 0, env, lay)
  {
    GoesRefl(code, m);
    WithinSame(m, m, lay);
  }

  lemma JalStep(code: Code, m: Machine, words: int, env: Env, lay: Layout) returns (m': Machine)
    requires Frame(m, env, lay) && At(code, m.pc, [Jal(X0, 4 * words)])
    ensures m' == m.(pc := m.pc + 4 * words) && Leads(code, m, m', words, env, lay) && Plus(code, m, m')
  {
    m' := m.(pc := m.pc + 4 * words);
    StepAt(code, m, Jal(X0, 4 * words), m');
    FrameSame(m, m', env, lay);
    WithinSame(m, m', lay);
  }

  lemma BneStep(code: Code, m: Machine, rs: nat, rs2: nat, env: Env, lay: Layout) returns (m': Machine)
    requires Frame(m, env, lay) && rs < 32 && rs2 < 32 && At(code, m.pc, [Branch(true, rs, rs2, 8)])
    ensures
      var n := if m.regs[rs] != m.regs[rs2] then 2 else 1;
      m' == m.(pc := m.pc + 4 * n) && Leads(code, m, m', n, env, lay)
  {
    var n := if m.regs[rs] != m.regs[rs2] then 2 else 1;
    m' := m.(pc := m.pc + 4 * n);
    StepAt(code, m, Branch(true, rs, rs2, 8), m');
    FrameSame(m, m', env, lay);
    WithinSame(m, m', lay);
  }

  lemma BranchStep(code: Code, m: Machine, zero: bool, env: Env, lay: Layout) returns (m': Machine)
    requires Frame(m, env, lay) && At(code, m.pc, [Branch(zero, A0, X0, 8)])
    ensures
      var n := if (m.regs[A0] == 0) == zero then 1 else 2;
      m' == m.(pc := m.pc + 4 * n) && Leads(code, m, m', n, env, lay) && Plus(code, m, m')
  {
    var n := if (m.regs[A0] == 0) == zero then 1 else 2;
    m' := m.(pc := m.pc + 4 * n);
    StepAt(code, m, Branch(zero, A0, X0, 8), m');
    FrameSame(m, m', env, lay);
    WithinSame(m, m', lay);
  }

  /** jump_if_zero (or nonzero): jumps over `words` words counted from the jump */
  lemma JumpIfStep(code: Code, m: Machine, zero: bool, words: int, env: Env, lay: Layout) returns (m': Machine)
    requires Frame(m, env, lay) && At(code, m.pc, JumpIf(zero, words))
    ensures
      var n := if (m.regs[A0] == 0) == zero then 1 + words else 2;
      m' == m.(pc := m.pc + 4 * n) && Leads(code, m, m', n, env, lay) && Plus(code, m, m')
  {
    assert JumpIf(zero, words) == [Branch(zero, A0, X0, 8)] + [Jal(X0, 4 * words)];
    AtSplit(code, m.pc, [Branch(zero, A0, X0, 8)], [Jal(X0, 4 * words)]);
    m' := BranchStep(code, m, zero, env, lay);
    if (m.regs[A0] == 0) == zero {
      var m1 := m';
      m' := JalStep(code, m1, words, env, lay);
      LeadsTrans(code, m, m1, m', 1, words, env, env, lay);
      GoesPlus(code, m, m1, m');
    }
  }

  // ----- expressions, whatever they are -----

  /** the expression runs as it should from one state */
  ghost predicate SoundAt(L: ExprLang, code: Code, e: Expr, m: Machine, env: Env, lay: Layout, n: nat) {
    L.ok(e, lay, n) && Frame(m, env, lay) && Room(m, n) && At(code, m.pc, L.comp(e)) ==>
      exists m' :: Leads(code, m, m', |L.comp(e)|, L.eval(e, env).1, lay) && m'.regs[A0] == L.eval(e, env).0
  }

  /** from every state: value in a0, side effects in the locals */
  ghost predicate Good(L: ExprLang, code: Code, e: Expr) {
    forall m, env, lay, n: nat {:trigger SoundAt(L, code, e, m, env, lay, n)} :: SoundAt(L, code, e, m, env, lay, n)
  }

  ghost predicate Sound(L: ExprLang, code: Code) { forall e {:trigger Good(L, code, e)} :: Good(L, code, e) }

  lemma ExprRuns(L: ExprLang, code: Code, e: Expr, m: Machine, env: Env, lay: Layout, n: nat) returns (m': Machine)
    requires Good(L, code, e) && L.ok(e, lay, n) && Frame(m, env, lay) && Room(m, n) && At(code, m.pc, L.comp(e))
    ensures Leads(code, m, m', |L.comp(e)|, L.eval(e, env).1, lay) && m'.regs[A0] == L.eval(e, env).0
  {
    assert SoundAt(L, code, e, m, env, lay, n);
    m' :| Leads(code, m, m', |L.comp(e)|, L.eval(e, env).1, lay) && m'.regs[A0] == L.eval(e, env).0;
  }
}
