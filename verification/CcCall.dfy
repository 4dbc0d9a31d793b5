/** gen_call: the operands are evaluated from left to right onto the stack, popped
    into their registers, and control goes to the callee and comes back. */
module CcCall {
  import opened Options
  import opened RvArith
  import opened RvMachine
  import opened CcMacros
  import opened CcSource
  import opened CcCode
  import opened CcFrame
  import opened CcStmt
  import opened CcFunction
  import opened CcBuffer
  import opened CcEmitter
  import opened CcGenExpr

  /** a function named at the call, at this distance from the jal, or an expression
      for its address */
  datatype Callee = Direct(off: int) | Indirect(e: Expr)

  /** every operand is pushed once it has its value */
  function Pushes(L: ExprLang, es: seq<Expr>): seq<Instr> {
    if es == [] then [] else L.comp(es[0]) + (Push(A0) + Pushes(L, es[1..]))
  }

  /** the last one pushed comes back first */
  function Pops(rs: seq<nat>): seq<Instr> {
    if rs == [] then [] else Pop(rs[|rs| - 1]) + Pops(rs[..|rs| - 1])
  }

  /** values of es, left to right, into rs */
  function Gather(L: ExprLang, es: seq<Expr>, rs: seq<nat>): seq<Instr> { Pushes(L, es) + Pops(rs) }

  function Operands(c: Callee, args: seq<Expr>): seq<Expr> { if c.Indirect? then [c.e] + args else args }

  function ArgRegs(n: nat): (rs: seq<nat>)
    ensures |rs| == n && forall i | 0 <= i < n :: rs[i] == A0 + i
  {
    seq(n, i requires 0 <= i < n => A0 + i)
  }

  function Dests(c: Callee, n: nat): seq<nat> { if c.Indirect? then [T2] + ArgRegs(n) else ArgRegs(n) }

  function JumpIns(c: Callee): Instr { if c.Indirect? then Jalr(RA, T2, 0) else Jal(RA, c.off) }

  function ArgsCode(L: ExprLang, c: Callee, args: seq<Expr>): seq<Instr> {
    Gather(L, Operands(c, args), Dests(c, |args|))
  }

  /** the result is truncated to the callee's return type */
  function CallCode(L: ExprLang, c: Callee, args: seq<Expr>, ret: Ty): seq<Instr> {
    ArgsCode(L, c, args) + ([JumpIns(c)] + CastCode(ret))
  }

  /** values and side effects of a list of expressions, left to right */
  function EvalAll(L: ExprLang, es: seq<Expr>, env: Env): (r: (seq<int>, Env))
    ensures |r.0| == |es|
  {
    if es == [] then ([], env)
    else
      var (v, env1) := L.eval(es[0], env);
      var (vs, env2) := EvalAll(L, es[1..], env1);
      ([v] + vs, env2)
  }

  // ----- emission -----

  lemma {:induction false} PopsFirst(rs: seq<nat>)
    requires rs != []
    ensures Pops(rs) == Pops(rs[1..]) + Pop(rs[0])
    decreases |rs|
  {
    if |rs| > 1 {
      var rest, last := rs[..|rs| - 1], rs[|rs| - 1];
      PopsFirst(rest);
      assert rs[1..] == rest[1..] + [last];
      PopsLast(rest[1..], last);
      Regroup(Pop(last), Pops(rest[1..]), Pop(rs[0]));
    }
  }

  lemma PopsLast(rs: seq<nat>, r: nat)
    ensures Pops(rs + [r]) == Pop(r) + Pops(rs)
  {
    assert (rs + [r])[..|rs|] == rs;
  }

  lemma Regroup(a: seq<Instr>, b: seq<Instr>, c: seq<Instr>)
    ensures a + (b + c) == (a + b) + c
  {
  }

  /** the arguments, then their pops */
  method GenArgs(g: Emitter, ghost L: ExprLang, args: seq<Expr>)
    requires Matches(L) && g.Valid() && |args| <= 8
    modifies g
    ensures g.Valid() && Emitted(old(g.b), g.b, Gather(L, args, ArgRegs(|args|))) && g.curBreak == old(g.curBreak)
    ensures g.curCont == old(g.curCont)
  {
    ghost var b0 := g.b;
    ghost var done, full := [], Pushes(L, args);
    EmittedNothing(b0);
    for i := 0 to |args|
      invariant g.Valid() && Emitted(b0, g.b, done) && full == done + Pushes(L, args[i..])
      invariant g.curBreak == old(g.curBreak) && g.curCont == old(g.curCont)
    {
      ghost var b1 := g.b;
      GenExpr(g, L, args[i]);
      ghost var b2 := g.b;
      PushReg(g, A0);
      EmittedThree(b0, b1, b2, g.b, done, L.comp(args[i]), Push(A0));
      PushesStep(L, full, done, args, i);
      done := done + (L.comp(args[i]) + Push(A0));
    }
    assert done + [] == done;
    ghost var b3 := g.b;
    GenPops(g, |args|);
    EmittedTrans(b0, b3, g.b, full, Pops(ArgRegs(|args|)));
  }

  lemma PushesStep(L: ExprLang, full: seq<Instr>, done: seq<Instr>, es: seq<Expr>, i: nat)
    requires i < |es| && full == done + Pushes(L, es[i..])
    ensures full == done + (L.comp(es[i]) + Push(A0)) + Pushes(L, es[i + 1..])
  {
    assert es[i..][1..] == es[i + 1..];
  }

  method GenPops(g: Emitter, n: nat)
    requires g.Valid() && n <= 8
    modifies g
    ensures g.Valid() && Emitted(old(g.b), g.b, Pops(ArgRegs(n))) && g.curBreak == old(g.curBreak)
    ensures g.curCont == old(g.curCont)
  {
    ghost var b0 := g.b;
    ghost var done, full := [], Pops(ArgRegs(n));
    EmittedNothing(b0);
    for i := n downto 0
      invariant g.Valid() && Emitted(b0, g.b, done) && full == done + Pops(ArgRegs(i))
      invariant g.curBreak == old(g.curBreak) && g.curCont == old(g.curCont)
    {
      ghost var b1 := g.b;
      PopReg(g, A0 + i);
      EmittedTrans(b0, b1, g.b, done, Pop(A0 + i));
      PopsStep(full, done, i);
      done := done + Pop(A0 + i);
    }
    assert done + [] == done;
  }

  lemma PopsStep(full: seq<Instr>, done: seq<Instr>, i: nat)
    requires full == done + Pops(ArgRegs(i + 1))
    ensures full == done + Pop(A0 + i) + Pops(ArgRegs(i))
  {
    assert ArgRegs(i + 1)[..i] == ArgRegs(i);
  }

  /** gen_call for a function that is not built in. The distance of a direct call is
      left to the linker. */
  method GenCall(g: Emitter, ghost L: ExprLang, callee: Option<Expr>, args: seq<Expr>, ret: Ty)
    returns (ghost c: Callee)
    requires Matches(L) && g.Valid() && |args| <= 8
    modifies g
    ensures c == if callee.Some? then Indirect(callee.value) else Direct(0)
    ensures g.Valid() && Emitted(old(g.b), g.b, CallCode(L, c, args, ret)) && g.curBreak == old(g.curBreak)
    ensures g.curCont == old(g.curCont)
  {
    ghost var b0 := g.b;
    GenOperands(g, L, callee, args);
    ghost var b1 := g.b;
    var i: Instr;
    if callee.Some? {
      c, i := Indirect(callee.value), Jalr(RA, T2, 0);
    } else {
      c, i := Direct(0), Jal(RA, 0);
    }
    g.Put(i);
    ghost var b2 := g.b;
    g.PutAll(CastCode(ret));
    EmittedThree(b0, b1, b2, g.b, ArgsCode(L, c, args), [i], CastCode(ret));
  }

  method GenOperands(g: Emitter, ghost L: ExprLang, callee: Option<Expr>, args: seq<Expr>)
    requires Matches(L) && g.Valid() && |args| <= 8
    modifies g
    ensures g.Valid() && g.curBreak == old(g.curBreak) && g.curCont == old(g.curCont)
    ensures
      Emitted(old(g.b), g.b, ArgsCode(L, if callee.Some? then Indirect(callee.value) else Direct(0), args))
  {
    if callee.None? {
      GenArgs(g, L, args);
      return;
    }
    ghost var b0, e, mid := g.b, callee.value, Gather(L, args, ArgRegs(|args|));
    GenExpr(g, L, callee.value);
    ghost var b1 := g.b;
    PushReg(g, A0);
    ghost var b2 := g.b;
    GenArgs(g, L, args);
    ghost var b3 := g.b;
    PopReg(g, T2);
    EmittedTrans(b2, b3, g.b, mid, Pop(T2));
    EmittedThree(b0, b1, b2, g.b, L.comp(e), Push(A0), mid + Pop(T2));
    Nested(L, [e] + args, [T2] + ArgRegs(|args|));
  }

  /** pushes and pops nest */
  lemma Nested(L: ExprLang, es: seq<Expr>, rs: seq<nat>)
    requires es != [] && rs != []
    ensures Gather(L, es, rs) == L.comp(es[0]) + (Push(A0) + (Gather(L, es[1..], rs[1..]) + Pop(rs[0])))
  {
    PopsFirst(rs);
  }

  // ----- running up to the jump -----

  /** registers for operands: the code may use them, and no two are the same */
  ghost predicate Distinct(rs: seq<nat>) {
    (forall i | 0 <= i < |rs| :: Scratch(rs[i])) && forall i, j | 0 <= i < j < |rs| :: rs[i] != rs[j]
  }

  ghost predicate OkAll(L: ExprLang, es: seq<Expr>, lay: Layout, n: nat) {
    forall i | 0 <= i < |es| :: L.ok(es[i], lay, n)
  }

  ghost predicate Holds(m: Machine, rs: seq<nat>, vs: seq<int>) {
    |m.regs| == 32 && |rs| == |vs| && forall i | 0 <= i < |rs| :: rs[i] < 32 && m.regs[rs[i]] == vs[i]
  }

  lemma {:induction false} GatherRuns(L: ExprLang, code: Code, es: seq<Expr>, rs: seq<nat>, m: Machine, env: Env,
        lay: Layout, n: nat)
    returns (m': Machine)
    requires Sound(L, code) && |rs| == |es| && Distinct(rs) && OkAll(L, es, lay, n)
    requires Frame(m, env, lay) && Room(m, n + |es|) && At(code, m.pc, Gather(L, es, rs))
    ensures Leads(code, m, m', |Gather(L, es, rs)|, EvalAll(L, es, env).1, lay)
    ensures Holds(m', rs, EvalAll(L, es, env).0)
    decreases |es|
  {
    if es == [] {
      m' := m;
      LeadsRefl(code, m, env, lay);
    } else {
      var inner, env1 := Gather(L, es[1..], rs[1..]), L.eval(es[0], env).1;
      var (vs, env2) := EvalAll(L, es[1..], env1);
      Nested(L, es, rs);
      assert Good(L, code, es[0]);
      var m1, m2 := FirstRuns(L, code, es[0], inner, rs[0], m, env, lay, n);
      var m3 := GatherRuns(L, code, es[1..], rs[1..], m2, env1, lay, n);
      m' := LastPop(code, m, m1, m2, m3, rs, vs, |L.comp(es[0])|, |inner|, env1, env2, lay);
    }
  }

  lemma FirstRuns(L: ExprLang, code: Code, e: Expr, rest: seq<Instr>, r: nat, m: Machine, env: Env, lay: Layout, n: nat)
    returns (m1: Machine, m2: Machine)
    requires Good(L, code, e) && L.ok(e, lay, n) && Frame(m, env, lay) && Room(m, n + 1)
    requires At(code, m.pc, L.comp(e) + (Push(A0) + (rest + Pop(r))))
    ensures
      var (v, env1) := L.eval(e, env);
      Leads(code, m, m1, |L.comp(e)|, env1, lay) && m1.regs[A0] == v && Goes(code, m1, m2) && Frame(m2, env1, lay)
    ensures m2 == Machine(m1.pc + 8, m1.regs[SP := m1.regs[SP] - 16], m1.mem[m1.regs[SP] - 16 := m1.regs[A0]])
    ensures At(code, m2.pc, rest) && At(code, m2.pc + 4 * |rest|, Pop(r))
  {
    AtSplit(code, m.pc, L.comp(e), Push(A0) + (rest + Pop(r)));
    m1 := ExprRuns(L, code, e, m, env, lay, n);
    AtSplit(code, m1.pc, Push(A0), rest + Pop(r));
    m2 := PushStep(code, m1, A0, L.eval(e, env).1, lay);
    AtSplit(code, m2.pc, rest, Pop(r));
  }

  lemma LastPop(code: Code, m: Machine, m1: Machine, m2: Machine, m3: Machine, rs: seq<nat>, vs: seq<int>, n: int,
        k: int, env1: Env, env2: Env, lay: Layout)
    returns (m': Machine)
    requires Leads(code, m, m1, n, env1, lay) && Goes(code, m1, m2) && Distinct(rs) && rs != []
    requires m2 == Machine(m1.pc + 8, m1.regs[SP := m1.regs[SP] - 16], m1.mem[m1.regs[SP] - 16 := m1.regs[A0]])
    requires Leads(code, m2, m3, k, env2, lay) && At(code, m3.pc, Pop(rs[0])) && Holds(m3, rs[1..], vs)
    ensures Leads(code, m, m', n + k + 4, env2, lay) && Holds(m', rs, [m1.regs[A0]] + vs)
  {
    m' := PopStep(code, m1, m2, m3, rs[0], env1, env2, lay, m1.regs[A0]);
    GoesTrans(code, m1, m2, m3);
    GoesTrans(code, m1, m3, m');
    LeadsTrans(code, m, m1, m', n, k + 4, env1, env2, lay);
    HoldsMore(m3, m', rs, m1.regs[A0], vs, m1.regs[SP]);
  }

  lemma HoldsMore(m: Machine, m': Machine, rs: seq<nat>, v: int, vs: seq<int>, sp: int)
    requires Distinct(rs) && rs != [] && Holds(m, rs[1..], vs) && m'.regs == m.regs[rs[0] := v][SP := sp]
    ensures Holds(m', rs, [v] + vs)
  {
    forall i | 0 <= i < |rs| ensures m'.regs[rs[i]] == ([v] + vs)[i] {
      if i > 0 { assert rs[1..][i - 1] == rs[i]; }
    }
  }

  /** At the jump the arguments are in a0, a1, ..., evaluated from left to right, and
      the address of an indirect callee is in t2; sp is where it was and 16-byte
      aligned, however deep in an expression the call stands; and the caller's locals
      hold what the operands left in them. */
  lemma ArgsReady(L: ExprLang, code: Code, c: Callee, args: seq<Expr>, m: Machine, env: Env, lay: Layout, n: nat)
    returns (m': Machine)
    requires Sound(L, code) && |args| <= 8 && OkAll(L, Operands(c, args), lay, n)
    requires Frame(m, env, lay) && Room(m, n + |args| + 1) && At(code, m.pc, ArgsCode(L, c, args))
    ensures
      var (vs, env1) := EvalAll(L, Operands(c, args), env);
      Leads(code, m, m', |ArgsCode(L, c, args)|, env1, lay) && Holds(m', Dests(c, |args|), vs)
    ensures m'.regs[SP] == m.regs[SP] && m'.regs[SP] % 16 == 0
  {
    m' := GatherRuns(L, code, Operands(c, args), Dests(c, |args|), m, env, lay, n);
  }

  // ----- the whole call -----

  /** code at addresses a return address can name */
  predicate Loadable(code: Code) { 0 <= code.base && code.base % 4 == 0 && code.base + 4 * |code.ins| < H64 }

  /** back in the frame the call was made in, with ra overwritten */
  ghost predicate BackAfter(m: Machine, m': Machine, lay: Layout) {
    && |m.regs| == 32 && |m'.regs| == 32 && m'.regs[SP] == m.regs[SP] && m'.regs[S0] == m.regs[S0]
    && forall a {:trigger KeptAt(m, m', a)} | a >= m.regs[SP] && !IsSlot(m, lay, a) :: KeptAt(m, m', a)
  }

  /** after a call of n words, with its value */
  ghost predicate After(code: Code, m: Machine, m': Machine, v: int, n: int, env: Env, lay: Layout) {
    Goes(code, m, m') && BackAfter(m, m', lay) && Frame(m', env, lay) && m'.pc == m.pc + 4 * n && m'.regs[A0] == v
  }

  /** how a call of n words ends, given how the callee's body does */
  ghost predicate CallEnded(code: Code, m: Machine, m': Machine, o: Outcome, ret: Ty, n: int, env: Env, lay: Layout,
      fuel: nat)
  {
    match o
    case Ret(v) => After(code, m, m', Wrap(ret, v), n, env, lay)
    case Normal => After(code, m, m', 0, n, env, lay)
    case Timeout => RunsFor(code, m, fuel)
    case _ => false
  }

  /** the jump goes to word `here` */
  ghost predicate JumpsTo(code: Code, m: Machine, c: Callee, here: int) {
    |m.regs| == 32 && code.base + 4 * here == if c.Indirect? then m.regs[T2] else m.pc + c.off
  }

  lemma JumpRuns(code: Code, m: Machine, c: Callee, here: int) returns (m': Machine)
    requires Ok(m) && Loadable(code) && At(code, m.pc, [JumpIns(c)]) && JumpsTo(code, m, c, here)
    ensures Goes(code, m, m') && Ok(m') && Fetch(code, m.pc).Some?
    ensures m' == Machine(code.base + 4 * here, m.regs[RA := m.pc + 4], m.mem)
  {
    assert InsAt(code, m.pc, [JumpIns(c)], 0);
    EvenPc(code.base, code.base + 4 * (here - 1));
    m' := Machine(code.base + 4 * here, m.regs[RA := m.pc + 4], m.mem);
    StepAt(code, m, JumpIns(c), m');
  }

  lemma EvenPc(base: int, pc: int)
    requires base % 4 == 0 && (pc - base) % 4 == 0
    ensures (pc + 4) % 2 == 0
  {
    ModIs(pc + 4, 2, 2 * (base / 4) + 2 * ((pc - base) / 4) + 2, 0);
  }

  /** the callee has come back to the instruction after the jump */
  lemma ReturnsHere(code: Code, m1: Machine, m2: Machine, m3: Machine, v: int, env: Env, lay: Layout)
    requires Frame(m1, env, lay) && m2.regs == m1.regs[RA := m1.pc + 4] && m2.mem == m1.mem
    requires Loadable(code) && Fetch(code, m1.pc).Some? && BackInCaller(m2, m3, v)
    ensures Frame(m3, env, lay) && BackAfter(m1, m3, lay) && m3.pc == m1.pc + 4 && m3.regs[A0] == v
  {
    EvenPc(code.base, m1.pc);
    forall a {:trigger KeptAt(m1, m3, a)} | a >= m1.regs[SP] ensures KeptAt(m1, m3, a) { assert KeptAt(m2, m3, a); }
    forall x {:trigger VarAt(m3, env, lay, x)} | x in lay ensures VarAt(m3, env, lay, x) {
      assert VarAt(m1, env, lay, x);
      assert KeptAt(m1, m3, m1.regs[S0] - x);
    }
  }

  lemma BackTrans(m: Machine, m1: Machine, m2: Machine, lay: Layout)
    requires BackAfter(m, m1, lay) && BackAfter(m1, m2, lay)
    ensures BackAfter(m, m2, lay)
  {
    forall a {:trigger KeptAt(m, m2, a)} | a >= m.regs[SP] && !IsSlot(m, lay, a) ensures KeptAt(m, m2, a) {
      assert KeptAt(m, m1, a) && KeptAt(m1, m2, a);
    }
  }

  lemma WithinBack(m: Machine, m': Machine, lay: Layout)
    requires Within(m, m', lay)
    ensures BackAfter(m, m', lay)
  {
    forall a {:trigger KeptAt(m, m', a)} | a >= m.regs[SP] && !IsSlot(m, lay, a) ensures KeptAt(m, m', a) {}
  }

  /** the truncation after the call */
  lemma ResultRuns(code: Code, m: Machine, m1: Machine, m3: Machine, v: int, ret: Ty, n: int, env: Env, lay: Layout)
    returns (m': Machine)
    requires Leads(code, m, m1, n, env, lay) && Goes(code, m1, m3) && Frame(m3, env, lay) && BackAfter(m1, m3, lay)
    requires m3.pc == m1.pc + 4 && m3.regs[A0] == v && At(code, m3.pc, CastCode(ret))
    ensures After(code, m, m', Wrap(ret, v), n + 1 + |CastCode(ret)|, env, lay)
  {
    m' := CastStep(code, m3, ret, env, lay);
    WithinBack(m, m1, lay);
    WithinBack(m3, m', lay);
    BackTrans(m, m1, m3, lay);
    BackTrans(m, m3, m', lay);
    GoesTrans(code, m, m1, m3);
    GoesTrans(code, m, m3, m');
  }

  /** a call of at most eight arguments is about to run in some frame */
  ghost predicate CallReady(L: ExprLang, code: Code, c: Callee, args: seq<Expr>, ret: Ty, m: Machine, env: Env,
      lay: Layout, n: nat)
  {
    && |args| <= 8 && OkAll(L, Operands(c, args), lay, n) && Loadable(code)
    && Frame(m, env, lay) && Room(m, n + |args| + 1) && At(code, m.pc, CallCode(L, c, args, ret))
  }

  lemma CalleeKnown(L: ExprLang, c: Callee, args: seq<Expr>, env: Env, m: Machine)
    requires Holds(m, Dests(c, |args|), EvalAll(L, Operands(c, args), env).0)
    ensures c.Indirect? ==> m.regs[T2] == L.eval(c.e, env).0
  {
    assert c.Indirect? ==> Dests(c, |args|)[0] == T2 && Operands(c, args)[0] == c.e;
  }

  /** the jump overwrites ra only */
  lemma StillHolds(m: Machine, m': Machine, c: Callee, n: nat, vs: seq<int>)
    requires Holds(m, Dests(c, n), vs) && m'.regs == m.regs[RA := m.pc + 4] && |m'.regs| == 32
    ensures Holds(m', Dests(c, n), vs)
  {
  }

  lemma JumpEnters(code: Code, m: Machine, c: Callee, n: nat, vs: seq<int>, ret: Ty, here: int) returns (m': Machine)
    requires Ok(m) && Loadable(code) && At(code, m.pc, [JumpIns(c)] + CastCode(ret)) && JumpsTo(code, m, c, here)
    requires Holds(m, Dests(c, n), vs)
    ensures Goes(code, m, m') && Ok(m') && m' == Machine(code.base + 4 * here, m.regs[RA := m.pc + 4], m.mem)
    ensures Holds(m', Dests(c, n), vs) && Fetch(code, m.pc).Some? && At(code, m.pc + 4, CastCode(ret))
  {
    AtSplit(code, m.pc, [JumpIns(c)], CastCode(ret));
    m' := JumpRuns(code, m, c, here);
    StillHolds(m, m', c, n, vs);
  }

  /** The operands are evaluated and the callee entered: m1 is the state at its first
      instruction. */
  lemma CallEnters(L: ExprLang, code: Code, c: Callee, args: seq<Expr>, ret: Ty, here: int, m: Machine, env: Env,
        lay: Layout, n: nat)
    returns (m0: Machine, m1: Machine)
    requires Sound(L, code) && CallReady(L, code, c, args, ret, m, env, lay, n)
    requires GoesTo(L, code, c, args, m.pc, env, here)
    ensures
      var (vs, env1) := EvalAll(L, Operands(c, args), env);
      Leads(code, m, m0, |ArgsCode(L, c, args)|, env1, lay) && Holds(m1, Dests(c, |args|), vs)
    ensures Goes(code, m0, m1) && Ok(m1) && m1 == Machine(code.base + 4 * here, m0.regs[RA := m0.pc + 4], m0.mem)
    ensures Fetch(code, m0.pc).Some? && At(code, m0.pc + 4, CastCode(ret))
  {
    AtSplit(code, m.pc, ArgsCode(L, c, args), [JumpIns(c)] + CastCode(ret));
    m0 := ArgsReady(L, code, c, args, m, env, lay, n);
    CalleeKnown(L, c, args, env, m0);
    m1 := JumpEnters(code, m0, c, |args|, EvalAll(L, Operands(c, args), env).0, ret, here);
  }

  /** the callee's first instruction is word `here` */
  ghost predicate GoesTo(L: ExprLang, code: Code, c: Callee, args: seq<Expr>, pc: int, env: Env, here: int) {
    code.base + 4 * here == match c
      case Indirect(e) => L.eval(e, env).0
      case Direct(off) => pc + 4 * |ArgsCode(L, c, args)| + off
  }

  /** parameter i of the callee starts out as argument i, truncated to its type */
  ghost predicate Receives(fn: Function, m: Machine, c: Callee, vs: seq<int>, i: nat)
    requires |m.regs| == 32 && fn.params <= 8
  {
    var (x, j) := (LocalOff(fn, i), if c.Indirect? then i + 1 else i);
    i < |fn.locals| && j < |vs| && x in EntryEnv(fn, m) && EntryEnv(fn, m)[x] == Wrap(fn.locals[i], vs[j])
  }

  lemma ParamsReceive(fn: Function, m: Machine, c: Callee, vs: seq<int>, n: nat)
    requires fn.params <= 8 && fn.params <= |fn.locals| && Holds(m, Dests(c, n), vs)
    ensures forall i: nat {:trigger Receives(fn, m, c, vs, i)} | i < n && i < fn.params :: Receives(fn, m, c, vs, i)
  {
    forall i: nat {:trigger Receives(fn, m, c, vs, i)} | i < n && i < fn.params ensures Receives(fn, m, c, vs, i) {
      LocalNamed(fn, m, i);
      var j := if c.Indirect? then i + 1 else i;
      assert Dests(c, n)[j] == A0 + i;
    }
  }

  /** where va_start points, with the frame pointer at fp */
  function VaStart(fn: Function, fp: int): int { fp - VaOff(fn) + 8 * fn.params }

  /** the k-th word from va_start on is the k-th argument behind the parameters */
  ghost predicate VarArg(fn: Function, m: Machine, c: Callee, vs: seq<int>, k: nat)
    requires |m.regs| == 32
  {
    var j := fn.params + k + if c.Indirect? then 1 else 0;
    j < |vs| && Rd(m.mem, VaStart(fn, m.regs[S0]) + 8 * k) == vs[j]
  }

  /** Once the prologue of a variadic function has run, what its caller passed beyond
      the parameters stands in consecutive words from va_start's address on. */
  lemma VariadicArgs(fn: Function, m: Machine, m': Machine, c: Callee, n: nat, vs: seq<int>, k: nat)
    requires fn.variadic && fn.params <= 8 && n <= 8 && Holds(m, Dests(c, n), vs) && InBody(fn, m, m', k)
    ensures forall i: nat {:trigger VarArg(fn, m', c, vs, i)} | fn.params + i < n :: VarArg(fn, m', c, vs, i)
  {
    forall i: nat {:trigger VarArg(fn, m', c, vs, i)} | fn.params + i < n ensures VarArg(fn, m', c, vs, i) {
      var j := fn.params + i;
      assert VaWord(m, m', m.regs[SP] - VaOff(fn), j);
      assert Dests(c, n)[if c.Indirect? then j + 1 else j] == A0 + j;
    }
  }

  /** A call of a compiled function computes what the callee's source computes from
      the arguments' values: the callee is entered with an aligned stack and the
      values in the argument registers; if its source returns, the machine comes back
      behind the call with the truncated result in a0, in the caller's frame, with
      the side effects of the operands and no others; while it loops, so does the
      machine. */
  lemma CallRuns(L: ExprLang, code: Code, fn: Function, here: int, c: Callee, args: seq<Expr>, ret: Ty, m: Machine,
        env: Env, lay: Layout, n: nat, k: nat, fuel: nat)
    returns (m1: Machine, m': Machine)
    requires Sound(L, code) && CallReady(L, code, c, args, ret, m, env, lay, n)
    requires OkFunction(L, fn, k) && LaidFunction(L, code, fn, here) && FrameOf(fn) + 16 * k <= m.regs[SP]
    requires GoesTo(L, code, c, args, m.pc, env, here)
    ensures Goes(code, m, m1) && |m1.regs| == 32 && m1.pc == code.base + 4 * here
    ensures m1.regs[SP] == m.regs[SP] && m1.regs[SP] % 16 == 0
    ensures
      var (vs, env1) := EvalAll(L, Operands(c, args), env);
      && Holds(m1, Dests(c, |args|), vs)
      && (forall i: nat {:trigger Receives(fn, m1, c, vs, i)} | i < |args| && i < fn.params ::
           Receives(fn, m1, c, vs, i))
      && CallEnded(code, m, m', ExecS(L, fn.body, None, EntryEnv(fn, m1), fuel).0, ret, |CallCode(L, c, args, ret)|,
           env1, lay, fuel)
  {
    var (vs, env1) := EvalAll(L, Operands(c, args), env);
    var m0;
    m0, m1 := CallEnters(L, code, c, args, ret, here, m, env, lay, n);
    m' := CalleeRuns(L, code, fn, here, m, m0, m1, ret, |ArgsCode(L, c, args)|, env1, lay, k, fuel);
    ParamsReceive(fn, m1, c, vs, |args|);
  }

  lemma CalleeRuns(L: ExprLang, code: Code, fn: Function, here: int, m: Machine, m0: Machine, m1: Machine, ret: Ty,
        n: int, env: Env, lay: Layout, k: nat, fuel: nat)
    returns (m': Machine)
    requires Leads(code, m, m0, n, env, lay) && Goes(code, m0, m1) && Ok(m1) && Fetch(code, m0.pc).Some?
    requires m1 == Machine(code.base + 4 * here, m0.regs[RA := m0.pc + 4], m0.mem) && At(code, m0.pc + 4, CastCode(ret))
    requires Sound(L, code) && OkFunction(L, fn, k) && LaidFunction(L, code, fn, here)
    requires Loadable(code) && FrameOf(fn) + 16 * k <= m.regs[SP]
    ensures Goes(code, m, m1) && m1.regs[SP] == m.regs[SP] && m1.regs[SP] % 16 == 0
    ensures CallEnded(code, m, m', ExecS(L, fn.body, None, EntryEnv(fn, m1), fuel).0, ret, n + 1 + |CastCode(ret)|,
        env, lay, fuel)
  {
    GoesTrans(code, m, m0, m1);
    var m3 := FunctionCorrect(L, code, fn, here, m1, k, fuel);
    m' := CallReturns(code, m, m0, m1, m3, ExecS(L, fn.body, None, EntryEnv(fn, m1), fuel).0, ret, n, env, lay, fuel);
  }

  lemma CallReturns(code: Code, m: Machine, m0: Machine, m1: Machine, m3: Machine, o: Outcome, ret: Ty, n: int,
        env: Env, lay: Layout, fuel: nat)
    returns (m': Machine)
    requires Leads(code, m, m0, n, env, lay) && Goes(code, m0, m1) && Goes(code, m, m1)
    requires m1.regs == m0.regs[RA := m0.pc + 4] && m1.mem == m0.mem
    requires Loadable(code) && Fetch(code, m0.pc).Some? && At(code, m0.pc + 4, CastCode(ret))
    requires CallDone(code, m1, m3, o, fuel)
    ensures CallEnded(code, m, m', o, ret, n + 1 + |CastCode(ret)|, env, lay, fuel)
  {
    if o.Timeout? {
      m' := m3;
      GoesRuns(code, m, m1, fuel);
    } else {
      var v := if o.Normal? then 0 else o.v;
      ReturnsHere(code, m0, m1, m3, v, env, lay);
      GoesTrans(code, m0, m1, m3);
      m' := ResultRuns(code, m, m0, m3, v, ret, n, env, lay);
    }
  }
}
