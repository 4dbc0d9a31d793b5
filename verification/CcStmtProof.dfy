/** Compiler correctness for statements. */
module CcStmtProof {
  import opened Options
  import opened RvArith
  import opened RvMachine
  import opened CcMacros
  import opened CcSource
  import opened CcCode
  import opened CcFrame
  import opened CcExpr
  import opened CcStmt
  import opened CcStmtParts

  /** the saved ra and s0 lie in the frame, outside every local */
  ghost predicate SaveArea(m: Machine, lay: Layout) {
    |m.regs| == 32 && m.regs[SP] <= m.regs[S0] - 16 && 8 !in lay && 16 !in lay
  }

  /** the caller is resumed: value in a0, sp at the frame's upper end, saved ra
      and s0 reloaded, memory above sp as it was except for the locals */
  ghost predicate Returned(m: Machine, m': Machine, v: int, lay: Layout) {
    && Ok(m) && Ok(m') && m'.regs[A0] == v && m'.regs[SP] == m.regs[S0]
    && m'.regs[RA] == Rd(m.mem, m.regs[S0] - 8) && m'.regs[S0] == Rd(m.mem, m.regs[S0] - 16)
    && m'.pc == m'.regs[RA] - m'.regs[RA] % 2
    && forall a {:trigger KeptAt(m, m', a)} | a >= m.regs[SP] && !IsSlot(m, lay, a) :: KeptAt(m, m', a)
  }

  /** m' is reached in the same frame, at word w of the code */
  ghost predicate Arrives(code: Code, m: Machine, m': Machine, w: int, env: Env, lay: Layout) {
    Goes(code, m, m') && m'.pc == code.base + 4 * w && Within(m, m', lay) && Frame(m', env, lay)
  }

  /** where the machine is when a statement has ended one way or another; a
      statement still looping keeps the machine running */
  ghost predicate Lands(code: Code, m: Machine, m': Machine, o: Outcome, env: Env, lay: Layout, next: int, brk: int,
        cont: int, fuel: nat)
  {
    match o
    case Normal => Arrives(code, m, m', next, env, lay)
    case Brk => Arrives(code, m, m', brk, env, lay)
    case Cont => Arrives(code, m, m', cont, env, lay) && Plus(code, m, m')
    case Ret(v) => Goes(code, m, m') && Returned(m, m', v, lay)
    case Timeout => RunsFor(code, m, fuel)
  }

  lemma ReturnedAfter(m: Machine, m1: Machine, m': Machine, v: int, lay: Layout)
    requires Ok(m) && SaveArea(m, lay) && Within(m, m1, lay) && Returned(m1, m', v, lay)
    ensures Returned(m, m', v, lay)
  {
    assert KeptAt(m, m1, m.regs[S0] - 8) && KeptAt(m, m1, m.regs[S0] - 16);
    forall a {:trigger KeptAt(m, m', a)} | a >= m.regs[SP] && !IsSlot(m, lay, a) ensures KeptAt(m, m', a) {
      assert KeptAt(m, m1, a) && KeptAt(m1, m', a);
    }
  }

  lemma ArrivesTrans(code: Code, m: Machine, m1: Machine, m': Machine, w1: int, w: int, env1: Env, env: Env,
        lay: Layout)
    requires Arrives(code, m, m1, w1, env1, lay) && Arrives(code, m1, m', w, env, lay)
    ensures Arrives(code, m, m', w, env, lay)
  {
    GoesTrans(code, m, m1, m');
    WithinTrans(m, m1, m', lay);
  }

  /** a way to m1 followed by a statement */
  lemma LandsAfter(code: Code, m: Machine, m1: Machine, m': Machine, w1: int, env1: Env, o: Outcome, env: Env,
        lay: Layout, next: int, brk: int, cont: int, fuel: nat)
    requires Ok(m) && SaveArea(m, lay) && Arrives(code, m, m1, w1, env1, lay)
    requires Lands(code, m1, m', o, env, lay, next, brk, cont, fuel)
    ensures Lands(code, m, m', o, env, lay, next, brk, cont, fuel)
  {
    match o {
      case Normal => ArrivesTrans(code, m, m1, m', w1, next, env1, env, lay);
      case Brk => ArrivesTrans(code, m, m1, m', w1, brk, env1, env, lay);
      case Cont => ArrivesTrans(code, m, m1, m', w1, cont, env1, env, lay); GoesPlus(code, m, m1, m');
      case Ret(v) => GoesTrans(code, m, m1, m'); ReturnedAfter(m, m1, m', v, lay);
      case Timeout => GoesRuns(code, m, m1, fuel);
    }
  }

  /** the return sequence */
  lemma EpilogueCorrect(code: Code, m: Machine, env: Env, lay: Layout) returns (m': Machine)
    requires Frame(m, env, lay) && SaveArea(m, lay) && At(code, m.pc, EpilogueCode())
    ensures Goes(code, m, m') && Returned(m, m', m.regs[A0], lay)
  {
    m' := EpilogueRun(code, m);
    forall a {:trigger KeptAt(m, m', a)} | a >= m.regs[SP] && !IsSlot(m, lay, a) ensures KeptAt(m, m', a) {}
  }

  lemma EpilogueAt(code: Code, pc: int)
    requires At(code, pc, EpilogueCode())
    ensures At(code, pc, Mv(SP, S0)) && At(code, pc + 4, [Load(Double, RA, SP, -8)])
    ensures At(code, pc + 8, [Load(Double, S0, SP, -16)]) && At(code, pc + 12, [Jalr(X0, RA, 0)])
  {
    var i1, i2, i3 := Load(Double, RA, SP, -8), Load(Double, S0, SP, -16), Jalr(X0, RA, 0);
    AtSplit(code, pc, Mv(SP, S0), [i1, i2, i3]);
    assert [i1, i2, i3] == [i1] + ([i2] + [i3]);
    AtSplit(code, pc + 4, [i1], [i2] + [i3]);
    AtSplit(code, pc + 8, [i2], [i3]);
  }

  lemma SavedAligned(fp: int)
    requires fp % 16 == 0
    ensures (fp - 8) % 8 == 0 && (fp - 16) % 8 == 0
  {
  }

  lemma EpilogueRun(code: Code, m: Machine) returns (m': Machine)
    requires Ok(m) && m.regs[S0] % 16 == 0 && m.regs[S0] >= 16 && At(code, m.pc, EpilogueCode())
    ensures Goes(code, m, m') && Ok(m') && m'.mem == m.mem && m'.regs[A0] == m.regs[A0] && m'.regs[SP] == m.regs[S0]
    ensures m'.regs[RA] == Rd(m.mem, m.regs[S0] - 8) && m'.regs[S0] == Rd(m.mem, m.regs[S0] - 16)
    ensures m'.pc == m'.regs[RA] - m'.regs[RA] % 2
  {
    var fp := m.regs[S0];
    var ra, s0 := Rd(m.mem, fp - 8), Rd(m.mem, fp - 16);
    EpilogueAt(code, m.pc);
    SavedAligned(fp);
    var m1 := AddiCorrect(code, m, SP, S0, 0);
    assert m1.regs[SP] == fp && m1.pc == m.pc + 4;
    var m2 := RestoreStep(code, m1, RA, -8, ra);
    var m3 := RestoreStep(code, m2, S0, -16, s0);
    m' := m3.(pc := ra - ra % 2);
    JumpBack(code, m3, ra);
    GoesTrans(code, m, m1, m2);
    GoesTrans(code, m, m2, m3);
    GoesTrans(code, m, m3, m');
  }

  lemma RestoreStep(code: Code, m: Machine, r: nat, off: int, v: int) returns (m': Machine)
    requires Ok(m) && 0 < r < 32 && At(code, m.pc, [Load(Double, r, SP, off)])
    requires var a := m.regs[SP] + off; InS64(a) && a % 8 == 0 && v == Rd(m.mem, a)
    ensures Goes(code, m, m') && m' == With(m, 1, r, v) && Ok(m')
  {
    SetAt(code, m, Load(Double, r, SP, off), r, v);
    m' := With(m, 1, r, v);
    WithOk(m, 1, r, v);
  }

  lemma JumpBack(code: Code, m: Machine, ra: int)
    requires Ok(m) && At(code, m.pc, [Jalr(X0, RA, 0)]) && m.regs[RA] == ra
    ensures Goes(code, m, m.(pc := ra - ra % 2))
  {
    StepAt(code, m, Jalr(X0, RA, 0), m.(pc := ra - ra % 2));
  }

  lemma CcSound(code: Code)
    ensures Sound(Cc(), code)
  {
    forall e {:trigger Good(Cc(), code, e)} ensures Good(Cc(), code, e) { GoodCc(code, e); }
  }

  /** a frame with the saved words and room for n pushes */
  ghost predicate Live(m: Machine, env: Env, lay: Layout, n: nat) {
    Frame(m, env, lay) && SaveArea(m, lay) && Room(m, n)
  }

  lemma LiveAfter(code: Code, m: Machine, m1: Machine, w: int, env: Env, env1: Env, lay: Layout, n: nat)
    requires Live(m, env, lay, n) && Arrives(code, m, m1, w, env1, lay)
    ensures Live(m1, env1, lay, n)
  {
  }

  /** the machine is about to enter s, at its start or at a label */
  ghost predicate Enters(L: ExprLang, code: Code, s: Stmt, at: Option<Label>, here: int, m: Machine) {
    Has(s, at) && m.pc == code.base + 4 * (here + EntryPos(L, s, at))
  }

  ghost predicate Runs(L: ExprLang, code: Code, s: Stmt, at: Option<Label>, here: int, brk: int, cont: int, m: Machine,
        m': Machine, env: Env, lay: Layout, fuel: nat)
    requires Has(s, at)
  {
    var (o, env') := ExecS(L, s, at, env, fuel);
    Lands(code, m, m', o, env', lay, here + Len(L, s), brk, cont, fuel)
  }

  /** evaluate a condition, then jump over `words` words if it is zero */
  lemma TestCorrect(L: ExprLang, code: Code, c: Expr, words: int, here: int, m: Machine, env: Env, lay: Layout, n: nat)
    returns (m': Machine)
    requires Sound(L, code) && L.ok(c, lay, n) && Live(m, env, lay, n) && m.pc == code.base + 4 * here
    requires At(code, m.pc, L.comp(c) + JumpIf(true, words))
    ensures
      var (v, env1) := L.eval(c, env);
      Arrives(code, m, m', here + |L.comp(c)| + (if v == 0 then 1 + words else 2), env1, lay)
  {
    AtSplit(code, m.pc, L.comp(c), JumpIf(true, words));
    assert Good(L, code, c);
    var m1 := ExprRuns(L, code, c, m, env, lay, n);
    var env1 := L.eval(c, env).1;
    m' := JumpIfStep(code, m1, true, words, env1, lay);
    LeadsTrans(code, m, m1, m', |L.comp(c)|, if m1.regs[A0] == 0 then 1 + words else 2, env1, env1, lay);
  }

  /** a statement that ends normally at word w continues through the jump there */
  lemma JumpOn(code: Code, m: Machine, m1: Machine, o: Outcome, env1: Env, lay: Layout, w: int, k: int, brk: int,
        cont: int, fuel: nat)
    returns (m': Machine)
    requires Lands(code, m, m1, o, env1, lay, w, brk, cont, fuel) && Place(code, w, [Jal(X0, 4 * k)])
    ensures Lands(code, m, m', o, env1, lay, w + k, brk, cont, fuel)
    ensures o.Normal? ==> Plus(code, m, m')
  {
    m' := m1;
    if o.Normal? {
      m' := JalStep(code, m1, k, env1, lay);
      ArrivesTrans(code, m, m1, m', w, w + k, env1, env1, lay);
      GoesPlus(code, m, m1, m');
    }
  }

  /** the next round of a loop uses one unit of the budget and at least one step */
  lemma LandsAgain(code: Code, m: Machine, m1: Machine, m': Machine, w1: int, env1: Env, o: Outcome, env: Env,
        lay: Layout, next: int, brk: int, cont: int, fuel: nat)
    requires Ok(m) && SaveArea(m, lay) && Arrives(code, m, m1, w1, env1, lay) && Plus(code, m, m1)
    requires Lands(code, m1, m', o, env, lay, next, brk, cont, fuel)
    ensures Lands(code, m, m', o, env, lay, next, brk, cont, fuel + 1)
  {
    if o.Timeout? {
      PlusRuns(code, m, m1, fuel);
    } else {
      LandsAfter(code, m, m1, m', w1, env1, o, env, lay, next, brk, cont, fuel);
    }
  }

  lemma OptRuns(L: ExprLang, code: Code, e: Option<Expr>, here: int, m: Machine, env: Env, lay: Layout, n: nat)
    returns (m': Machine)
    requires Sound(L, code) && OkOpt(L, e, lay, n) && Live(m, env, lay, n) && m.pc == code.base + 4 * here
    requires Place(code, here, OptCode(L, e))
    ensures Arrives(code, m, m', here + |OptCode(L, e)|, if e.Some? then L.eval(e.value, env).1 else env, lay)
  {
    if e.Some? {
      assert Good(L, code, e.value);
      m' := ExprRuns(L, code, e.value, m, env, lay, n);
    } else {
      m' := m;
      LeadsRefl(code, m, env, lay);
    }
  }

  /** the step of a loop and the jump back */
  lemma StepCorrect(L: ExprLang, code: Code, inc: Option<Expr>, here: int, step0: int, m: Machine, mb: Machine,
        env: Env, env1: Env, lay: Layout, n: nat)
    returns (m2: Machine)
    requires Sound(L, code) && OkOpt(L, inc, lay, n) && Live(m, env, lay, n) && Arrives(code, m, mb, step0, env1, lay)
    requires Place(code, step0, OptCode(L, inc))
    requires var j := step0 + |OptCode(L, inc)|; Place(code, j, [Jal(X0, 4 * (here - j))])
    ensures Arrives(code, m, m2, here, if inc.Some? then L.eval(inc.value, env1).1 else env1, lay) && Plus(code, m, m2)
  {
    LiveAfter(code, m, mb, step0, env, env1, lay, n);
    var m1 := OptRuns(L, code, inc, step0, mb, env1, lay, n);
    var env2 := if inc.Some? then L.eval(inc.value, env1).1 else env1;
    var j := step0 + |OptCode(L, inc)|;
    ArrivesTrans(code, m, mb, m1, step0, j, env1, env2, lay);
    m2 := JalStep(code, m1, here - j, env2, lay);
    ArrivesTrans(code, m, m1, m2, j, here, env2, env2, lay);
    GoesPlus(code, m, m1, m2);
  }

  /** the test at the head of a loop, if there is one */
  lemma LoopHead(L: ExprLang, code: Code, c: Option<Expr>, here: int, body0: int, end: int, m: Machine, env: Env,
        lay: Layout, n: nat)
    returns (m': Machine)
    requires Sound(L, code) && OkOpt(L, c, lay, n) && Live(m, env, lay, n) && m.pc == code.base + 4 * here
    requires body0 == here + TestLen(L, c)
    requires c.Some? ==> Place(code, here, L.comp(c.value) + JumpIf(true, end - body0 + 1))
    ensures
      var (v, env1) := if c.Some? then L.eval(c.value, env) else (1, env);
      Arrives(code, m, m', if v == 0 then end else body0, env1, lay)
  {
    if c.Some? {
      m' := TestCorrect(L, code, c.value, end - body0 + 1, here, m, env, lay, n);
    } else {
      m' := m;
      LeadsRefl(code, m, env, lay);
    }
  }

  /** the test at the end of a do loop */
  lemma DoTest(L: ExprLang, code: Code, c: Expr, here: int, test0: int, m: Machine, mb: Machine, env: Env, env1: Env,
        lay: Layout, n: nat)
    returns (m2: Machine)
    requires Sound(L, code) && L.ok(c, lay, n) && Live(m, env, lay, n) && Arrives(code, m, mb, test0, env1, lay)
    requires var j := test0 + |L.comp(c)| + 1; Place(code, test0, L.comp(c) + JumpIf(false, here - j))
    ensures
      var (v, env2) := L.eval(c, env1);
      Arrives(code, m, m2, if v == 0 then test0 + |L.comp(c)| + 2 else here, env2, lay) && Plus(code, m, m2)
  {
    var (v, env2) := L.eval(c, env1);
    var i, j := test0 + |L.comp(c)|, test0 + |L.comp(c)| + 1;
    LiveAfter(code, m, mb, test0, env, env1, lay, n);
    AtSplit(code, mb.pc, L.comp(c), JumpIf(false, here - j));
    assert Good(L, code, c);
    var m1 := ExprRuns(L, code, c, mb, env1, lay, n);
    ArrivesTrans(code, m, mb, m1, test0, i, env1, env2, lay);
    m2 := JumpIfStep(code, m1, false, here - j, env2, lay);
    ArrivesTrans(code, m, m1, m2, i, if v == 0 then i + 2 else here, env2, env2, lay);
    GoesPlus(code, m, m1, m2);
  }

  // ----- switch -----

  /** one comparison: to the case if a1 holds its value, else on to the next */
  lemma CaseCorrect(code: Code, v: int, target: int, here: int, m: Machine, env: Env, lay: Layout) returns (m': Machine)
    requires InS64(v) && Frame(m, env, lay) && m.pc == code.base + 4 * here
    requires Place(code, here, CaseCode(v, target, here))
    ensures Arrives(code, m, m', if m.regs[A1] == v then target else here + |Li(T0, v)| + 2, env, lay)
    ensures m'.regs[A1] == m.regs[A1]
  {
    var k := here + |Li(T0, v)|;
    var li, tail := Li(T0, v), [Branch(true, A1, T0, 8), Jal(X0, 4 * (target - (k + 1)))];
    assert CaseCode(v, target, here) == li + tail;
    AtSplit(code, m.pc, li, tail);
    var m1 := LiStep(code, m, T0, v, env, lay);
    m' := CaseBranch(code, target, k, m1, env, lay);
    ArrivesTrans(code, m, m1, m', k, if m.regs[A1] == v then target else k + 2, env, env, lay);
  }

  /** the comparison with t0 and the jump to the case */
  lemma CaseBranch(code: Code, target: int, k: int, m: Machine, env: Env, lay: Layout) returns (m': Machine)
    requires Frame(m, env, lay) && m.pc == code.base + 4 * k
    requires Place(code, k, [Branch(true, A1, T0, 8), Jal(X0, 4 * (target - (k + 1)))])
    ensures Arrives(code, m, m', if m.regs[A1] == m.regs[T0] then target else k + 2, env, lay)
    ensures m'.regs[A1] == m.regs[A1]
  {
    var b, j := [Branch(true, A1, T0, 8)], [Jal(X0, 4 * (target - (k + 1)))];
    assert [Branch(true, A1, T0, 8), Jal(X0, 4 * (target - (k + 1)))] == b + j;
    AtSplit(code, m.pc, b, j);
    m' := BneStep(code, m, A1, T0, env, lay);
    if m.regs[A1] == m.regs[T0] {
      var m2 := m';
      m' := JalStep(code, m2, target - (k + 1), env, lay);
      ArrivesTrans(code, m, m2, m', k + 1, target, env, env, lay);
    }
  }

  predicate CasesOk(ls: seq<Label>) { forall i | 0 <= i < |ls| :: LabelOk(ls[i]) }

  /** the comparisons find the case whose value is in a1 */
  lemma {:induction false} CasesCorrect(L: ExprLang, code: Code, b: Stmt, ls: seq<Label>, here: int, body0: int,
        m: Machine, env: Env, lay: Layout)
    returns (m': Machine)
    requires CasesOk(ls) && LaidCases(L, code, b, ls, here, body0) && Frame(m, env, lay) && m.pc == code.base + 4 * here
    ensures
      var l := CaseL(m.regs[A1]);
      (l in ls ==> Bears(b, l)) &&
        Arrives(code, m, m', if l in ls then body0 + Pos(L, b, l) else here + DispatchLen(ls), env, lay)
    decreases |ls|, 1
  {
    var l := CaseL(m.regs[A1]);
    if ls == [] {
      m' := m;
      LeadsRefl(code, m, env, lay);
    } else {
      var k, rest := ls[|ls| - 1], ls[..|ls| - 1];
      RestOfCases(ls, l);
      if k.DefaultL? {
        m' := CasesCorrect(L, code, b, rest, here, body0, m, env, lay);
      } else {
        CasesFirst(L, code, b, ls, here, body0);
        var target, next := body0 + Pos(L, b, k), here + |Li(T0, k.v)| + 2;
        m' := CaseThenRest(L, code, b, k.v, target, rest, here, next, body0, m, env, lay);
      }
    }
  }

  lemma RestOfCases(ls: seq<Label>, l: Label)
    requires ls != [] && CasesOk(ls)
    ensures
      var k, rest := ls[|ls| - 1], ls[..|ls| - 1];
      CasesOk(rest) && (l in ls <==> l == k || l in rest)
  {
    var k, rest := ls[|ls| - 1], ls[..|ls| - 1];
    assert ls == rest + [k];
    forall i | 0 <= i < |rest| ensures LabelOk(rest[i]) { assert rest[i] == ls[i]; }
  }

  lemma CasesFirst(L: ExprLang, code: Code, b: Stmt, ls: seq<Label>, here: int, body0: int)
    requires ls != [] && ls[|ls| - 1].CaseL? && LaidCases(L, code, b, ls, here, body0)
    ensures
      var k, rest := ls[|ls| - 1], ls[..|ls| - 1];
      var next := here + |Li(T0, k.v)| + 2;
      && Bears(b, k) && Place(code, here, CaseCode(k.v, body0 + Pos(L, b, k), here))
      && LaidCases(L, code, b, rest, next, body0) && DispatchLen(ls) == next - here + DispatchLen(rest)
  {
  }

  /** one comparison, then the rest of them */
  lemma CaseThenRest(L: ExprLang, code: Code, b: Stmt, v: int, target: int, rest: seq<Label>, here: int, next: int,
        body0: int, m: Machine, env: Env, lay: Layout)
    returns (m': Machine)
    requires InS64(v) && Place(code, here, CaseCode(v, target, here)) && next == here + |Li(T0, v)| + 2
    requires CasesOk(rest) && LaidCases(L, code, b, rest, next, body0) && Frame(m, env, lay)
    requires m.pc == code.base + 4 * here
    ensures m.regs[A1] == v ==> Arrives(code, m, m', target, env, lay)
    ensures
      var l := CaseL(m.regs[A1]);
      m.regs[A1] != v ==>
        && (l in rest ==> Bears(b, l))
        && Arrives(code, m, m', if l in rest then body0 + Pos(L, b, l) else next + DispatchLen(rest), env, lay)
    decreases |rest|, 3
  {
    m' := CaseCorrect(code, v, target, here, m, env, lay);
    if m.regs[A1] != v { m' := CasesAfter(L, code, b, rest, next, body0, m, m', env, lay); }
  }

  /** the comparisons after one that failed */
  lemma CasesAfter(L: ExprLang, code: Code, b: Stmt, rest: seq<Label>, next: int, body0: int, m: Machine, m1: Machine,
        env: Env, lay: Layout)
    returns (m': Machine)
    requires CasesOk(rest) && LaidCases(L, code, b, rest, next, body0)
    requires Arrives(code, m, m1, next, env, lay) && m1.regs[A1] == m.regs[A1]
    ensures
      var l := CaseL(m.regs[A1]);
      && (l in rest ==> Bears(b, l))
      && Arrives(code, m, m', if l in rest then body0 + Pos(L, b, l) else next + DispatchLen(rest), env, lay)
    decreases |rest|, 2
  {
    var l := CaseL(m.regs[A1]);
    m' := CasesCorrect(L, code, b, rest, next, body0, m1, env, lay);
    var to := if l in rest then body0 + Pos(L, b, l) else next + DispatchLen(rest);
    ArrivesTrans(code, m, m1, m', next, to, env, env, lay);
  }

  lemma {:induction false} LabelsOk(L: ExprLang, s: Stmt, lay: Layout, n: nat, brk: bool, cont: bool)
    requires OkS(L, s, lay, n, brk, cont)
    ensures CasesOk(Labels(s))
  {
    match s
    case Seq(a, b) => LabelsOk(L, a, lay, n, brk, cont); LabelsOk(L, b, lay, n, brk, cont);
    case IfThen(_, t) => LabelsOk(L, t, lay, n, brk, cont);
    case IfElse(_, t, f) => LabelsOk(L, t, lay, n, brk, cont); LabelsOk(L, f, lay, n, brk, cont);
    case Loop(_, _, _, b) => LabelsOk(L, b, lay, n, true, true);
    case Do(b, _) => LabelsOk(L, b, lay, n, true, true);
    case Labelled(_, b) => LabelsOk(L, b, lay, n, brk, cont);
    case _ =>
  }

  /** dispatch: to the selected label, or past the body */
  lemma DispatchCorrect(L: ExprLang, code: Code, b: Stmt, ls: seq<Label>, list0: int, other0: int, body0: int,
        m: Machine, env: Env, lay: Layout)
    returns (m': Machine)
    requires CasesOk(ls) && (forall l :: Bears(b, l) <==> l in ls) && Frame(m, env, lay)
    requires m.pc == code.base + 4 * list0
    requires other0 == list0 + DispatchLen(ls) && LaidCases(L, code, b, ls, list0, body0)
    requires Place(code, other0, [Jal(X0, 4 * (Otherwise(L, b, body0) - other0))])
    ensures Arrives(code, m, m', Chosen(L, b, m.regs[A1], body0), env, lay)
  {
    ChosenIs(L, b, ls, m.regs[A1], body0);
    m' := CasesCorrect(L, code, b, ls, list0, body0, m, env, lay);
    if CaseL(m.regs[A1]) !in ls {
      m' := OtherwiseCorrect(code, m, m', other0, Otherwise(L, b, body0), env, lay);
    }
  }

  lemma ChosenIs(L: ExprLang, b: Stmt, ls: seq<Label>, v: int, body0: int)
    requires forall l :: Bears(b, l) <==> l in ls
    ensures
      var l := CaseL(v);
      && (l in ls ==> Bears(b, l))
      && Chosen(L, b, v, body0) == if l in ls then body0 + Pos(L, b, l) else Otherwise(L, b, body0)
  {
  }

  /** no case holds the value: the jump behind the comparisons */
  lemma OtherwiseCorrect(code: Code, m: Machine, m1: Machine, other0: int, to: int, env: Env, lay: Layout)
    returns (m': Machine)
    requires Arrives(code, m, m1, other0, env, lay) && Place(code, other0, [Jal(X0, 4 * (to - other0))])
    ensures Arrives(code, m, m', to, env, lay)
  {
    m' := JalStep(code, m1, to - other0, env, lay);
    ArrivesTrans(code, m, m1, m', other0, to, env, env, lay);
  }

  lemma SwitchHead(L: ExprLang, code: Code, c: Expr, here: int, m: Machine, env: Env, lay: Layout, n: nat)
    returns (m': Machine)
    requires Sound(L, code) && L.ok(c, lay, n) && Live(m, env, lay, n) && m.pc == code.base + 4 * here
    requires Place(code, here, L.comp(c) + Mv(A1, A0))
    ensures
      var (v, env1) := L.eval(c, env);
      Arrives(code, m, m', here + |L.comp(c)| + 1, env1, lay) && m'.regs[A1] == v
  {
    var (v, env1) := L.eval(c, env);
    AtSplit(code, m.pc, L.comp(c), Mv(A1, A0));
    assert Good(L, code, c);
    var m1 := ExprRuns(L, code, c, m, env, lay, n);
    m' := MvStep(code, m1, A1, A0, env1, lay);
    ArrivesTrans(code, m, m1, m', here + |L.comp(c)|, here + |L.comp(c)| + 1, env1, env1, lay);
  }

  lemma BearsAll(b: Stmt)
    ensures forall l :: Bears(b, l) <==> l in Labels(b)
  {
    forall l ensures Bears(b, l) <==> l in Labels(b) { BearsLabels(b, l); }
  }

  lemma SwitchParts(L: ExprLang, code: Code, c: Expr, b: Stmt, ls: seq<Label>, here: int, body0: int)
    requires SwitchHeadAt(L, code, c, b, ls, here, body0)
    ensures Place(code, here, L.comp(c) + Mv(A1, A0)) && body0 - 1 == here + |L.comp(c)| + 1 + DispatchLen(ls)
    ensures LaidCases(L, code, b, ls, here + |L.comp(c)| + 1, body0)
    ensures Place(code, body0 - 1, [Jal(X0, 4 * (Otherwise(L, b, body0) - (body0 - 1)))])
  {
  }

  /** evaluate the value and dispatch on it */
  lemma SwitchSelect(L: ExprLang, code: Code, c: Expr, b: Stmt, ls: seq<Label>, here: int, body0: int, m: Machine,
        env: Env, lay: Layout, n: nat)
    returns (m': Machine)
    requires Sound(L, code) && L.ok(c, lay, n) && Live(m, env, lay, n) && m.pc == code.base + 4 * here
    requires CasesOk(ls) && (forall l :: Bears(b, l) <==> l in ls) && SwitchHeadAt(L, code, c, b, ls, here, body0)
    ensures
      var (v, env1) := L.eval(c, env);
      Arrives(code, m, m', Chosen(L, b, v, body0), env1, lay)
  {
    SwitchParts(L, code, c, b, ls, here, body0);
    var m1 := SwitchHead(L, code, c, here, m, env, lay, n);
    var (v, env1) := L.eval(c, env);
    m' := SwitchTable(L, code, v, b, ls, here + |L.comp(c)| + 1, body0, m, m1, env1, lay);
  }

  /** dispatch on the value in a1 */
  lemma SwitchTable(L: ExprLang, code: Code, v: int, b: Stmt, ls: seq<Label>, list0: int, body0: int, m: Machine,
        m1: Machine, env1: Env, lay: Layout)
    returns (m': Machine)
    requires Arrives(code, m, m1, list0, env1, lay) && m1.regs[A1] == v && CasesOk(ls)
    requires (forall l :: Bears(b, l) <==> l in ls)
    requires body0 - 1 == list0 + DispatchLen(ls) && LaidCases(L, code, b, ls, list0, body0)
    requires Place(code, body0 - 1, [Jal(X0, 4 * (Otherwise(L, b, body0) - (body0 - 1)))])
    ensures Arrives(code, m, m', Chosen(L, b, v, body0), env1, lay)
  {
    m' := DispatchCorrect(L, code, b, ls, list0, body0 - 1, body0, m1, env1, lay);
    ArrivesTrans(code, m, m1, m', list0, Chosen(L, b, v, body0), env1, env1, lay);
  }

  lemma ReturnValue(L: ExprLang, code: Code, e: Option<Expr>, here: int, m: Machine, env: Env, lay: Layout, n: nat)
    returns (m1: Machine)
    requires Sound(L, code) && OkOpt(L, e, lay, n) && Live(m, env, lay, n) && m.pc == code.base + 4 * here
    requires At(code, m.pc, ReturnValueCode(L, e) + EpilogueCode())
    ensures
      var (v, env1) := if e.Some? then L.eval(e.value, env) else (0, env);
      Leads(code, m, m1, |ReturnValueCode(L, e)|, env1, lay) && m1.regs[A0] == v
    ensures At(code, m1.pc, EpilogueCode())
  {
    AtSplit(code, m.pc, ReturnValueCode(L, e), EpilogueCode());
    if e.Some? {
      assert Good(L, code, e.value);
      m1 := ExprRuns(L, code, e.value, m, env, lay, n);
    } else {
      m1 := LiStep(code, m, A0, 0, env, lay);
    }
  }

  // ----- all statements -----

  /** m' is where a statement placed at p leaves the machine when it ends as r says */
  ghost predicate Ends(C: Ctx, p: Span, m: Machine, m': Machine, r: (Outcome, Env), fuel: nat) {
    Lands(C.code, m, m', r.0, r.1, C.lay, p.end, p.brk, p.cont, fuel)
  }

  /** the machine is at word w, in a frame with room for the statement */
  ghost predicate Stands(C: Ctx, m: Machine, w: int, env: Env) {
    Sound(C.L, C.code) && Live(m, env, C.lay, C.n) && m.pc == C.code.base + 4 * w
  }

  lemma StmtRuns(C: Ctx, s: Stmt, at: Option<Label>, p: Span, w: int, m: Machine, env: Env, fuel: nat,
        r: (Outcome, Env))
    returns (m': Machine)
    requires Job(C, s, p) && Trip(C, s, at, p, w, env, fuel, r) && Stands(C, m, w, env)
    ensures Ends(C, p, m, m', r, fuel)
    decreases fuel, s, 3
  {
    match s
    case Seq(_, _) => m' := SeqRuns(C, s, at, p, w, m, env, fuel, r);
    case IfThen(_, _) => m' := IfThenRuns(C, s, at, p, w, m, env, fuel, r);
    case IfElse(_, _, _) => m' := IfElseRuns(C, s, at, p, w, m, env, fuel, r);
    case Loop(_, _, _, _) => m' := LoopRuns(C, s, at, p, w, m, env, fuel, r);
    case Do(_, _) => m' := DoRuns(C, s, at, p, w, m, env, fuel, r);
    case Switch(_, _) => m' := SwitchRuns(C, s, at, p, w, m, env, fuel, r);
    case Labelled(_, _) =>
      var at' := LabelledParts(C, s, at, p, w, env, fuel, r);
      m' := StmtRuns(C, s.body, at', p, w, m, env, fuel, r);
    case Return(_) => m' := ReturnRuns(C, s, at, p, w, m, env, fuel, r);
    case _ => m' := SimpleRuns(C, s, at, p, w, m, env, fuel, r);
  }

  lemma SimpleRuns(C: Ctx, s: Stmt, at: Option<Label>, p: Span, w: int, m: Machine, env: Env, fuel: nat,
        r: (Outcome, Env))
    returns (m': Machine)
    requires Simple(s) && Job(C, s, p) && Trip(C, s, at, p, w, env, fuel, r) && Stands(C, m, w, env)
    ensures Ends(C, p, m, m', r, fuel)
  {
    SimpleParts(C, s, at, p, w, env, fuel, r);
    match s
    case Skip =>
      m' := m;
      LeadsRefl(C.code, m, env, C.lay);
    case ExprS(e) =>
      assert Good(C.L, C.code, e);
      m' := ExprRuns(C.L, C.code, e, m, env, C.lay, C.n);
    case Break => m' := JalStep(C.code, m, p.brk - w, env, C.lay);
    case Continue => m' := JalStep(C.code, m, p.cont - w, env, C.lay);
  }

  lemma ReturnRuns(C: Ctx, s: Stmt, at: Option<Label>, p: Span, w: int, m: Machine, env: Env, fuel: nat,
        r: (Outcome, Env))
    returns (m': Machine)
    requires s.Return? && Job(C, s, p) && Trip(C, s, at, p, w, env, fuel, r) && Stands(C, m, w, env)
    ensures Ends(C, p, m, m', r, fuel)
  {
    ReturnParts(C, s, at, p, w, env, fuel, r);
    var m1 := ReturnValue(C.L, C.code, s.value, w, m, env, C.lay, C.n);
    m' := EpilogueCorrect(C.code, m1, r.1, C.lay);
    GoesTrans(C.code, m, m1, m');
    ReturnedAfter(m, m1, m', m1.regs[A0], C.lay);
  }

  lemma SeqRuns(C: Ctx, s: Stmt, at: Option<Label>, p: Span, w: int, m: Machine, env: Env, fuel: nat,
        r: (Outcome, Env))
    returns (m': Machine)
    requires s.Seq? && Job(C, s, p) && Trip(C, s, at, p, w, env, fuel, r) && Stands(C, m, w, env)
    ensures Ends(C, p, m, m', r, fuel)
    decreases fuel, s, 2
  {
    var mid := SeqJobs(C, s, p);
    var first, ra := SeqTrips(C, s, at, p, mid, w, env, fuel, r);
    if first {
      m' := StmtRuns(C, s.fst, at, p.(end := mid), w, m, env, fuel, ra);
      if ra.0.Normal? { m' := ThenRuns(C, s.snd, None, p.(here := mid), mid, m, m', env, ra.1, fuel, r); }
    } else {
      m' := StmtRuns(C, s.snd, at, p.(here := mid), w, m, env, fuel, r);
    }
  }

  /** having arrived at word w, run the statement entered there */
  lemma ThenRuns(C: Ctx, s: Stmt, at: Option<Label>, p: Span, w: int, m: Machine, m1: Machine, env: Env, env1: Env,
        fuel: nat, r: (Outcome, Env))
    returns (m': Machine)
    requires Job(C, s, p) && Trip(C, s, at, p, w, env1, fuel, r)
    requires Sound(C.L, C.code) && Live(m, env, C.lay, C.n) && Arrives(C.code, m, m1, w, env1, C.lay)
    ensures Ends(C, p, m, m', r, fuel)
    decreases fuel, s, 4
  {
    LiveAfter(C.code, m, m1, w, env, env1, C.lay, C.n);
    m' := StmtRuns(C, s, at, p, w, m1, env1, fuel, r);
    LandsAfter(C.code, m, m1, m', w, env1, r.0, r.1, C.lay, p.end, p.brk, p.cont, fuel);
  }

  lemma IfThenRuns(C: Ctx, s: Stmt, at: Option<Label>, p: Span, w: int, m: Machine, env: Env, fuel: nat,
        r: (Outcome, Env))
    returns (m': Machine)
    requires s.IfThen? && Job(C, s, p) && Trip(C, s, at, p, w, env, fuel, r) && Stands(C, m, w, env)
    ensures Ends(C, p, m, m', r, fuel)
    decreases fuel, s, 2
  {
    var t := IfThenJobs(C, s, p);
    IfThenTrips(C, s, at, p, t, w, env, fuel, r);
    if at.Some? {
      m' := StmtRuns(C, s.thn, at, t, w, m, env, fuel, r);
    } else {
      m' := TestCorrect(C.L, C.code, s.c, p.end - t.here + 1, w, m, env, C.lay, C.n);
      var (v, env1) := C.L.eval(s.c, env);
      if v != 0 { m' := ThenRuns(C, s.thn, None, t, t.here, m, m', env, env1, fuel, r); }
    }
  }

  lemma IfElseRuns(C: Ctx, s: Stmt, at: Option<Label>, p: Span, w: int, m: Machine, env: Env, fuel: nat,
        r: (Outcome, Env))
    returns (m': Machine)
    requires s.IfElse? && Job(C, s, p) && Trip(C, s, at, p, w, env, fuel, r) && Stands(C, m, w, env)
    ensures Ends(C, p, m, m', r, fuel)
    decreases fuel, s, 2
  {
    var t, f := IfElseJobs(C, s, p);
    var first := IfElseTrips(C, s, at, p, t, f, w, env, fuel, r);
    if at.Some? {
      if first {
        m' := StmtRuns(C, s.thn, at, t, w, m, env, fuel, r);
      } else {
        m' := StmtRuns(C, s.els, at, f, w, m, env, fuel, r);
      }
    } else {
      m' := TestCorrect(C.L, C.code, s.c, f.here - t.here + 1, w, m, env, C.lay, C.n);
      var (v, env1) := C.L.eval(s.c, env);
      if first {
        m' := ThenRuns(C, s.thn, None, t, t.here, m, m', env, env1, fuel, r);
      } else {
        m' := ThenRuns(C, s.els, None, f, f.here, m, m', env, env1, fuel, r);
      }
    }
    if first { m' := JumpOn(C.code, m, m', r.0, r.1, C.lay, t.end, p.end - t.end, p.brk, p.cont, fuel); }
  }

  // ----- loops -----

  lemma LoopRuns(C: Ctx, s: Stmt, at: Option<Label>, p: Span, w: int, m: Machine, env: Env, fuel: nat,
        r: (Outcome, Env))
    returns (m': Machine)
    requires s.Loop? && Job(C, s, p) && Trip(C, s, at, p, w, env, fuel, r) && Stands(C, m, w, env)
    ensures Ends(C, p, m, m', r, fuel)
    decreases fuel, s, 2
  {
    var b := LoopJobs(C, s, p);
    var rb := LoopTrips(C, s, at, p, b, w, env, fuel, r);
    if at.Some? {
      m' := StmtRuns(C, s.body, at, b, w, m, env, fuel, rb);
      m' := LoopAgain(C, s, p, b, m, m', env, rb, fuel, r);
    } else {
      m' := LoopHead(C.L, C.code, s.cond, p.here, b.here, p.end, m, env, C.lay, C.n);
      var (v, env1) := if s.cond.Some? then C.L.eval(s.cond.value, env) else (1, env);
      if v != 0 {
        m' := ThenRuns(C, s.body, None, b, b.here, m, m', env, env1, fuel, rb);
        m' := LoopAgain(C, s, p, b, m, m', env, rb, fuel, r);
      }
    }
  }

  /** what happens when the body of a loop has ended */
  lemma LoopAgain(C: Ctx, s: Stmt, p: Span, b: Span, m: Machine, mb: Machine, env: Env, rb: (Outcome, Env), fuel: nat,
        r: (Outcome, Env))
    returns (m': Machine)
    requires s.Loop? && Job(C, s, p) && b == BodySpan(C, s, p) && Next(C, s, rb, fuel, r)
    requires Sound(C.L, C.code) && Live(m, env, C.lay, C.n) && Ends(C, b, m, mb, rb, fuel)
    ensures Ends(C, p, m, m', r, fuel)
    decreases fuel, s, 1
  {
    var _ := LoopJobs(C, s, p);
    LoopNext(C, s, p, rb, fuel, r);
    m' := mb;
    if rb.0.Normal? || rb.0.Cont? {
      var env2 := if s.inc.Some? then C.L.eval(s.inc.value, rb.1).1 else rb.1;
      if rb.0.Normal? || !s.top {
        m' := StepCorrect(C.L, C.code, s.inc, p.here, b.end, m, mb, env, rb.1, C.lay, C.n);
      }
      m' := RoundRuns(C, s, p, m, m', env, env2, fuel, r);
    }
  }

  /** back at the head of a loop: time is up, or another round */
  lemma RoundRuns(C: Ctx, s: Stmt, p: Span, m: Machine, m2: Machine, env: Env, env2: Env, fuel: nat, r: (Outcome, Env))
    returns (m': Machine)
    requires Job(C, s, p) && Round(C, s, p, env2, fuel, r) && Sound(C.L, C.code) && Live(m, env, C.lay, C.n)
    requires Arrives(C.code, m, m2, p.here, env2, C.lay) && Plus(C.code, m, m2)
    ensures Ends(C, p, m, m', r, fuel)
    decreases fuel, s, 0
  {
    if fuel == 0 {
      RunsZero(C.code, m);
      m' := m;
    } else {
      LiveAfter(C.code, m, m2, p.here, env, env2, C.lay, C.n);
      m' := StmtRuns(C, s, None, p, p.here, m2, env2, fuel - 1, r);
      LandsAgain(C.code, m, m2, m', p.here, env2, r.0, r.1, C.lay, p.end, p.brk, p.cont, fuel - 1);
    }
  }

  lemma DoRuns(C: Ctx, s: Stmt, at: Option<Label>, p: Span, w: int, m: Machine, env: Env, fuel: nat,
        r: (Outcome, Env))
    returns (m': Machine)
    requires s.Do? && Job(C, s, p) && Trip(C, s, at, p, w, env, fuel, r) && Stands(C, m, w, env)
    ensures Ends(C, p, m, m', r, fuel)
    decreases fuel, s, 2
  {
    var b := DoJobs(C, s, p);
    var rb := DoTrips(C, s, at, p, b, w, env, fuel, r);
    m' := StmtRuns(C, s.body, at, b, w, m, env, fuel, rb);
    m' := DoAgain(C, s, p, b, m, m', env, rb, fuel, r);
  }

  /** what happens when the body of a do loop has ended */
  lemma DoAgain(C: Ctx, s: Stmt, p: Span, b: Span, m: Machine, mb: Machine, env: Env, rb: (Outcome, Env), fuel: nat,
        r: (Outcome, Env))
    returns (m': Machine)
    requires s.Do? && Job(C, s, p) && b == DoSpan(C, s, p) && Next(C, s, rb, fuel, r)
    requires Sound(C.L, C.code) && Live(m, env, C.lay, C.n) && Ends(C, b, m, mb, rb, fuel)
    ensures Ends(C, p, m, m', r, fuel)
    decreases fuel, s, 1
  {
    var _ := DoJobs(C, s, p);
    DoNext(C, s, p, rb, fuel, r);
    m' := mb;
    if rb.0.Normal? || rb.0.Cont? {
      m' := DoTest(C.L, C.code, s.c, p.here, b.end, m, mb, env, rb.1, C.lay, C.n);
      var (v, env2) := C.L.eval(s.c, rb.1);
      if v != 0 { m' := RoundRuns(C, s, p, m, m', env, env2, fuel, r); }
    }
  }

  lemma SwitchRuns(C: Ctx, s: Stmt, at: Option<Label>, p: Span, w: int, m: Machine, env: Env, fuel: nat,
        r: (Outcome, Env))
    returns (m': Machine)
    requires s.Switch? && Job(C, s, p) && Trip(C, s, at, p, w, env, fuel, r) && Stands(C, m, w, env)
    ensures Ends(C, p, m, m', r, fuel)
    decreases fuel, s, 2
  {
    var b := SwitchJobs(C, s, p);
    var rb := SwitchTrips(C, s, at, p, b, w, env, fuel, r);
    JobLabels(C, s.body, b);
    m' := SwitchSelect(C.L, C.code, s.c, s.body, Labels(s.body), w, b.here, m, env, C.lay, C.n);
    var (v, env1) := C.L.eval(s.c, env);
    var l := Select(s.body, v);
    if l.Some? {
      m' := ThenRuns(C, s.body, l, b, Chosen(C.L, s.body, v, b.here), m, m', env, env1, fuel, rb);
    }
  }

  lemma JobLabels(C: Ctx, b: Stmt, p: Span)
    requires Job(C, b, p)
    ensures CasesOk(Labels(b)) && forall l :: Bears(b, l) <==> l in Labels(b)
  {
    JobHas(C, b, p);
    LabelsOk(C.L, b, C.lay, C.n, true, true);
    BearsAll(b);
  }

  /** Compiler correctness for statements: entered at its beginning or at one of
      its labels, the code of s takes the machine where the source semantics
      says, with the locals it says. */
  lemma StmtCorrect(L: ExprLang, code: Code, s: Stmt, at: Option<Label>, here: int, brk: int, cont: int, m: Machine,
        env: Env, lay: Layout, n: nat, fuel: nat)
    returns (m': Machine)
    requires Sound(L, code) && OkS(L, s, lay, n, true, true) && Laid(L, code, s, here, brk, cont)
    requires Live(m, env, lay, n) && Enters(L, code, s, at, here, m)
    ensures Runs(L, code, s, at, here, brk, cont, m, m', env, lay, fuel)
  {
    var C, p := Ctx(L, code, lay, n), Span(here, here + Len(L, s), brk, cont);
    var w, r := here + EntryPos(L, s, at), ExecS(L, s, at, env, fuel);
    JobIs(C, s, p);
    TripIs(C, s, at, p, w, env, fuel, r);
    m' := StmtRuns(C, s, at, p, w, m, env, fuel, r);
  }
}
