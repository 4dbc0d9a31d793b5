/** Statements: their meaning and the code gen_stmt emits for them, with every
    label resolved to a word position in the code buffer. */
module CcStmt {
  import opened Options
  import opened RvArith
  import opened RvMachine
  import opened CcMacros
  import opened CcSource
  import opened CcCode

  /** case and default labels of a switch */
  datatype Label = CaseL(v: int) | DefaultL

  /** A block is a chain of Seq ending in Skip. `while (c) b` is
      Loop(true, Some(c), None, b); `for (i; c; n) b` is
      Seq(i, Loop(false, c, n, b)): continue goes to the top of a while loop but
      to the step of a for loop. */
  datatype Stmt =
    | Skip
    | ExprS(e: Expr)
    | Seq(fst: Stmt, snd: Stmt)
    | IfThen(c: Expr, thn: Stmt)
    | IfElse(c: Expr, thn: Stmt, els: Stmt)
    | Loop(top: bool, cond: Option<Expr>, inc: Option<Expr>, body: Stmt)
    | Do(body: Stmt, c: Expr)
    | Break
    | Continue
    | Return(value: Option<Expr>)
    | Switch(c: Expr, body: Stmt)
    | Labelled(l: Label, body: Stmt)

  // ----- meaning -----

  /** how a statement ends; Timeout when the loop budget is used up */
  datatype Outcome = Normal | Brk | Cont | Ret(v: int) | Timeout

  /** the labels of the innermost switch around s, in textual order */
  function Labels(s: Stmt): seq<Label> {
    match s
    case Seq(a, b) => Labels(a) + Labels(b)
    case IfThen(_, t) => Labels(t)
    case IfElse(_, t, f) => Labels(t) + Labels(f)
    case Loop(_, _, _, b) => Labels(b)
    case Do(b, _) => Labels(b)
    case Labelled(l, b) => [l] + Labels(b)
    case _ => []
  }

  /** l is one of those labels */
  predicate Bears(s: Stmt, l: Label) {
    match s
    case Seq(a, b) => Bears(a, l) || Bears(b, l)
    case IfThen(_, t) => Bears(t, l)
    case IfElse(_, t, f) => Bears(t, l) || Bears(f, l)
    case Loop(_, _, _, b) => Bears(b, l)
    case Do(b, _) => Bears(b, l)
    case Labelled(l1, b) => l == l1 || Bears(b, l)
    case _ => false
  }

  lemma {:induction false} BearsLabels(s: Stmt, l: Label)
    ensures Bears(s, l) <==> l in Labels(s)
  {
    match s
    case Seq(a, b) => BearsLabels(a, l); BearsLabels(b, l);
    case IfThen(_, t) => BearsLabels(t, l);
    case IfElse(_, t, f) => BearsLabels(t, l); BearsLabels(f, l);
    case Loop(_, _, _, b) => BearsLabels(b, l);
    case Do(b, _) => BearsLabels(b, l);
    case Labelled(l1, b) => BearsLabels(b, l);
    case _ =>
  }

  predicate Has(s: Stmt, at: Option<Label>) { at.Some? ==> Bears(s, at.value) }

  /** the label a switch value selects */
  function Select(b: Stmt, v: int): Option<Label> {
    if Bears(b, CaseL(v)) then Some(CaseL(v))
    else if Bears(b, DefaultL) then Some(DefaultL)
    else None
  }

  /** Executes s from its beginning or, when a switch jumps into it, from a label
      anywhere inside it: C lets a case label stand inside a loop or a branch.
      The budget bounds how often loops may go round. */
  function ExecS(L: ExprLang, s: Stmt, at: Option<Label>, env: Env, fuel: nat): (Outcome, Env)
    requires Has(s, at)
    decreases fuel, s, 1
  {
    match s
    case Skip => (Normal, env)
    case ExprS(e) => (Normal, L.eval(e, env).1)
    case Seq(a, b) =>
      if !Has(a, at) then ExecS(L, b, at, env, fuel)
      else
        var (o, env1) := ExecS(L, a, at, env, fuel);
        if o.Normal? then ExecS(L, b, None, env1, fuel) else (o, env1)
    case IfThen(c, t) =>
      if at.Some? then ExecS(L, t, at, env, fuel)
      else
        var (v, env1) := L.eval(c, env);
        if v != 0 then ExecS(L, t, None, env1, fuel) else (Normal, env1)
    case IfElse(c, t, f) =>
      if at.Some? then (if Has(t, at) then ExecS(L, t, at, env, fuel) else ExecS(L, f, at, env, fuel))
      else
        var (v, env1) := L.eval(c, env);
        if v != 0 then ExecS(L, t, None, env1, fuel) else ExecS(L, f, None, env1, fuel)
    case Loop(_, cond, _, b) =>
      if at.Some? then Again(L, s, ExecS(L, b, at, env, fuel), fuel)
      else
        var (v, env1) := if cond.Some? then L.eval(cond.value, env) else (1, env);
        if v != 0 then Again(L, s, ExecS(L, b, None, env1, fuel), fuel) else (Normal, env1)
    case Do(b, c) => Again(L, s, ExecS(L, b, at, env, fuel), fuel)
    case Break => (Brk, env)
    case Continue => (Cont, env)
    case Return(None) => (Ret(0), env)
    case Return(Some(e)) => var (v, env1) := L.eval(e, env); (Ret(v), env1)
    case Switch(c, b) =>
      var (v, env1) := L.eval(c, env);
      var l := Select(b, v);
      if l.None? then (Normal, env1)
      else
        var (o, env2) := ExecS(L, b, l, env1, fuel);
        (if o.Brk? then Normal else o, env2)
    case Labelled(l, b) => if at == Some(l) then ExecS(L, b, None, env, fuel) else ExecS(L, b, at, env, fuel)
  }

  /** what a loop does when its body has ended */
  function Again(L: ExprLang, s: Stmt, r: (Outcome, Env), fuel: nat): (Outcome, Env)
    requires s.Loop? || s.Do?
    decreases fuel, s, 0
  {
    match r.0
    case Brk => (Normal, r.1)
    case Ret(_) => r
    case Timeout => r
    case _ =>
      if s.Loop? then
        var env1 := if s.inc.Some? then L.eval(s.inc.value, r.1).1 else r.1;
        if fuel == 0 then (Timeout, env1) else ExecS(L, s, None, env1, fuel - 1)
      else
        var (v, env1) := L.eval(s.c, r.1);
        if v == 0 then (Normal, env1)
        else if fuel == 0 then (Timeout, env1)
        else ExecS(L, s, None, env1, fuel - 1)
  }

  /** More budget changes nothing once it suffices: the outcome of a statement
      does not depend on the budget it is computed with. */
  lemma {:induction false} BudgetIrrelevant(L: ExprLang, s: Stmt, at: Option<Label>, env: Env, fuel: nat, more: nat)
    requires Has(s, at) && fuel <= more && !ExecS(L, s, at, env, fuel).0.Timeout?
    ensures ExecS(L, s, at, env, more) == ExecS(L, s, at, env, fuel)
    decreases fuel, s, 1
  {
    match s
    case Seq(a, b) =>
      if Has(a, at) {
        BudgetIrrelevant(L, a, at, env, fuel, more);
        var (o, env1) := ExecS(L, a, at, env, fuel);
        if o.Normal? { BudgetIrrelevant(L, b, None, env1, fuel, more); }
      } else {
        BudgetIrrelevant(L, b, at, env, fuel, more);
      }
    case IfThen(c, t) =>
      if at.Some? { BudgetIrrelevant(L, t, at, env, fuel, more); }
      else if L.eval(c, env).0 != 0 { BudgetIrrelevant(L, t, None, L.eval(c, env).1, fuel, more); }
    case IfElse(c, t, f) =>
      if at.None? {
        var (v, env1) := L.eval(c, env);
        BudgetIrrelevant(L, if v != 0 then t else f, None, env1, fuel, more);
      } else {
        BudgetIrrelevant(L, if Has(t, at) then t else f, at, env, fuel, more);
      }
    case Loop(_, c, _, b) =>
      var (v, env1) := if at.Some? || c.None? then (1, env) else L.eval(c.value, env);
      if v != 0 {
        BudgetIrrelevant(L, b, at, env1, fuel, more);
        BudgetAgain(L, s, ExecS(L, b, at, env1, fuel), fuel, more);
      }
    case Do(b, c) =>
      BudgetIrrelevant(L, b, at, env, fuel, more);
      BudgetAgain(L, s, ExecS(L, b, at, env, fuel), fuel, more);
    case Switch(c, b) =>
      var (v, env1) := L.eval(c, env);
      if Select(b, v).Some? { BudgetIrrelevant(L, b, Select(b, v), env1, fuel, more); }
    case Labelled(l, b) => BudgetIrrelevant(L, b, if at == Some(l) then None else at, env, fuel, more);
    case _ =>
  }

  lemma BudgetAgain(L: ExprLang, s: Stmt, r: (Outcome, Env), fuel: nat, more: nat)
    requires (s.Loop? || s.Do?) && fuel <= more && !Again(L, s, r, fuel).0.Timeout?
    ensures Again(L, s, r, more) == Again(L, s, r, fuel)
    decreases fuel, s, 0
  {
    if r.0.Normal? || r.0.Cont? {
      if s.Loop? {
        var env1 := if s.inc.Some? then L.eval(s.inc.value, r.1).1 else r.1;
        BudgetIrrelevant(L, s, None, env1, fuel - 1, more - 1);
      } else if L.eval(s.c, r.1).0 != 0 {
        BudgetIrrelevant(L, s, None, L.eval(s.c, r.1).1, fuel - 1, more - 1);
      }
    }
  }

  predicate OkOpt(L: ExprLang, e: Option<Expr>, lay: Layout, n: nat) { e.Some? ==> L.ok(e.value, lay, n) }

  predicate LabelOk(l: Label) { l.CaseL? ==> InS64(l.v) }

  /** well formed: good expressions, break and continue only where they have a
      target; n stack slots suffice */
  predicate OkS(L: ExprLang, s: Stmt, lay: Layout, n: nat, brk: bool, cont: bool) {
    match s
    case Skip => true
    case ExprS(e) => L.ok(e, lay, n)
    case Seq(a, b) => OkS(L, a, lay, n, brk, cont) && OkS(L, b, lay, n, brk, cont)
    case IfThen(c, t) => L.ok(c, lay, n) && OkS(L, t, lay, n, brk, cont)
    case IfElse(c, t, f) => L.ok(c, lay, n) && OkS(L, t, lay, n, brk, cont) && OkS(L, f, lay, n, brk, cont)
    case Loop(top, c, inc, b) =>
      OkOpt(L, c, lay, n) && OkOpt(L, inc, lay, n) && (top ==> inc.None?) && OkS(L, b, lay, n, true, true)
    case Do(b, c) => OkS(L, b, lay, n, true, true) && L.ok(c, lay, n)
    case Break => brk
    case Continue => cont
    case Return(v) => OkOpt(L, v, lay, n)
    case Switch(c, b) => L.ok(c, lay, n) && OkS(L, b, lay, n, true, cont)
    case Labelled(l, b) => LabelOk(l) && OkS(L, b, lay, n, brk, cont)
  }

  // ----- code -----

  /** ND_RETURN after the value is in a0; also the end of every function */
  function EpilogueCode(): seq<Instr> {
    Mv(SP, S0) + [Load(Double, RA, SP, -8), Load(Double, S0, SP, -16), Jalr(X0, RA, 0)]
  }

  function ReturnValueCode(L: ExprLang, e: Option<Expr>): seq<Instr> { if e.Some? then L.comp(e.value) else Li(A0, 0) }

  function OptCode(L: ExprLang, e: Option<Expr>): seq<Instr> { if e.Some? then L.comp(e.value) else [] }

  /** the test at the head of a loop: two more words for the jump out */
  function TestLen(L: ExprLang, c: Option<Expr>): nat { if c.Some? then |L.comp(c.value)| + 2 else 0 }

  /** one comparison of a switch */
  function CaseCode(v: int, target: int, here: int): seq<Instr> {
    Li(T0, v) + [Branch(true, A1, T0, 8), Jal(X0, 4 * (target - (here + |Li(T0, v)| + 1)))]
  }

  /** the comparisons of a switch, for the labels taken from the last one
      backwards (the parser's list grows at its head), default left for the end */
  function DispatchLen(ls: seq<Label>): nat {
    if ls == [] then 0
    else (if ls[|ls| - 1].CaseL? then |Li(T0, ls[|ls| - 1].v)| + 2 else 0) + DispatchLen(ls[..|ls| - 1])
  }

  function Len(L: ExprLang, s: Stmt): nat {
    match s
    case Skip => 0
    case ExprS(e) => |L.comp(e)|
    case Seq(a, b) => Len(L, a) + Len(L, b)
    case IfThen(c, t) => |L.comp(c)| + 2 + Len(L, t)
    case IfElse(c, t, f) => |L.comp(c)| + 3 + Len(L, t) + Len(L, f)
    case Loop(_, c, n, b) => TestLen(L, c) + Len(L, b) + |OptCode(L, n)| + 1
    case Do(b, c) => Len(L, b) + |L.comp(c)| + 2
    case Break => 1
    case Continue => 1
    case Return(v) => |ReturnValueCode(L, v)| + 4
    case Switch(c, b) => |L.comp(c)| + 2 + DispatchLen(Labels(b)) + Len(L, b)
    case Labelled(_, b) => Len(L, b)
  }

  /** where a label inside s lies, in words from the start of s */
  function Pos(L: ExprLang, s: Stmt, l: Label): (p: nat)
    requires Bears(s, l)
    ensures p <= Len(L, s)
  {
    match s
    case Seq(a, b) => if Bears(a, l) then Pos(L, a, l) else Len(L, a) + Pos(L, b, l)
    case IfThen(c, t) => |L.comp(c)| + 2 + Pos(L, t, l)
    case IfElse(c, t, f) =>
      if Bears(t, l) then |L.comp(c)| + 2 + Pos(L, t, l) else |L.comp(c)| + 3 + Len(L, t) + Pos(L, f, l)
    case Loop(_, c, _, b) => TestLen(L, c) + Pos(L, b, l)
    case Do(b, _) => Pos(L, b, l)
    case Labelled(l1, b) => if l == l1 then 0 else Pos(L, b, l)
  }

  function EntryPos(L: ExprLang, s: Stmt, at: Option<Label>): nat
    requires Has(s, at)
  {
    if at.Some? then Pos(L, s, at.value) else 0
  }

  /** no comparison held: to the default label or past the switch */
  function Otherwise(L: ExprLang, b: Stmt, body0: int): int {
    if Bears(b, DefaultL) then body0 + Pos(L, b, DefaultL) else body0 + Len(L, b)
  }

  /** instructions at word w */
  ghost predicate Place(code: Code, w: int, c: seq<Instr>) { At(code, code.base + 4 * w, c) }

  /** the comparisons for ls from word `here` on, for a switch body at word body0 */
  ghost predicate LaidCases(L: ExprLang, code: Code, b: Stmt, ls: seq<Label>, here: int, body0: int)
    decreases |ls|
  {
    ls == [] ||
    var l := ls[|ls| - 1];
    if l.DefaultL? then LaidCases(L, code, b, ls[..|ls| - 1], here, body0)
    else
      && Bears(b, l) && Place(code, here, CaseCode(l.v, body0 + Pos(L, b, l), here))
      && LaidCases(L, code, b, ls[..|ls| - 1], here + |Li(T0, l.v)| + 2, body0)
  }

  /** the value, the comparisons for the labels ls, and the jump when none holds */
  ghost predicate SwitchHeadAt(L: ExprLang, code: Code, c: Expr, b: Stmt, ls: seq<Label>, here: int, body0: int) {
    var list0 := here + |L.comp(c)| + 1;
    && body0 == list0 + DispatchLen(ls) + 1
    && Place(code, here, L.comp(c) + Mv(A1, A0)) && LaidCases(L, code, b, ls, list0, body0)
    && Place(code, body0 - 1, [Jal(X0, 4 * (Otherwise(L, b, body0) - (body0 - 1)))])
  }

  /** the code gen_stmt emits for s lies at word `here`; break and continue jump
      to words brk and cont */
  ghost predicate Laid(L: ExprLang, code: Code, s: Stmt, here: int, brk: int, cont: int)
    decreases s
  {
    match s
    case Skip => true
    case ExprS(e) => Place(code, here, L.comp(e))
    case Seq(a, b) => Laid(L, code, a, here, brk, cont) && Laid(L, code, b, here + Len(L, a), brk, cont)
    case IfThen(c, t) =>
      var then0 := here + |L.comp(c)| + 2;
      Place(code, here, L.comp(c) + JumpIf(true, Len(L, t) + 1)) && Laid(L, code, t, then0, brk, cont)
    case IfElse(c, t, f) =>
      var then0 := here + |L.comp(c)| + 2;
      var else0 := then0 + Len(L, t) + 1;
      && Place(code, here, L.comp(c) + JumpIf(true, Len(L, t) + 2)) && Laid(L, code, t, then0, brk, cont)
      && Place(code, then0 + Len(L, t), [Jal(X0, 4 * (Len(L, f) + 1))]) && Laid(L, code, f, else0, brk, cont)
    case Loop(top, c, n, b) =>
      var body0 := here + TestLen(L, c);
      var step0 := body0 + Len(L, b);
      var end := here + Len(L, s);
      && (c.Some? ==> Place(code, here, L.comp(c.value) + JumpIf(true, end - body0 + 1)))
      && Laid(L, code, b, body0, end, if top then here else step0)
      && Place(code, step0, OptCode(L, n)) && Place(code, end - 1, [Jal(X0, 4 * (here - (end - 1)))])
    case Do(b, c) =>
      var test0 := here + Len(L, b);
      var end := here + Len(L, s);
      Laid(L, code, b, here, end, test0) && Place(code, test0, L.comp(c) + JumpIf(false, here - (end - 1)))
    case Break => Place(code, here, [Jal(X0, 4 * (brk - here))])
    case Continue => Place(code, here, [Jal(X0, 4 * (cont - here))])
    case Return(v) => Place(code, here, ReturnValueCode(L, v) + EpilogueCode())
    case Switch(c, b) =>
      var body0 := here + Len(L, s) - Len(L, b);
      SwitchHeadAt(L, code, c, b, Labels(b), here, body0) && Laid(L, code, b, body0, here + Len(L, s), cont)
    case Labelled(_, b) => Laid(L, code, b, here, brk, cont)
  }
}
