/** What a statement being placed and executed means for its parts. Placement and
    execution are recursive over the whole statement language; here each is
    unfolded one statement at a time, so that the proofs about running code only
    see the parts they need. */
module CcStmtParts {
  import opened Options
  import opened RvMachine
  import opened CcSource
  import opened CcCode
  import opened CcStmt

  /** what stays the same throughout a function */
  datatype Ctx = Ctx(L: ExprLang, code: Code, lay: Layout, n: nat)

  /** the words of a statement, and where break and continue go */
  datatype Span = Span(here: int, end: int, brk: int, cont: int)

  ghost predicate JobAt(C: Ctx, s: Stmt, p: Span, q: bool) {
    OkS(C.L, s, C.lay, C.n, true, true) && Laid(C.L, C.code, s, p.here, p.brk, p.cont) && p.end == p.here + Len(C.L, s)
  }

  /** s is well formed and laid out at p */
  ghost predicate Job(C: Ctx, s: Stmt, p: Span) { forall q {:trigger JobAt(C, s, p, q)} :: JobAt(C, s, p, q) }

  ghost predicate TripAt(C: Ctx, s: Stmt, at: Option<Label>, p: Span, w: int, env: Env, fuel: nat, r: (Outcome, Env),
        q: bool)
  {
    Has(s, at) && w == p.here + EntryPos(C.L, s, at) && ExecS(C.L, s, at, env, fuel) == r
  }

  /** entered at its start or at a label, which is word w, s ends as r says */
  ghost predicate Trip(C: Ctx, s: Stmt, at: Option<Label>, p: Span, w: int, env: Env, fuel: nat, r: (Outcome, Env)) {
    forall q {:trigger TripAt(C, s, at, p, w, env, fuel, r, q)} :: TripAt(C, s, at, p, w, env, fuel, r, q)
  }

  lemma JobIs(C: Ctx, s: Stmt, p: Span)
    requires OkS(C.L, s, C.lay, C.n, true, true) && Laid(C.L, C.code, s, p.here, p.brk, p.cont)
    requires p.end == p.here + Len(C.L, s)
    ensures Job(C, s, p)
  {
    forall q {:trigger JobAt(C, s, p, q)} ensures JobAt(C, s, p, q) {}
  }

  lemma JobHas(C: Ctx, s: Stmt, p: Span)
    requires Job(C, s, p)
    ensures OkS(C.L, s, C.lay, C.n, true, true) && Laid(C.L, C.code, s, p.here, p.brk, p.cont)
    ensures p.end == p.here + Len(C.L, s)
  {
    assert JobAt(C, s, p, true);
  }

  lemma TripIs(C: Ctx, s: Stmt, at: Option<Label>, p: Span, w: int, env: Env, fuel: nat, r: (Outcome, Env))
    requires Has(s, at) && w == p.here + EntryPos(C.L, s, at) && ExecS(C.L, s, at, env, fuel) == r
    ensures Trip(C, s, at, p, w, env, fuel, r)
  {
    forall q {:trigger TripAt(C, s, at, p, w, env, fuel, r, q)} ensures TripAt(C, s, at, p, w, env, fuel, r, q) {}
  }

  lemma TripHas(C: Ctx, s: Stmt, at: Option<Label>, p: Span, w: int, env: Env, fuel: nat, r: (Outcome, Env))
    requires Trip(C, s, at, p, w, env, fuel, r)
    ensures Has(s, at) && w == p.here + EntryPos(C.L, s, at) && ExecS(C.L, s, at, env, fuel) == r
  {
    assert TripAt(C, s, at, p, w, env, fuel, r, true);
  }

  // ----- simple statements -----

  predicate Simple(s: Stmt) { s.Skip? || s.ExprS? || s.Break? || s.Continue? }

  lemma SimpleParts(C: Ctx, s: Stmt, at: Option<Label>, p: Span, w: int, env: Env, fuel: nat, r: (Outcome, Env))
    requires Simple(s) && Job(C, s, p) && Trip(C, s, at, p, w, env, fuel, r)
    ensures w == p.here
    ensures
      match s
      case Skip => p.end == w && r == (Normal, env)
      case ExprS(e) =>
        && C.L.ok(e, C.lay, C.n) && Place(C.code, w, C.L.comp(e)) && p.end == w + |C.L.comp(e)|
        && r == (Normal, C.L.eval(e, env).1)
      case Break => Place(C.code, w, [Jal(X0, 4 * (p.brk - w))]) && r == (Brk, env)
      case Continue => Place(C.code, w, [Jal(X0, 4 * (p.cont - w))]) && r == (Cont, env)
      case _ => true
  {
    JobHas(C, s, p);
    TripHas(C, s, at, p, w, env, fuel, r);
  }

  lemma ReturnParts(C: Ctx, s: Stmt, at: Option<Label>, p: Span, w: int, env: Env, fuel: nat, r: (Outcome, Env))
    requires s.Return? && Job(C, s, p) && Trip(C, s, at, p, w, env, fuel, r)
    ensures w == p.here && OkOpt(C.L, s.value, C.lay, C.n)
    ensures Place(C.code, w, ReturnValueCode(C.L, s.value) + EpilogueCode())
    ensures
      var (v, env1) := if s.value.Some? then C.L.eval(s.value.value, env) else (0, env);
      r == (Ret(v), env1)
  {
    JobHas(C, s, p);
    TripHas(C, s, at, p, w, env, fuel, r);
  }

  lemma LabelledParts(C: Ctx, s: Stmt, at: Option<Label>, p: Span, w: int, env: Env, fuel: nat, r: (Outcome, Env))
    returns (at': Option<Label>)
    requires s.Labelled? && Job(C, s, p) && Trip(C, s, at, p, w, env, fuel, r)
    ensures Job(C, s.body, p) && Trip(C, s.body, at', p, w, env, fuel, r)
  {
    at' := if at == Some(s.l) then None else at;
    JobHas(C, s, p);
    TripHas(C, s, at, p, w, env, fuel, r);
    JobIs(C, s.body, p);
    TripIs(C, s.body, at', p, w, env, fuel, r);
  }

  // ----- sequences -----

  lemma SeqJobs(C: Ctx, s: Stmt, p: Span) returns (mid: int)
    requires s.Seq? && Job(C, s, p)
    ensures mid == p.here + Len(C.L, s.fst) && Job(C, s.fst, p.(end := mid)) && Job(C, s.snd, p.(here := mid))
  {
    mid := p.here + Len(C.L, s.fst);
    JobHas(C, s, p);
    JobIs(C, s.fst, p.(end := mid));
    JobIs(C, s.snd, p.(here := mid));
  }

  /** entered in the first part, which ends as ra says, or in the second */
  lemma SeqTrips(C: Ctx, s: Stmt, at: Option<Label>, p: Span, mid: int, w: int, env: Env, fuel: nat, r: (Outcome, Env))
    returns (first: bool, ra: (Outcome, Env))
    requires s.Seq? && mid == p.here + Len(C.L, s.fst) && Trip(C, s, at, p, w, env, fuel, r)
    ensures !first ==> Trip(C, s.snd, at, p.(here := mid), w, env, fuel, r)
    ensures first ==> Trip(C, s.fst, at, p.(end := mid), w, env, fuel, ra)
    ensures first && ra.0.Normal? ==> Trip(C, s.snd, None, p.(here := mid), mid, ra.1, fuel, r)
    ensures first && !ra.0.Normal? ==> ra == r
  {
    TripHas(C, s, at, p, w, env, fuel, r);
    first, ra := Has(s.fst, at), r;
    if first {
      ra := ExecS(C.L, s.fst, at, env, fuel);
      TripIs(C, s.fst, at, p.(end := mid), w, env, fuel, ra);
      if ra.0.Normal? { TripIs(C, s.snd, None, p.(here := mid), mid, ra.1, fuel, r); }
    } else {
      TripIs(C, s.snd, at, p.(here := mid), w, env, fuel, r);
    }
  }

  // ----- conditionals -----

  lemma IfThenJobs(C: Ctx, s: Stmt, p: Span) returns (t: Span)
    requires s.IfThen? && Job(C, s, p)
    ensures t == p.(here := p.here + |C.L.comp(s.c)| + 2) && Job(C, s.thn, t)
    ensures C.L.ok(s.c, C.lay, C.n) && Place(C.code, p.here, C.L.comp(s.c) + JumpIf(true, p.end - t.here + 1))
  {
    t := p.(here := p.here + |C.L.comp(s.c)| + 2);
    JobHas(C, s, p);
    JobIs(C, s.thn, t);
  }

  lemma IfThenTrips(C: Ctx, s: Stmt, at: Option<Label>, p: Span, t: Span, w: int, env: Env, fuel: nat,
        r: (Outcome, Env))
    requires s.IfThen? && t == p.(here := p.here + |C.L.comp(s.c)| + 2) && Trip(C, s, at, p, w, env, fuel, r)
    ensures at.Some? ==> Trip(C, s.thn, at, t, w, env, fuel, r)
    ensures
      var (v, env1) := C.L.eval(s.c, env);
      at.None? ==>
        w == p.here && if v != 0 then Trip(C, s.thn, None, t, t.here, env1, fuel, r) else r == (Normal, env1)
  {
    TripHas(C, s, at, p, w, env, fuel, r);
    var (v, env1) := C.L.eval(s.c, env);
    if at.Some? {
      TripIs(C, s.thn, at, t, w, env, fuel, r);
    } else if v != 0 {
      TripIs(C, s.thn, None, t, t.here, env1, fuel, r);
    }
  }

  /** the two arms: the first ends at the jump over the second */
  predicate Arms(C: Ctx, s: Stmt, p: Span, t: Span, f: Span)
    requires s.IfElse?
  {
    && t == Span(p.here + |C.L.comp(s.c)| + 2, p.here + |C.L.comp(s.c)| + 2 + Len(C.L, s.thn), p.brk, p.cont)
    && f == p.(here := t.end + 1)
  }

  lemma IfElseJobs(C: Ctx, s: Stmt, p: Span) returns (t: Span, f: Span)
    requires s.IfElse? && Job(C, s, p)
    ensures Arms(C, s, p, t, f) && Job(C, s.thn, t) && Job(C, s.els, f) && C.L.ok(s.c, C.lay, C.n)
    ensures t.here == p.here + |C.L.comp(s.c)| + 2 && t.brk == p.brk && t.cont == p.cont && f == p.(here := t.end + 1)
    ensures Place(C.code, p.here, C.L.comp(s.c) + JumpIf(true, f.here - t.here + 1))
    ensures Place(C.code, t.end, [Jal(X0, 4 * (p.end - t.end))])
  {
    var then0 := p.here + |C.L.comp(s.c)| + 2;
    t := Span(then0, then0 + Len(C.L, s.thn), p.brk, p.cont);
    f := p.(here := t.end + 1);
    JobHas(C, s, p);
    JobIs(C, s.thn, t);
    JobIs(C, s.els, f);
  }

  /** which arm is entered, at which label, with which locals */
  lemma IfElseTrips(C: Ctx, s: Stmt, at: Option<Label>, p: Span, t: Span, f: Span, w: int, env: Env, fuel: nat,
        r: (Outcome, Env))
    returns (first: bool)
    requires s.IfElse? && Arms(C, s, p, t, f) && Trip(C, s, at, p, w, env, fuel, r)
    ensures at.Some? && first ==> Trip(C, s.thn, at, t, w, env, fuel, r)
    ensures at.Some? && !first ==> Trip(C, s.els, at, f, w, env, fuel, r)
    ensures
      var (v, env1) := C.L.eval(s.c, env);
      at.None? ==>
        && w == p.here && first == (v != 0)
        && if first then Trip(C, s.thn, None, t, t.here, env1, fuel, r)
           else Trip(C, s.els, None, f, f.here, env1, fuel, r)
  {
    TripHas(C, s, at, p, w, env, fuel, r);
    var (v, env1) := C.L.eval(s.c, env);
    if at.Some? {
      first := Has(s.thn, at);
      if first { TripIs(C, s.thn, at, t, w, env, fuel, r); } else { TripIs(C, s.els, at, f, w, env, fuel, r); }
    } else {
      first := v != 0;
      if first {
        TripIs(C, s.thn, None, t, t.here, env1, fuel, r);
      } else {
        TripIs(C, s.els, None, f, f.here, env1, fuel, r);
      }
    }
  }

  // ----- loops -----

  /** the body of a loop: break goes behind it, continue to the head or the step */
  function BodySpan(C: Ctx, s: Stmt, p: Span): Span
    requires s.Loop?
  {
    var body0 := p.here + TestLen(C.L, s.cond);
    var step0 := body0 + Len(C.L, s.body);
    Span(body0, step0, p.end, if s.top then p.here else step0)
  }

  lemma LoopJobs(C: Ctx, s: Stmt, p: Span) returns (b: Span)
    requires s.Loop? && Job(C, s, p)
    ensures b == BodySpan(C, s, p) && Job(C, s.body, b)
    ensures b.here == p.here + TestLen(C.L, s.cond) && b.brk == p.end && b.cont == if s.top then p.here else b.end
    ensures OkOpt(C.L, s.cond, C.lay, C.n) && OkOpt(C.L, s.inc, C.lay, C.n) && (s.top ==> s.inc.None?)
    ensures
      s.cond.Some? ==> Place(C.code, p.here, C.L.comp(s.cond.value) + JumpIf(true, p.end - b.here + 1))
    ensures Place(C.code, b.end, OptCode(C.L, s.inc))
    ensures
      var j := b.end + |OptCode(C.L, s.inc)|;
      p.end == j + 1 && Place(C.code, j, [Jal(X0, 4 * (p.here - j))])
  {
    b := BodySpan(C, s, p);
    JobHas(C, s, p);
    JobIs(C, s.body, b);
  }

  ghost predicate NextAt(C: Ctx, s: Stmt, rb: (Outcome, Env), fuel: nat, r: (Outcome, Env), q: bool) {
    (s.Loop? || s.Do?) && Again(C.L, s, rb, fuel) == r
  }

  /** the body having ended as rb says, the loop ends as r says */
  ghost predicate Next(C: Ctx, s: Stmt, rb: (Outcome, Env), fuel: nat, r: (Outcome, Env)) {
    forall q {:trigger NextAt(C, s, rb, fuel, r, q)} :: NextAt(C, s, rb, fuel, r, q)
  }

  lemma NextIs(C: Ctx, s: Stmt, rb: (Outcome, Env), fuel: nat, r: (Outcome, Env))
    requires (s.Loop? || s.Do?) && Again(C.L, s, rb, fuel) == r
    ensures Next(C, s, rb, fuel, r)
  {
    forall q {:trigger NextAt(C, s, rb, fuel, r, q)} ensures NextAt(C, s, rb, fuel, r, q) {}
  }

  lemma LoopTrips(C: Ctx, s: Stmt, at: Option<Label>, p: Span, b: Span, w: int, env: Env, fuel: nat, r: (Outcome, Env))
    returns (rb: (Outcome, Env))
    requires s.Loop? && b == BodySpan(C, s, p) && Trip(C, s, at, p, w, env, fuel, r)
    ensures at.Some? ==> Trip(C, s.body, at, b, w, env, fuel, rb) && Next(C, s, rb, fuel, r)
    ensures
      var (v, env1) := if s.cond.Some? then C.L.eval(s.cond.value, env) else (1, env);
      at.None? ==>
        && w == p.here
        && if v != 0 then Trip(C, s.body, None, b, b.here, env1, fuel, rb) && Next(C, s, rb, fuel, r)
           else r == (Normal, env1)
  {
    TripHas(C, s, at, p, w, env, fuel, r);
    var (v, env1) := if s.cond.Some? then C.L.eval(s.cond.value, env) else (1, env);
    rb := r;
    if at.Some? {
      rb := ExecS(C.L, s.body, at, env, fuel);
      TripIs(C, s.body, at, b, w, env, fuel, rb);
      NextIs(C, s, rb, fuel, r);
    } else if v != 0 {
      rb := ExecS(C.L, s.body, None, env1, fuel);
      TripIs(C, s.body, None, b, b.here, env1, fuel, rb);
      NextIs(C, s, rb, fuel, r);
    }
  }

  /** another round, if the budget allows */
  ghost predicate Round(C: Ctx, s: Stmt, p: Span, env: Env, fuel: nat, r: (Outcome, Env)) {
    if fuel == 0 then r == (Timeout, env) else Trip(C, s, None, p, p.here, env, fuel - 1, r)
  }

  lemma LoopNext(C: Ctx, s: Stmt, p: Span, rb: (Outcome, Env), fuel: nat, r: (Outcome, Env))
    requires s.Loop? && Next(C, s, rb, fuel, r)
    ensures
      match rb.0
      case Brk => r == (Normal, rb.1)
      case Ret(_) => r == rb
      case Timeout => r == rb
      case _ => Round(C, s, p, if s.inc.Some? then C.L.eval(s.inc.value, rb.1).1 else rb.1, fuel, r)
  {
    assert NextAt(C, s, rb, fuel, r, true);
    var env1 := if s.inc.Some? then C.L.eval(s.inc.value, rb.1).1 else rb.1;
    if (rb.0.Normal? || rb.0.Cont?) && fuel > 0 { TripIs(C, s, None, p, p.here, env1, fuel - 1, r); }
  }

  function DoSpan(C: Ctx, s: Stmt, p: Span): Span
    requires s.Do?
  {
    var test0 := p.here + Len(C.L, s.body);
    Span(p.here, test0, p.end, test0)
  }

  lemma DoJobs(C: Ctx, s: Stmt, p: Span) returns (b: Span)
    requires s.Do? && Job(C, s, p)
    ensures b == DoSpan(C, s, p) && Job(C, s.body, b) && C.L.ok(s.c, C.lay, C.n)
    ensures b.here == p.here && b.brk == p.end && b.cont == b.end && p.end == b.end + |C.L.comp(s.c)| + 2
    ensures Place(C.code, b.end, C.L.comp(s.c) + JumpIf(false, p.here - (p.end - 1)))
  {
    b := DoSpan(C, s, p);
    JobHas(C, s, p);
    JobIs(C, s.body, b);
  }

  lemma DoTrips(C: Ctx, s: Stmt, at: Option<Label>, p: Span, b: Span, w: int, env: Env, fuel: nat, r: (Outcome, Env))
    returns (rb: (Outcome, Env))
    requires s.Do? && b == DoSpan(C, s, p) && Trip(C, s, at, p, w, env, fuel, r)
    ensures Trip(C, s.body, at, b, w, env, fuel, rb) && Next(C, s, rb, fuel, r)
  {
    TripHas(C, s, at, p, w, env, fuel, r);
    rb := ExecS(C.L, s.body, at, env, fuel);
    TripIs(C, s.body, at, b, w, env, fuel, rb);
    NextIs(C, s, rb, fuel, r);
  }

  lemma DoNext(C: Ctx, s: Stmt, p: Span, rb: (Outcome, Env), fuel: nat, r: (Outcome, Env))
    requires s.Do? && Next(C, s, rb, fuel, r)
    ensures
      match rb.0
      case Brk => r == (Normal, rb.1)
      case Ret(_) => r == rb
      case Timeout => r == rb
      case _ =>
        var (v, env1) := C.L.eval(s.c, rb.1);
        if v == 0 then r == (Normal, env1) else Round(C, s, p, env1, fuel, r)
  {
    assert NextAt(C, s, rb, fuel, r, true);
    var (v, env1) := C.L.eval(s.c, rb.1);
    if (rb.0.Normal? || rb.0.Cont?) && v != 0 && fuel > 0 { TripIs(C, s, None, p, p.here, env1, fuel - 1, r); }
  }

  // ----- switch -----

  lemma SwitchJobs(C: Ctx, s: Stmt, p: Span) returns (b: Span)
    requires s.Switch? && Job(C, s, p)
    ensures b == Span(p.end - Len(C.L, s.body), p.end, p.end, p.cont) && Job(C, s.body, b)
    ensures C.L.ok(s.c, C.lay, C.n) && SwitchHeadAt(C.L, C.code, s.c, s.body, Labels(s.body), p.here, b.here)
  {
    b := Span(p.end - Len(C.L, s.body), p.end, p.end, p.cont);
    JobHas(C, s, p);
    JobIs(C, s.body, b);
  }

  /** the word the dispatch of a switch jumps to */
  function Chosen(L: ExprLang, b: Stmt, v: int, body0: int): int {
    var l := Select(b, v);
    if l.Some? then body0 + Pos(L, b, l.value) else body0 + Len(L, b)
  }

  lemma SwitchTrips(C: Ctx, s: Stmt, at: Option<Label>, p: Span, b: Span, w: int, env: Env, fuel: nat,
        r: (Outcome, Env))
    returns (rb: (Outcome, Env))
    requires s.Switch? && b == Span(p.end - Len(C.L, s.body), p.end, p.end, p.cont)
    requires Trip(C, s, at, p, w, env, fuel, r)
    ensures w == p.here
    ensures
      var (v, env1) := C.L.eval(s.c, env);
      var l, to := Select(s.body, v), Chosen(C.L, s.body, v, b.here);
      if l.None? then to == p.end && r == (Normal, env1)
      else Trip(C, s.body, l, b, to, env1, fuel, rb) && r == (if rb.0.Brk? then Normal else rb.0, rb.1)
  {
    TripHas(C, s, at, p, w, env, fuel, r);
    var (v, env1) := C.L.eval(s.c, env);
    var l := Select(s.body, v);
    rb := r;
    if l.Some? {
      rb := ExecS(C.L, s.body, l, env1, fuel);
      TripIs(C, s.body, l, b, Chosen(C.L, s.body, v, b.here), env1, fuel, rb);
    }
  }
}
