/** gen_function: prologue, body, implicit return, patching; and what the
    resulting machine words do when they are called. */
module CcGenFunction {
  import opened Options
  import opened RvMachine
  import opened RvEncode
  import opened CcMacros
  import opened CcCode
  import opened CcStmt
  import opened CcStmtProof
  import CcFunction
  import opened CcBuffer
  import opened CcLaid
  import opened CcEmitter
  import opened CcGenExpr
  import opened CcGenStmt
  import opened CcUnique

  type Function = CcFunction.Function

  method PutOpen(g: Emitter, f: nat)
    requires g.Valid()
    modifies g
    ensures g.Valid() && Emitted(old(g.b), g.b, CcFunction.OpenCode(f)) && g.curBreak == old(g.curBreak)
    ensures g.curCont == old(g.curCont)
  {
    ghost var b0 := g.b;
    var i3, i4 := Store(Double, RA, S0, -8), Store(Double, T0, S0, -16);
    g.PutAddi(T0, S0, 0);
    ghost var b1 := g.b;
    g.PutAddi(SP, SP, 0 - f);
    ghost var b2 := g.b;
    g.PutAddi(S0, SP, f);
    ghost var b3 := g.b;
    g.Put(i3);
    ghost var b4 := g.b;
    g.Put(i4);
    EmittedTrans(b3, b4, g.b, [i3], [i4]);
    EmittedThree(b1, b2, b3, g.b, Addi(SP, SP, 0 - f), Addi(S0, SP, f), [i3] + [i4]);
    EmittedTrans(b0, b1, g.b, Mv(T0, S0), Addi(SP, SP, 0 - f) + (Addi(S0, SP, f) + ([i3] + [i4])));
  }

  /** storing the argument registers */
  method PutParams(g: Emitter, n: nat)
    requires g.Valid() && n <= 8
    modifies g
    ensures g.Valid() && Emitted(old(g.b), g.b, CcFunction.ParamsCode(0, n)) && g.curBreak == old(g.curBreak)
    ensures g.curCont == old(g.curCont)
  {
    ghost var b0 := g.b;
    ghost var done, full := [], CcFunction.ParamsCode(0, n);
    EmittedNothing(b0);
    for k := 0 to n
      invariant g.Valid() && Emitted(b0, g.b, done) && full == done + CcFunction.ParamsCode(k, n)
      invariant g.curBreak == old(g.curBreak) && g.curCont == old(g.curCont)
    {
      ghost var b1, one := g.b, CcFunction.ParamCode(k);
      PutParam(g, k);
      EmittedTrans(b0, b1, g.b, done, one);
      ParamsStep(full, done, k, n);
      done := done + one;
    }
    assert done + [] == done;
  }

  lemma ParamsStep(full: seq<Instr>, done: seq<Instr>, k: nat, n: nat)
    requires k < n && full == done + CcFunction.ParamsCode(k, n)
    ensures full == (done + CcFunction.ParamCode(k)) + CcFunction.ParamsCode(k + 1, n)
  {
  }

  method PutParam(g: Emitter, k: nat)
    requires g.Valid() && k < 8
    modifies g
    ensures g.Valid() && Emitted(old(g.b), g.b, CcFunction.ParamCode(k)) && g.curBreak == old(g.curBreak)
    ensures g.curCont == old(g.curCont)
  {
    ghost var b0 := g.b;
    var off: int, st := CcFunction.Offset(k), Store(Double, A0 + k, T0, 0);
    g.PutAddi(T0, S0, 0 - off);
    ghost var b1 := g.b;
    g.Put(st);
    EmittedTrans(b0, b1, g.b, Addi(T0, S0, 0 - off), [st]);
  }

  /** the argument registers of a variadic function */
  method PutVa(g: Emitter, fn: Function)
    requires g.Valid() && fn.params <= 8
    modifies g
    ensures g.Valid() && Emitted(old(g.b), g.b, CcFunction.VaCode(fn)) && g.curBreak == old(g.curBreak)
    ensures g.curCont == old(g.curCont)
  {
    ghost var b0 := g.b;
    EmittedNothing(b0);
    if !fn.variadic { return; }
    var off: int := CcFunction.VaOff(fn);
    g.PutAddi(T0, S0, 0 - off);
    ghost var done, full := Addi(T0, S0, 0 - off), CcFunction.VaCode(fn);
    for k := 0 to 8
      invariant g.Valid() && Emitted(b0, g.b, done) && full == done + CcFunction.VaStores(k, CcFunction.VA_WORDS)
      invariant g.curBreak == old(g.curBreak) && g.curCont == old(g.curCont)
    {
      ghost var b1 := g.b;
      var st := Store(Double, A0 + k, T0, 8 * k);
      g.Put(st);
      EmittedTrans(b0, b1, g.b, done, [st]);
      VaStep(full, done, k);
      done := done + [st];
    }
    assert done + [] == done;
  }

  lemma VaStep(full: seq<Instr>, done: seq<Instr>, k: nat)
    requires k < 8 && full == done + CcFunction.VaStores(k, CcFunction.VA_WORDS)
    ensures full == (done + [Store(Double, A0 + k, T0, 8 * k)]) + CcFunction.VaStores(k + 1, CcFunction.VA_WORDS)
  {
  }

  method PutPrologue(g: Emitter, fn: Function)
    requires g.Valid() && fn.params <= 8
    modifies g
    ensures g.Valid() && Emitted(old(g.b), g.b, CcFunction.PrologueCode(fn)) && g.curBreak == old(g.curBreak)
    ensures g.curCont == old(g.curCont)
  {
    ghost var b0 := g.b;
    var f := CcFunction.FrameOf(fn);
    ghost var open, ps, va := CcFunction.OpenCode(f), CcFunction.ParamsCode(0, fn.params), CcFunction.VaCode(fn);
    PutOpen(g, f);
    ghost var b1 := g.b;
    PutParams(g, fn.params);
    ghost var b2 := g.b;
    PutVa(g, fn);
    EmittedTrans(b1, b2, g.b, ps, va);
    EmittedTrans(b0, b1, g.b, open, ps + va);
  }

  /** falling off the end: return 0 */
  method PutEnd(g: Emitter)
    requires g.Valid()
    modifies g
    ensures g.Valid() && Emitted(old(g.b), g.b, Li(A0, 0) + EpilogueCode()) && g.curBreak == old(g.curBreak)
    ensures g.curCont == old(g.curCont)
  {
    ghost var b0 := g.b;
    g.PutLi(A0, 0);
    ghost var b1 := g.b;
    PutEpilogue(g);
    EmittedTrans(b0, b1, g.b, Li(A0, 0), EpilogueCode());
  }

  /** wherever open labels end up, the function is laid out in the final image */
  lemma FunctionLaid(L: ExprLang, b0: Buf, b1: Buf, b2: Buf, b3: Buf, fn: Function, F: seq<int>, code: Code)
    requires Emitted(b0, b1, CcFunction.PrologueCode(fn)) && StmtEmitted(L, b1, b2, fn.body, map[], -1, -1)
    requires Emitted(b2, b3, Li(A0, 0) + EpilogueCode())
    requires Extends(b3, F) && Continues(Image(b3, F), code)
    ensures CcFunction.LaidFunction(L, code, fn, |b0.ins|)
  {
    var img, body0 := Image(b3, F), |b1.ins|;
    GrowsTrans(b1, b2, b3);
    CodeKept(b1, b3, |b0.ins|, CcFunction.PrologueCode(fn));
    CodePlaced(b3, F, |b0.ins|, CcFunction.PrologueCode(fn));
    PlaceSub(img, code, |b0.ins|, CcFunction.PrologueCode(fn));
    StmtKept(L, b2, b3, fn.body, body0, -1, -1);
    assert LaidFor(L, b3, F, fn.body, body0, -1, -1);
    LaidSub(L, img, code, fn.body, body0, 0, 0);
    CodePlaced(b3, F, |b2.ins|, Li(A0, 0) + EpilogueCode());
    PlaceSub(img, code, |b2.ins|, Li(A0, 0) + EpilogueCode());
  }

  /** no label of the function is left open, so only distance can stop the patching */
  lemma FunctionPatches(L: ExprLang, b0: Buf, b1: Buf, b2: Buf, b3: Buf, fn: Function)
    requires Emitted(b0, b1, CcFunction.PrologueCode(fn)) && StmtEmitted(L, b1, b2, fn.body, map[], -1, -1)
    requires Emitted(b2, b3, Li(A0, 0) + EpilogueCode())
    requires b0.jump == map[] && 4 * (|b0.ins| + CodeLen(L, fn)) < 0x10_0000
    ensures Patchable(b3)
  {
    forall F {:trigger LaidAs(L, b3, fn, |b0.ins|, F)} | Extends(b3, F) ensures LaidAs(L, b3, fn, |b0.ins|, F) {
      ContinuesSelf(Image(b3, F));
      FunctionLaid(L, b0, b1, b2, b3, fn, F, Image(b3, F));
    }
    GrowsTrans(b0, b1, b2);
    GrowsTrans(b0, b2, b3);
    forall k | k in b3.jump ensures |b0.ins| <= k { assert k < |b0.ins| ==> KeptWord(b0, b3, k); }
    SmallPatches(L, b3, fn, |b0.ins|);
  }

  lemma ContinuesSelf(c: Code)
    ensures Continues(c, c)
  {
    forall w {:trigger SubAt(c, c, w)} ensures SubAt(c, c, w) {}
  }

  lemma ExtendsSelf(b: Buf)
    ensures Extends(b, b.pos)
  {
    forall l: nat {:trigger AgreesAt(b, b.pos, l)} | l < |b.pos| ensures AgreesAt(b, b.pos, l) {}
  }

  lemma FinalSub(b: Buf, ins: seq<Instr>, base: int)
    requires |ins| == |b.ins| && forall k: nat {:trigger ins[k]} | k < |ins| :: ins[k] == Final(b, b.pos, k)
    ensures Continues(Image(b, b.pos), Code(base, ins))
  {
    var c, d := Image(b, b.pos), Code(base, ins);
    forall w {:trigger SubAt(c, d, w)} ensures SubAt(c, d, w) {}
  }

  /** patching a function leaves the code before it alone */
  lemma EarlierStays(b0: Buf, b1: Buf, b2: Buf, b3: Buf, ins: seq<Instr>)
    requires Grows(b0, b1) && Grows(b1, b2) && Grows(b2, b3) && b0.jump == map[]
    requires |ins| == |b3.ins| && forall k: nat {:trigger ins[k]} | k < |ins| :: ins[k] == Final(b3, b3.pos, k)
    ensures b0.ins <= ins
  {
    GrowsTrans(b0, b1, b2);
    GrowsTrans(b0, b2, b3);
    forall k: nat | k < |b0.ins| ensures ins[k] == b0.ins[k] { assert KeptWord(b0, b3, k); }
  }

  ghost predicate NoLabels(s: Stmt) { forall l :: !Bears(s, l) }

  /** gen_function. It fails only for a stray break or continue, or when a jump
      spans a mebibyte; otherwise the buffer holds the function at word |old|. */
  method GenFunction(g: Emitter, ghost L: ExprLang, fn: Function) returns (ok: bool, ghost bp: Buf)
    requires g.Valid() && Matches(L) && Unique(fn.body) && NoLabels(fn.body) && fn.params <= 8
    requires g.curBreak == g.curCont == -1
    modifies g
    ensures ok <==> Targets(fn.body, false, false) && Patchable(bp)
    ensures Targets(fn.body, false, false) && old(g.b).jump == map[] ==>
      (4 * (|old(g.b).ins| + CodeLen(L, fn)) < 0x10_0000 ==> ok)
    ensures ok ==> |g.b.ins| == |old(g.b).ins| + CodeLen(L, fn)
    ensures ok ==> g.Valid() && g.curBreak == g.curCont == -1
    ensures ok ==> forall base: int :: CcFunction.LaidFunction(L, Code(base, g.b.ins), fn, |old(g.b).ins|)
    ensures ok && old(g.b).jump == map[] ==> g.b.jump == map[] && old(g.b).ins <= g.b.ins
  {
    ghost var b0 := g.b;
    bp := b0;
    PutPrologue(g, fn);
    ghost var b1 := g.b;
    forall l {:trigger LabelReady(b1, fn.body, map[], l)} ensures LabelReady(b1, fn.body, map[], l) {}
    ok := GenStmt(g, L, fn.body, map[]);
    if ok {
      ghost var b2 := g.b;
      PutEnd(g);
      bp := g.b;
      if b0.jump == map[] && 4 * (|b0.ins| + CodeLen(L, fn)) < 0x10_0000 { FunctionPatches(L, b0, b1, b2, bp, fn); }
      ok := g.PatchFixups();
      if ok {
        forall base: int ensures CcFunction.LaidFunction(L, Code(base, g.b.ins), fn, |b0.ins|) {
          FinalSub(bp, g.b.ins, base);
          ExtendsSelf(bp);
          FunctionLaid(L, b0, b1, b2, bp, fn, bp.pos, Code(base, g.b.ins));
        }
        if b0.jump == map[] { EarlierStays(b0, b1, b2, bp, g.b.ins); }
      }
    }
  }

  /** each word decodes to the instruction */
  ghost predicate Loads(words: seq<nat>, ins: seq<Instr>) {
    |words| == |ins| && forall k: nat {:trigger words[k]} | k < |words| :: Decode(words[k]) == Some(ins[k])
  }

  lemma WordsDecode(words: seq<nat>, ins: seq<Instr>)
    requires Encoded(words, ins)
    ensures Loads(words, ins)
  {
    forall k: nat {:trigger words[k]} | k < |words| ensures Decode(words[k]) == Some(ins[k]) {
      assert EncodedAt(words, ins, k);
      RoundTrip(ins[k]);
    }
  }

  // ----- from source to running words -----

  predicate AllDecode(words: seq<nat>) { forall k: nat {:trigger words[k]} | k < |words| :: Decode(words[k]).Some? }

  /** the words in memory at an address, as the machine sees them */
  ghost function Loaded(base: int, words: seq<nat>): Code
    requires AllDecode(words)
  {
    Code(base, seq(|words|, k requires 0 <= k < |words| => Decode(words[k]).value))
  }

  lemma CcMatches()
    ensures Matches(Cc())
  {
    forall e {:trigger MatchesAt(Cc(), e)} ensures MatchesAt(Cc(), e) {}
  }

  /** The compiled words compute what the source says, wherever they are loaded,
      whatever word the function starts at and whatever the caller's registers and
      memory are. */
  lemma CompiledCorrect(words: seq<nat>, base: int, fn: Function, here: nat, m: Machine, n: nat, fuel: nat)
    returns (m': Machine)
    requires AllDecode(words) && CcFunction.LaidFunction(Cc(), Loaded(base, words), fn, here)
    requires CcFunction.OkFunction(Cc(), fn, n)
    requires RvMachine.Ok(m) && CcFunction.StackOk(fn, m, n) && m.pc == base + 4 * here
    ensures
      var o := ExecS(Cc(), fn.body, None, CcFunction.EntryEnv(fn, m), fuel).0;
      CcFunction.CallDone(Loaded(base, words), m, m', o, fuel)
  {
    var code := Loaded(base, words);
    CcSound(code);
    m' := CcFunction.FunctionCorrect(Cc(), code, fn, here, m, n, fuel);
  }

  /** A function that never returns in the source keeps the machine running for
      any number of steps. */
  lemma LoopsForever(words: seq<nat>, base: int, fn: Function, here: nat, m: Machine, n: nat, k: nat)
    requires AllDecode(words) && CcFunction.LaidFunction(Cc(), Loaded(base, words), fn, here)
    requires CcFunction.OkFunction(Cc(), fn, n)
    requires RvMachine.Ok(m) && CcFunction.StackOk(fn, m, n) && m.pc == base + 4 * here
    requires forall fuel: nat :: ExecS(Cc(), fn.body, None, CcFunction.EntryEnv(fn, m), fuel).0.Timeout?
    ensures RunsFor(Loaded(base, words), m, k)
  {
    var m' := CompiledCorrect(words, base, fn, here, m, n, k);
  }

  /** called in m at word `here`, the words behave as the source with this loop
      budget says */
  ghost predicate RunsAs(words: seq<nat>, fn: Function, here: nat, m: Machine, fuel: nat)
    requires AllDecode(words) && RvMachine.Ok(m) && fn.params <= 8
  {
    CallEnds(Loaded(m.pc - 4 * here, words), m, ExecS(Cc(), fn.body, None, CcFunction.EntryEnv(fn, m), fuel).0, fuel)
  }

  ghost predicate CallEnds(code: Code, m: Machine, o: Outcome, fuel: nat) {
    exists m' :: CcFunction.CallDone(code, m, m', o, fuel)
  }

  /** in every state in which the function may be called */
  ghost predicate Implements(words: seq<nat>, fn: Function, here: nat) {
    AllDecode(words) &&
    forall m, n: nat, fuel: nat {:trigger CcFunction.StackOk(fn, m, n), RunsAs(words, fn, here, m, fuel)}
      | CcFunction.OkFunction(Cc(), fn, n) && RvMachine.Ok(m) && CcFunction.StackOk(fn, m, n) ::
        RunsAs(words, fn, here, m, fuel)
  }

  lemma CompiledImplements(words: seq<nat>, fn: Function, here: nat)
    requires AllDecode(words) && forall base: int :: CcFunction.LaidFunction(Cc(), Loaded(base, words), fn, here)
    ensures Implements(words, fn, here)
  {
    forall m, n: nat, fuel: nat {:trigger CcFunction.StackOk(fn, m, n), RunsAs(words, fn, here, m, fuel)}
      | CcFunction.OkFunction(Cc(), fn, n) && RvMachine.Ok(m) && CcFunction.StackOk(fn, m, n)
      ensures RunsAs(words, fn, here, m, fuel)
    {
      OneCall(words, fn, here, m, n, fuel);
    }
  }

  lemma OneCall(words: seq<nat>, fn: Function, here: nat, m: Machine, n: nat, fuel: nat)
    requires AllDecode(words) && CcFunction.LaidFunction(Cc(), Loaded(m.pc - 4 * here, words), fn, here)
    requires CcFunction.OkFunction(Cc(), fn, n) && RvMachine.Ok(m) && CcFunction.StackOk(fn, m, n)
    ensures RunsAs(words, fn, here, m, fuel)
  {
    var m' := CompiledCorrect(words, m.pc - 4 * here, fn, here, m, n, fuel);
    Ended(Loaded(m.pc - 4 * here, words), m, m', ExecS(Cc(), fn.body, None, CcFunction.EntryEnv(fn, m), fuel).0, fuel);
  }

  lemma Ended(code: Code, m: Machine, m': Machine, o: Outcome, fuel: nat)
    requires CcFunction.CallDone(code, m, m', o, fuel)
    ensures CallEnds(code, m, o, fuel)
  {
  }

  /** what the parser leaves to the generator: cases inside a switch and not twice */
  ghost predicate Parsed(fn: Function) { Unique(fn.body) && NoLabels(fn.body) && fn.params <= 8 }

  /** the words of all functions */
  function UnitLen(fns: seq<Function>): nat {
    if fns == [] then 0 else UnitLen(fns[..|fns| - 1]) + CodeLen(Cc(), fns[|fns| - 1])
  }

  /** where function i starts */
  function StartOf(fns: seq<Function>, i: nat): nat
    requires i <= |fns|
  {
    UnitLen(fns[..i])
  }

  lemma {:induction false} StartInside(fns: seq<Function>, i: nat)
    requires i < |fns|
    ensures StartOf(fns, i + 1) == StartOf(fns, i) + CodeLen(Cc(), fns[i]) <= UnitLen(fns)
    decreases |fns|
  {
    assert fns[..i + 1][..i] == fns[..i] && fns[..i + 1][i] == fns[i];
    if i + 1 < |fns| {
      StartInside(fns[..|fns| - 1], i);
      assert fns[..|fns| - 1][..i + 1] == fns[..i + 1] && fns[..|fns| - 1][..i] == fns[..i];
    } else {
      assert fns[..i + 1] == fns;
    }
  }

  /** function i is laid out where it starts, whatever the load address */
  ghost predicate LaidAt(ins: seq<Instr>, fns: seq<Function>, i: nat)
    requires i < |fns|
  {
    forall base: int :: CcFunction.LaidFunction(Cc(), Code(base, ins), fns[i], StartOf(fns, i))
  }

  /** what has been laid out stays laid out when more code follows */
  lemma LaidStays(ins: seq<Instr>, ins': seq<Instr>, fns: seq<Function>, i: nat)
    requires i < |fns| && LaidAt(ins, fns, i) && ins <= ins'
    ensures LaidAt(ins', fns, i)
  {
    var fn, here := fns[i], StartOf(fns, i);
    forall base: int ensures CcFunction.LaidFunction(Cc(), Code(base, ins'), fn, here) {
      var c, d := Code(base, ins), Code(base, ins');
      assert CcFunction.LaidFunction(Cc(), c, fn, here);
      forall w {:trigger SubAt(c, d, w)} ensures SubAt(c, d, w) {}
      FunctionStays(c, d, fn, here);
    }
  }

  lemma FunctionStays(c: Code, d: Code, fn: Function, here: nat)
    requires Continues(c, d) && CcFunction.LaidFunction(Cc(), c, fn, here)
    ensures CcFunction.LaidFunction(Cc(), d, fn, here)
  {
    var body0 := here + |CcFunction.PrologueCode(fn)|;
    PlaceSub(c, d, here, CcFunction.PrologueCode(fn));
    LaidSub(Cc(), c, d, fn.body, body0, 0, 0);
    PlaceSub(c, d, body0 + Len(Cc(), fn.body), Li(A0, 0) + EpilogueCode());
  }

  lemma MoreLaid(ins: seq<Instr>, ins': seq<Instr>, fns: seq<Function>, i: nat)
    requires i < |fns| && ins <= ins' && LaidAt(ins', fns, i)
    requires forall j: nat {:trigger LaidAt(ins, fns, j)} | j < i :: LaidAt(ins, fns, j)
    ensures forall j: nat {:trigger LaidAt(ins', fns, j)} | j <= i :: LaidAt(ins', fns, j)
  {
    forall j: nat {:trigger LaidAt(ins', fns, j)} | j <= i ensures LaidAt(ins', fns, j) {
      if j < i { LaidStays(ins, ins', fns, j); }
    }
  }

  /** no stray break or continue in function i */
  ghost predicate TargetsAt(fns: seq<Function>, i: nat)
    requires i < |fns|
  {
    Targets(fns[i].body, false, false)
  }

  /** nor in any of the first n */
  ghost predicate TargetsIn(fns: seq<Function>, n: nat)
    requires n <= |fns|
  {
    forall i: nat {:trigger TargetsAt(fns, i)} | i < n :: TargetsAt(fns, i)
  }

  /** the first i functions are in the buffer */
  ghost predicate SoFar(g: Emitter, fns: seq<Function>, i: nat)
    reads g
    requires i <= |fns|
  {
    && g.Valid() && g.curBreak == g.curCont == -1 && g.b.jump == map[] && |g.b.ins| == StartOf(fns, i)
    && forall j: nat {:trigger LaidAt(g.b.ins, fns, j)} | j < i :: LaidAt(g.b.ins, fns, j)
  }

  method GenNext(g: Emitter, fns: seq<Function>, i: nat) returns (ok: bool)
    requires i < |fns| && SoFar(g, fns, i) && Parsed(fns[i])
    modifies g
    ensures ok ==> SoFar(g, fns, i + 1) && TargetsAt(fns, i)
    ensures TargetsAt(fns, i) && 4 * UnitLen(fns) < 0x10_0000 ==> ok
  {
    CcMatches();
    ghost var was := g.b.ins;
    ghost var bp;
    StartInside(fns, i);
    ok, bp := GenFunction(g, Cc(), fns[i]);
    if ok { MoreLaid(was, g.b.ins, fns, i); }
  }

  /** The functions of a translation unit, one after the other into one buffer. If
      none has a stray break or continue and their code is shorter than a mebibyte,
      all are accepted; and then every one of them, called where it starts, does what
      its source says. */
  method CompileUnit(fns: seq<Function>) returns (ok: bool, words: seq<nat>)
    requires forall i {:trigger Parsed(fns[i])} | 0 <= i < |fns| :: Parsed(fns[i])
    ensures TargetsIn(fns, |fns|) && 4 * UnitLen(fns) < 0x10_0000 ==> ok
    ensures ok ==> |words| == UnitLen(fns) && TargetsIn(fns, |fns|) && AllImplemented(words, fns)
  {
    var g := new Emitter();
    words := [];
    for i := 0 to |fns|
      invariant fresh(g) && SoFar(g, fns, i) && TargetsIn(fns, i)
    {
      assert Parsed(fns[i]);
      ok := GenNext(g, fns, i);
      TargetsMore(fns, i);
      if !ok { return; }
    }
    ok, words := true, g.words;
    Finished(g, fns);
  }

  lemma TargetsMore(fns: seq<Function>, i: nat)
    requires i < |fns|
    ensures TargetsIn(fns, i + 1) <==> TargetsIn(fns, i) && TargetsAt(fns, i)
    ensures TargetsIn(fns, |fns|) ==> TargetsAt(fns, i)
  {
  }

  /** the words decode, and every function is implemented where it starts */
  ghost predicate AllImplemented(words: seq<nat>, fns: seq<Function>) {
    && AllDecode(words)
    && forall i: nat {:trigger StartOf(fns, i)} | i < |fns| :: Implements(words, fns[i], StartOf(fns, i))
  }

  lemma Finished(g: Emitter, fns: seq<Function>)
    requires SoFar(g, fns, |fns|)
    ensures AllImplemented(g.words, fns) && |g.words| == UnitLen(fns)
  {
    assert fns[..|fns|] == fns;
    EmittedWords(g);
    forall i: nat | i < |fns| ensures Implements(g.words, fns[i], StartOf(fns, i)) {
      assert LaidAt(g.b.ins, fns, i);
      OneImplemented(g.words, g.b.ins, fns, i);
    }
  }

  lemma EmittedWords(g: Emitter)
    requires g.Valid()
    ensures Loads(g.words, g.b.ins) && AllDecode(g.words)
  {
    var words, ins := g.words, g.b.ins;
    forall k: nat {:trigger EncodedAt(words, ins, k)} | k < |words|
      ensures EncodedAt(words, ins, k)
    {
      assert g.WordOk(k);
    }
    WordsDecode(words, ins);
  }

  lemma OneImplemented(words: seq<nat>, ins: seq<Instr>, fns: seq<Function>, i: nat)
    requires i < |fns| && Loads(words, ins) && AllDecode(words) && LaidAt(ins, fns, i)
    ensures Implements(words, fns[i], StartOf(fns, i))
  {
    forall base: int ensures CcFunction.LaidFunction(Cc(), Loaded(base, words), fns[i], StartOf(fns, i)) {
      assert Loaded(base, words).ins == ins;
    }
    CompiledImplements(words, fns[i], StartOf(fns, i));
  }

  /** One function into an empty buffer. */
  method Compile(fn: Function) returns (ok: bool, words: seq<nat>)
    requires Parsed(fn)
    ensures Targets(fn.body, false, false) && 4 * CodeLen(Cc(), fn) < 0x10_0000 ==> ok
    ensures ok ==> AllDecode(words) && |words| == CodeLen(Cc(), fn) && Targets(fn.body, false, false)
    ensures ok ==> Implements(words, fn, 0)
  {
    StartInside([fn], 0);
    assert [fn][..0] == [] && [fn][..1] == [fn];
    ok, words := CompileUnit([fn]);
    assert TargetsIn([fn], 1) <==> TargetsAt([fn], 0);
    if ok { assert Implements(words, [fn][0], StartOf([fn], 0)); }
  }
}
