/** Placement determines the code: two images in which the same statement is laid
    out at the same word agree on every word of it. */
module CcUnique {
  import opened Options
  import opened RvMachine
  import opened CcMacros
  import opened CcSource
  import opened CcCode
  import opened CcStmt
  import opened CcFunction
  import opened CcBuffer
  import opened CcLaid
  import opened CcEmitter

  function WordAt(c: Code, k: int): Option<Instr> { Fetch(c, c.base + 4 * k) }

  lemma PlaceSame(c: Code, d: Code, w: int, seg: seq<Instr>, k: int)
    requires Place(c, w, seg) && Place(d, w, seg) && w <= k < w + |seg|
    ensures WordAt(c, k) == WordAt(d, k)
  {
    var i: nat := k - w;
    assert InsAt(c, c.base + 4 * w, seg, i) && InsAt(d, d.base + 4 * w, seg, i);
  }

  lemma {:induction false} CasesSame(L: ExprLang, c: Code, d: Code, b: Stmt, ls: seq<Label>, here: int, body0: int,
        k: int)
    requires LaidCases(L, c, b, ls, here, body0) && LaidCases(L, d, b, ls, here, body0)
    requires here <= k < here + DispatchLen(ls)
    ensures WordAt(c, k) == WordAt(d, k)
    decreases |ls|
  {
    var l, rest := ls[|ls| - 1], ls[..|ls| - 1];
    if l.DefaultL? {
      CasesSame(L, c, d, b, rest, here, body0, k);
    } else {
      var next := here + |Li(T0, l.v)| + 2;
      if k < next {
        PlaceSame(c, d, here, CaseCode(l.v, body0 + Pos(L, b, l), here), k);
      } else {
        CasesSame(L, c, d, b, rest, next, body0, k);
      }
    }
  }

  lemma HeadSame(L: ExprLang, c: Code, d: Code, e: Expr, b: Stmt, ls: seq<Label>, here: int, body0: int, k: int)
    requires SwitchHeadAt(L, c, e, b, ls, here, body0) && SwitchHeadAt(L, d, e, b, ls, here, body0) && here <= k < body0
    ensures WordAt(c, k) == WordAt(d, k)
  {
    var list0 := here + |L.comp(e)| + 1;
    if k < list0 {
      PlaceSame(c, d, here, L.comp(e) + Mv(A1, A0), k);
    } else if k < body0 - 1 {
      CasesSame(L, c, d, b, ls, list0, body0, k);
    } else {
      PlaceSame(c, d, body0 - 1, [Jal(X0, 4 * (Otherwise(L, b, body0) - (body0 - 1)))], k);
    }
  }

  /** k is one of the words of s */
  predicate Covers(L: ExprLang, s: Stmt, here: int, k: int) { here <= k < here + Len(L, s) }

  lemma {:induction false} LaidSame(L: ExprLang, c: Code, d: Code, s: Stmt, here: int, brk: int, cont: int, k: int)
    requires Laid(L, c, s, here, brk, cont) && Laid(L, d, s, here, brk, cont) && Covers(L, s, here, k)
    ensures WordAt(c, k) == WordAt(d, k)
    decreases s, 1
  {
    match s
    case Skip =>
    case ExprS(e) => PlaceSame(c, d, here, L.comp(e), k);
    case Seq(a, b) =>
      if k < here + Len(L, a) {
        LaidSame(L, c, d, a, here, brk, cont, k);
      } else {
        LaidSame(L, c, d, b, here + Len(L, a), brk, cont, k);
      }
    case IfThen(_, _) => IfThenSame(L, c, d, s, here, brk, cont, k);
    case Break => PlaceSame(c, d, here, [Jal(X0, 4 * (brk - here))], k);
    case Continue => PlaceSame(c, d, here, [Jal(X0, 4 * (cont - here))], k);
    case Return(v) => PlaceSame(c, d, here, ReturnValueCode(L, v) + EpilogueCode(), k);
    case Labelled(_, b) => LaidSame(L, c, d, b, here, brk, cont, k);
    case Do(_, _) => DoSame(L, c, d, s, here, brk, cont, k);
    case IfElse(_, _, _) => IfElseSame(L, c, d, s, here, brk, cont, k);
    case Loop(_, _, _, _) => LoopSame(L, c, d, s, here, brk, cont, k);
    case Switch(e, b) => SwitchSame(L, c, d, e, b, here, brk, cont, k);
  }

  lemma IfThenSame(L: ExprLang, c: Code, d: Code, s: Stmt, here: int, brk: int, cont: int, k: int)
    requires s.IfThen? && Laid(L, c, s, here, brk, cont) && Laid(L, d, s, here, brk, cont) && Covers(L, s, here, k)
    ensures WordAt(c, k) == WordAt(d, k)
    decreases s, 0
  {
    var then0 := here + |L.comp(s.c)| + 2;
    if k < then0 {
      PlaceSame(c, d, here, L.comp(s.c) + JumpIf(true, Len(L, s.thn) + 1), k);
    } else {
      LaidSame(L, c, d, s.thn, then0, brk, cont, k);
    }
  }

  lemma DoSame(L: ExprLang, c: Code, d: Code, s: Stmt, here: int, brk: int, cont: int, k: int)
    requires s.Do? && Laid(L, c, s, here, brk, cont) && Laid(L, d, s, here, brk, cont) && Covers(L, s, here, k)
    ensures WordAt(c, k) == WordAt(d, k)
    decreases s, 0
  {
    var test0, end := here + Len(L, s.body), here + Len(L, s);
    if k < test0 {
      LaidSame(L, c, d, s.body, here, end, test0, k);
    } else {
      PlaceSame(c, d, test0, L.comp(s.c) + JumpIf(false, here - (end - 1)), k);
    }
  }

  lemma IfElseSame(L: ExprLang, c: Code, d: Code, s: Stmt, here: int, brk: int, cont: int, k: int)
    requires s.IfElse? && Laid(L, c, s, here, brk, cont) && Laid(L, d, s, here, brk, cont) && Covers(L, s, here, k)
    ensures WordAt(c, k) == WordAt(d, k)
    decreases s, 0
  {
    var then0 := here + |L.comp(s.c)| + 2;
    var else0 := then0 + Len(L, s.thn) + 1;
    if k < then0 {
      PlaceSame(c, d, here, L.comp(s.c) + JumpIf(true, Len(L, s.thn) + 2), k);
    } else if k < else0 - 1 {
      LaidSame(L, c, d, s.thn, then0, brk, cont, k);
    } else if k < else0 {
      PlaceSame(c, d, else0 - 1, [Jal(X0, 4 * (Len(L, s.els) + 1))], k);
    } else {
      LaidSame(L, c, d, s.els, else0, brk, cont, k);
    }
  }

  lemma LoopSame(L: ExprLang, c: Code, d: Code, s: Stmt, here: int, brk: int, cont: int, k: int)
    requires s.Loop? && Laid(L, c, s, here, brk, cont) && Laid(L, d, s, here, brk, cont) && Covers(L, s, here, k)
    ensures WordAt(c, k) == WordAt(d, k)
    decreases s, 0
  {
    var body0 := here + TestLen(L, s.cond);
    var step0 := body0 + Len(L, s.body);
    var end := here + Len(L, s);
    if k < body0 {
      PlaceSame(c, d, here, L.comp(s.cond.value) + JumpIf(true, end - body0 + 1), k);
    } else if k < step0 {
      LaidSame(L, c, d, s.body, body0, end, if s.top then here else step0, k);
    } else if k < end - 1 {
      PlaceSame(c, d, step0, OptCode(L, s.inc), k);
    } else {
      PlaceSame(c, d, end - 1, [Jal(X0, 4 * (here - (end - 1)))], k);
    }
  }

  lemma SwitchSame(L: ExprLang, c: Code, d: Code, e: Expr, b: Stmt, here: int, brk: int, cont: int, k: int)
    requires Laid(L, c, Switch(e, b), here, brk, cont) && Laid(L, d, Switch(e, b), here, brk, cont)
    requires Covers(L, Switch(e, b), here, k)
    ensures WordAt(c, k) == WordAt(d, k)
    decreases b, 2
  {
    var body0, end := here + Len(L, Switch(e, b)) - Len(L, b), here + Len(L, Switch(e, b));
    SwitchOpen(L, c, e, b, here, body0, end, brk, cont);
    SwitchOpen(L, d, e, b, here, body0, end, brk, cont);
    if k < body0 {
      HeadSame(L, c, d, e, b, Labels(b), here, body0, k);
    } else {
      LaidSame(L, c, d, b, body0, end, cont, k);
    }
  }

  /** the words a function takes */
  function CodeLen(L: ExprLang, fn: Function): nat {
    |PrologueCode(fn)| + Len(L, fn.body) + |Li(A0, 0) + EpilogueCode()|
  }

  /** Being laid out leaves no freedom: it determines every word of a function. */
  lemma FunctionUnique(L: ExprLang, c: Code, d: Code, fn: Function, here: int, k: int)
    requires LaidFunction(L, c, fn, here) && LaidFunction(L, d, fn, here) && here <= k < here + CodeLen(L, fn)
    ensures WordAt(c, k) == WordAt(d, k)
  {
    var body0 := here + |PrologueCode(fn)|;
    var end0 := body0 + Len(L, fn.body);
    if k < body0 {
      PlaceSame(c, d, here, PrologueCode(fn), k);
    } else if k < end0 {
      LaidSame(L, c, d, fn.body, body0, 0, 0, k);
    } else {
      PlaceSame(c, d, end0, Li(A0, 0) + EpilogueCode(), k);
    }
  }

  // ----- every label of a finished function is placed -----

  ghost predicate LaidAs(L: ExprLang, b: Buf, fn: Function, here: nat, F: seq<int>)
  {
    LaidFunction(L, Image(b, F), fn, here)
  }

  /** laid out whatever the open labels will be */
  ghost predicate LaidAnyhow(L: ExprLang, b: Buf, fn: Function, here: nat) {
    forall F {:trigger LaidAs(L, b, fn, here, F)} | Extends(b, F) :: LaidAs(L, b, fn, here, F)
  }

  /** a jump to an open label would be two different words */
  lemma JumpHasLabel(L: ExprLang, b: Buf, fn: Function, here: nat, k: nat)
    requires BufOk(b) && LaidAnyhow(L, b, fn, here) && |b.ins| == here + CodeLen(L, fn) && k in b.jump && here <= k
    ensures k < |b.ins| && b.jump[k] < |b.pos| && b.pos[b.jump[k]] >= 0
  {
    var l := b.jump[k];
    if b.pos[l] < 0 {
      var F := b.pos[l := b.pos[l] + 1];
      forall j: nat {:trigger AgreesAt(b, F, j)} | j < |b.pos| ensures AgreesAt(b, F, j) {}
      forall j: nat {:trigger AgreesAt(b, b.pos, j)} | j < |b.pos| ensures AgreesAt(b, b.pos, j) {}
      assert LaidAs(L, b, fn, here, F) && LaidAs(L, b, fn, here, b.pos);
      FunctionUnique(L, Image(b, F), Image(b, b.pos), fn, here, k);
      FetchWord(Image(b, F), k);
      FetchWord(Image(b, b.pos), k);
    }
  }

  /** a function of less than a mebibyte, alone in its buffer, can be patched */
  lemma SmallPatches(L: ExprLang, b: Buf, fn: Function, here: nat)
    requires BufOk(b) && LaidAnyhow(L, b, fn, here) && |b.ins| == here + CodeLen(L, fn) && 4 * |b.ins| < 0x10_0000
    requires forall k | k in b.jump :: here <= k
    ensures Patchable(b)
  {
    forall k {:trigger Reaches(b, k)} | k in b.jump ensures Reaches(b, k) { JumpHasLabel(L, b, fn, here, k); }
  }
}
