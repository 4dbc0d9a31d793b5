/** Placement of statements in a growing buffer: what has been laid out stays laid
    out, and unplaced labels are accounted for by quantifying over their eventual
    positions. */
module CcLaid {
  import opened Options
  import opened RvMachine
  import opened CcMacros
  import opened CcSource
  import opened CcCode
  import opened CcStmt
  import opened CcBuffer

  // ----- one code image inside another -----

  ghost predicate SubAt(c: Code, d: Code, w: int) {
    0 <= w < |c.ins| ==> w < |d.ins| && d.ins[w] == c.ins[w]
  }

  /** d continues c, perhaps at another address */
  ghost predicate Continues(c: Code, d: Code) { forall w {:trigger SubAt(c, d, w)} :: SubAt(c, d, w) }

  lemma FetchWord(c: Code, w: int)
    ensures Fetch(c, c.base + 4 * w) == if 0 <= w < |c.ins| then Some(c.ins[w]) else None
  {
    assert (4 * w) / 4 == w && (4 * w) % 4 == 0;
  }

  lemma PlaceSub(c: Code, d: Code, w: int, seg: seq<Instr>)
    requires Continues(c, d) && Place(c, w, seg)
    ensures Place(d, w, seg)
  {
    var p, q := c.base + 4 * w, d.base + 4 * w;
    forall i: nat {:trigger InsAt(d, q, seg, i)} | i < |seg| ensures InsAt(d, q, seg, i) {
      assert InsAt(c, p, seg, i);
      assert SubAt(c, d, w + i);
      FetchWord(c, w + i);
      FetchWord(d, w + i);
    }
  }

  lemma {:induction false} CasesSub(L: ExprLang, c: Code, d: Code, b: Stmt, ls: seq<Label>, here: int, body0: int)
    requires Continues(c, d) && LaidCases(L, c, b, ls, here, body0)
    ensures LaidCases(L, d, b, ls, here, body0)
    decreases |ls|
  {
    if ls != [] {
      var l, rest := ls[|ls| - 1], ls[..|ls| - 1];
      if l.DefaultL? {
        CasesSub(L, c, d, b, rest, here, body0);
      } else {
        PlaceSub(c, d, here, CaseCode(l.v, body0 + Pos(L, b, l), here));
        CasesSub(L, c, d, b, rest, here + |Li(T0, l.v)| + 2, body0);
      }
    }
  }

  lemma {:induction false} LaidSub(L: ExprLang, c: Code, d: Code, s: Stmt, here: int, brk: int, cont: int)
    requires Continues(c, d) && Laid(L, c, s, here, brk, cont)
    ensures Laid(L, d, s, here, brk, cont)
    decreases s, 1
  {
    match s
    case Skip =>
    case ExprS(e) => PlaceSub(c, d, here, L.comp(e));
    case Seq(a, b) =>
      LaidSub(L, c, d, a, here, brk, cont);
      LaidSub(L, c, d, b, here + Len(L, a), brk, cont);
    case IfThen(e, t) =>
      PlaceSub(c, d, here, L.comp(e) + JumpIf(true, Len(L, t) + 1));
      LaidSub(L, c, d, t, here + |L.comp(e)| + 2, brk, cont);
    case Break => PlaceSub(c, d, here, [Jal(X0, 4 * (brk - here))]);
    case Continue => PlaceSub(c, d, here, [Jal(X0, 4 * (cont - here))]);
    case Return(v) => PlaceSub(c, d, here, ReturnValueCode(L, v) + EpilogueCode());
    case Labelled(_, b) => LaidSub(L, c, d, b, here, brk, cont);
    case Do(b, e) =>
      var end := here + Len(L, s);
      LaidSub(L, c, d, b, here, end, here + Len(L, b));
      PlaceSub(c, d, here + Len(L, b), L.comp(e) + JumpIf(false, here - (end - 1)));
    case IfElse(_, _, _) => IfElseSub(L, c, d, s, here, brk, cont);
    case Loop(_, _, _, _) => LoopSub(L, c, d, s, here, brk, cont);
    case Switch(e, b) => SwitchSub(L, c, d, e, b, here, brk, cont);
  }

  lemma IfElseSub(L: ExprLang, c: Code, d: Code, s: Stmt, here: int, brk: int, cont: int)
    requires s.IfElse? && Continues(c, d) && Laid(L, c, s, here, brk, cont)
    ensures Laid(L, d, s, here, brk, cont)
    decreases s, 0
  {
    var then0 := here + |L.comp(s.c)| + 2;
    PlaceSub(c, d, here, L.comp(s.c) + JumpIf(true, Len(L, s.thn) + 2));
    LaidSub(L, c, d, s.thn, then0, brk, cont);
    PlaceSub(c, d, then0 + Len(L, s.thn), [Jal(X0, 4 * (Len(L, s.els) + 1))]);
    LaidSub(L, c, d, s.els, then0 + Len(L, s.thn) + 1, brk, cont);
  }

  lemma LoopSub(L: ExprLang, c: Code, d: Code, s: Stmt, here: int, brk: int, cont: int)
    requires s.Loop? && Continues(c, d) && Laid(L, c, s, here, brk, cont)
    ensures Laid(L, d, s, here, brk, cont)
    decreases s, 0
  {
    var body0 := here + TestLen(L, s.cond);
    var step0 := body0 + Len(L, s.body);
    var end := here + Len(L, s);
    if s.cond.Some? { PlaceSub(c, d, here, L.comp(s.cond.value) + JumpIf(true, end - body0 + 1)); }
    LaidSub(L, c, d, s.body, body0, end, if s.top then here else step0);
    PlaceSub(c, d, step0, OptCode(L, s.inc));
    PlaceSub(c, d, end - 1, [Jal(X0, 4 * (here - (end - 1)))]);
  }

  lemma SwitchSub(L: ExprLang, c: Code, d: Code, e: Expr, b: Stmt, here: int, brk: int, cont: int)
    requires Continues(c, d) && Laid(L, c, Switch(e, b), here, brk, cont)
    ensures Laid(L, d, Switch(e, b), here, brk, cont)
    decreases b, 2
  {
    var body0, end := here + Len(L, Switch(e, b)) - Len(L, b), here + Len(L, Switch(e, b));
    SwitchOpen(L, c, e, b, here, body0, end, brk, cont);
    HeadSub(L, c, d, e, b, Labels(b), here, body0);
    LaidSub(L, c, d, b, body0, end, cont);
    SwitchClose(L, d, e, b, here, body0, end, brk, cont);
  }

  lemma SwitchOpen(L: ExprLang, c: Code, e: Expr, b: Stmt, here: int, body0: int, end: int, brk: int, cont: int)
    requires Laid(L, c, Switch(e, b), here, brk, cont)
    requires end == here + Len(L, Switch(e, b)) && body0 == end - Len(L, b)
    ensures SwitchHeadAt(L, c, e, b, Labels(b), here, body0) && Laid(L, c, b, body0, end, cont)
  {
  }

  lemma SwitchClose(L: ExprLang, c: Code, e: Expr, b: Stmt, here: int, body0: int, end: int, brk: int, cont: int)
    requires SwitchHeadAt(L, c, e, b, Labels(b), here, body0) && Laid(L, c, b, body0, end, cont)
    requires end == here + Len(L, Switch(e, b)) && body0 == end - Len(L, b)
    ensures Laid(L, c, Switch(e, b), here, brk, cont)
  {
  }

  lemma HeadSub(L: ExprLang, c: Code, d: Code, e: Expr, b: Stmt, ls: seq<Label>, here: int, body0: int)
    requires Continues(c, d) && SwitchHeadAt(L, c, e, b, ls, here, body0)
    ensures SwitchHeadAt(L, d, e, b, ls, here, body0)
  {
    PlaceSub(c, d, here, L.comp(e) + Mv(A1, A0));
    CasesSub(L, c, d, b, ls, here + |L.comp(e)| + 1, body0);
    PlaceSub(c, d, body0 - 1, [Jal(X0, 4 * (Otherwise(L, b, body0) - (body0 - 1)))]);
  }

  // ----- the image of a buffer once every label has its position -----

  ghost predicate AgreesAt(b: Buf, F: seq<int>, l: nat)
    requires l < |b.pos| <= |F|
  {
    b.pos[l] >= 0 ==> F[l] == b.pos[l]
  }

  /** F places at least the labels b has placed, and where b has */
  ghost predicate Extends(b: Buf, F: seq<int>) {
    |b.pos| <= |F| && forall l: nat {:trigger AgreesAt(b, F, l)} | l < |b.pos| :: AgreesAt(b, F, l)
  }

  function Final(b: Buf, F: seq<int>, k: nat): Instr
    requires k < |b.ins|
  {
    if k in b.jump && b.jump[k] < |F| then Jal(X0, 4 * (F[b.jump[k]] - k)) else b.ins[k]
  }

  ghost function Image(b: Buf, F: seq<int>): Code {
    Code(0, seq(|b.ins|, k requires 0 <= k < |b.ins| => Final(b, F, k)))
  }

  lemma CodePlaced(b: Buf, F: seq<int>, w: nat, seg: seq<Instr>)
    requires BufOk(b) && Extends(b, F) && HasCode(b, w, seg)
    ensures Place(Image(b, F), w, seg)
  {
    var c, q := Image(b, F), Image(b, F).base + 4 * w;
    forall i: nat {:trigger InsAt(c, q, seg, i)} | i < |seg| ensures InsAt(c, q, seg, i) {
      assert SettledAs(b, w, seg, i);
      if w + i in b.jump { assert AgreesAt(b, F, b.jump[w + i]); }
      FetchWord(c, w + i);
    }
  }

  lemma JumpPlaced(b: Buf, F: seq<int>, k: nat, l: nat)
    requires HasJump(b, k, l) && l < |F|
    ensures Place(Image(b, F), k, [Jal(X0, 4 * (F[l] - k))])
  {
    var c, q, seg := Image(b, F), Image(b, F).base + 4 * k, [Jal(X0, 4 * (F[l] - k))];
    forall i: nat {:trigger InsAt(c, q, seg, i)} | i < |seg| ensures InsAt(c, q, seg, i) { FetchWord(c, k); }
  }

  lemma ImageGrows(b: Buf, b1: Buf, F: seq<int>)
    requires BufOk(b) && Grows(b, b1) && Extends(b1, F)
    ensures Extends(b, F) && Continues(Image(b, F), Image(b1, F))
  {
    forall l: nat {:trigger AgreesAt(b, F, l)} | l < |b.pos| ensures AgreesAt(b, F, l) {
      assert KeptLabel(b, b1, l) && AgreesAt(b1, F, l);
    }
    var c, d := Image(b, F), Image(b1, F);
    forall w {:trigger SubAt(c, d, w)} ensures SubAt(c, d, w) {
      if 0 <= w < |b.ins| { assert KeptWord(b, b1, w); }
    }
  }

  /** the position of a break or continue label; -1 stands for none */
  function Target(F: seq<int>, l: int): int { if 0 <= l < |F| then F[l] else 0 }

  ghost predicate LaidFor(L: ExprLang, b: Buf, F: seq<int>, s: Stmt, here: nat, brk: int, cont: int) {
    Laid(L, Image(b, F), s, here, Target(F, brk), Target(F, cont))
  }

  /** s is laid out at word `here`, wherever labels still open will end up */
  ghost predicate HasStmt(L: ExprLang, b: Buf, s: Stmt, here: nat, brk: int, cont: int) {
    forall F {:trigger LaidFor(L, b, F, s, here, brk, cont)} | Extends(b, F) :: LaidFor(L, b, F, s, here, brk, cont)
  }

  lemma StmtKept(L: ExprLang, b: Buf, b1: Buf, s: Stmt, here: nat, brk: int, cont: int)
    requires BufOk(b) && Grows(b, b1) && HasStmt(L, b, s, here, brk, cont)
    ensures HasStmt(L, b1, s, here, brk, cont)
  {
    forall F {:trigger LaidFor(L, b1, F, s, here, brk, cont)} | Extends(b1, F)
      ensures LaidFor(L, b1, F, s, here, brk, cont)
    {
      ImageGrows(b, b1, F);
      assert LaidFor(L, b, F, s, here, brk, cont);
      LaidSub(L, Image(b, F), Image(b1, F), s, here, Target(F, brk), Target(F, cont));
    }
  }
}
