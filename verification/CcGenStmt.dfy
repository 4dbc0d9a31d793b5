/** gen_stmt and gen_function through the emitter. */
module CcGenStmt {
  import opened Options
  import opened RvMachine
  import opened CcMacros
  import opened CcSource
  import opened CcCode
  import opened CcStmt
  import opened CcBuffer
  import opened CcEmitter
  import opened CcGenExpr
  import opened CcLaid

  /** label ids of the case nodes of the innermost switch, as the parser
      allocated them */
  type CaseIds = map<Label, nat>

  predicate Inj(cl: CaseIds) { forall l, m | l in cl && m in cl && cl[l] == cl[m] :: l == m }

  ghost predicate NotBoth(s: Stmt, t: Stmt, l: Label) { !(Bears(s, l) && Bears(t, l)) }

  ghost predicate Apart(s: Stmt, t: Stmt) { forall l {:trigger NotBoth(s, t, l)} :: NotBoth(s, t, l) }

  /** what the parser checks: no label twice in one switch */
  ghost predicate Unique(s: Stmt) {
    match s
    case Seq(a, b) => Unique(a) && Unique(b) && Apart(a, b)
    case IfThen(_, t) => Unique(t)
    case IfElse(_, t, f) => Unique(t) && Unique(f) && Apart(t, f)
    case Loop(_, _, _, b) => Unique(b)
    case Do(b, _) => Unique(b)
    case Switch(_, b) => Unique(b)
    case Labelled(l, b) => Unique(b) && !Bears(b, l)
    case _ => true
  }

  /** break and continue have a target */
  predicate Targets(s: Stmt, brk: bool, cont: bool) {
    match s
    case Seq(a, b) => Targets(a, brk, cont) && Targets(b, brk, cont)
    case IfThen(_, t) => Targets(t, brk, cont)
    case IfElse(_, t, f) => Targets(t, brk, cont) && Targets(f, brk, cont)
    case Loop(_, _, _, b) => Targets(b, true, true)
    case Do(b, _) => Targets(b, true, true)
    case Switch(_, b) => Targets(b, true, cont)
    case Labelled(_, b) => Targets(b, brk, cont)
    case Break => brk
    case Continue => cont
    case _ => true
  }

  ghost predicate LabelReady(b: Buf, s: Stmt, cl: CaseIds, l: Label) {
    Bears(s, l) ==> l in cl && cl[l] < |b.pos| && b.pos[cl[l]] < 0
  }

  /** the case labels inside s exist and are not placed yet */
  ghost predicate Ready(b: Buf, s: Stmt, cl: CaseIds) {
    forall l {:trigger LabelReady(b, s, cl, l)} :: LabelReady(b, s, cl, l)
  }

  ghost predicate PlacedAt(L: ExprLang, b: Buf, s: Stmt, cl: CaseIds, here: nat, l: Label) {
    Bears(s, l) ==> l in cl && cl[l] < |b.pos| && b.pos[cl[l]] == here + Pos(L, s, l)
  }

  ghost predicate AllPlaced(L: ExprLang, b: Buf, s: Stmt, cl: CaseIds, here: nat) {
    forall l {:trigger PlacedAt(L, b, s, cl, here, l)} :: PlacedAt(L, b, s, cl, here, l)
  }

  ghost predicate IsId(s: Stmt, cl: CaseIds, k: nat, l: Label) { l in cl && cl[l] == k && Bears(s, l) }

  ghost predicate Owns(s: Stmt, cl: CaseIds, k: nat) { exists l {:trigger IsId(s, cl, k, l)} :: IsId(s, cl, k, l) }

  ghost predicate SameLabel(b: Buf, b1: Buf, k: nat)
    requires k < |b.pos| <= |b1.pos|
  {
    b1.pos[k] == b.pos[k]
  }

  /** labels other than the case labels of s are where they were */
  ghost predicate SameBut(b: Buf, b1: Buf, s: Stmt, cl: CaseIds) {
    |b.pos| <= |b1.pos| && forall k: nat {:trigger SameLabel(b, b1, k)} | k < |b.pos| && !Owns(s, cl, k) ::
      SameLabel(b, b1, k)
  }

  /** s has been appended */
  ghost predicate StmtEmitted(L: ExprLang, b: Buf, b1: Buf, s: Stmt, cl: CaseIds, brk: int, cont: int) {
    && BufOk(b1) && Grows(b, b1) && |b1.ins| == |b.ins| + Len(L, s) && HasStmt(L, b1, s, |b.ins|, brk, cont)
    && AllPlaced(L, b1, s, cl, |b.ins|) && SameBut(b, b1, s, cl)
  }

  // ----- bookkeeping of labels -----

  lemma ReadySame(b: Buf, b1: Buf, s: Stmt, cl: CaseIds)
    requires Ready(b, s, cl) && SameLabels(b, b1)
    ensures Ready(b1, s, cl)
  {
    forall l {:trigger LabelReady(b1, s, cl, l)} ensures LabelReady(b1, s, cl, l) {
      assert LabelReady(b, s, cl, l);
      if Bears(s, l) { LabelSame(b, b1, cl[l]); }
    }
  }

  /** after emitting a, the labels of t, which are others, are still open */
  lemma ReadyAfter(b: Buf, b1: Buf, a: Stmt, t: Stmt, cl: CaseIds)
    requires Inj(cl) && Apart(a, t) && Ready(b, t, cl) && SameBut(b, b1, a, cl)
    ensures Ready(b1, t, cl)
  {
    forall l {:trigger LabelReady(b1, t, cl, l)} ensures LabelReady(b1, t, cl, l) {
      if Bears(t, l) {
        assert LabelReady(b, t, cl, l);
        var k := cl[l];
        forall m {:trigger IsId(a, cl, k, m)} ensures !IsId(a, cl, k, m) { assert NotBoth(a, t, l); }
        assert SameLabel(b, b1, k);
      }
    }
  }

  /** a label younger than b is none of s's */
  lemma NotOwned(b: Buf, s: Stmt, cl: CaseIds, k: nat)
    requires Ready(b, s, cl) && k >= |b.pos|
    ensures !Owns(s, cl, k)
  {
    forall l {:trigger IsId(s, cl, k, l)} ensures !IsId(s, cl, k, l) { assert LabelReady(b, s, cl, l); }
  }

  lemma PlacedKept(L: ExprLang, b: Buf, b1: Buf, s: Stmt, cl: CaseIds, here: nat)
    requires Grows(b, b1) && AllPlaced(L, b, s, cl, here)
    ensures AllPlaced(L, b1, s, cl, here)
  {
    forall l {:trigger PlacedAt(L, b1, s, cl, here, l)} ensures PlacedAt(L, b1, s, cl, here, l) {
      assert PlacedAt(L, b, s, cl, here, l);
      if Bears(s, l) { assert KeptLabel(b, b1, cl[l]); }
    }
  }

  // ----- leaves -----

  predicate Leaf(s: Stmt) { s.Skip? || s.ExprS? || s.Return? }

  function LeafCode(L: ExprLang, s: Stmt): seq<Instr>
    requires Leaf(s)
  {
    match s
    case Skip => []
    case ExprS(e) => L.comp(e)
    case Return(v) => ReturnValueCode(L, v) + EpilogueCode()
  }

  lemma LeafEmitted(L: ExprLang, b: Buf, b1: Buf, s: Stmt, cl: CaseIds, brk: int, cont: int)
    requires Leaf(s) && Emitted(b, b1, LeafCode(L, s))
    ensures StmtEmitted(L, b, b1, s, cl, brk, cont)
  {
    forall F {:trigger LaidFor(L, b1, F, s, |b.ins|, brk, cont)} | Extends(b1, F)
      ensures LaidFor(L, b1, F, s, |b.ins|, brk, cont)
    {
      CodePlaced(b1, F, |b.ins|, LeafCode(L, s));
    }
    SameButNone(b, b1, s, cl);
  }

  lemma SameButNone(b: Buf, b1: Buf, s: Stmt, cl: CaseIds)
    requires SameLabels(b, b1)
    ensures SameBut(b, b1, s, cl)
  {
    forall k: nat {:trigger SameLabel(b, b1, k)} | k < |b.pos| ensures SameLabel(b, b1, k) { LabelSame(b, b1, k); }
  }

  /** break or continue */
  lemma JumpEmitted(L: ExprLang, b: Buf, s: Stmt, cl: CaseIds, brk: int, cont: int)
    requires BufOk(b) && (s.Break? || s.Continue?)
    requires var l := if s.Break? then brk else cont; 0 <= l < |b.pos|
    ensures StmtEmitted(L, b, AddJump(b, if s.Break? then brk else cont), s, cl, brk, cont)
  {
    var l: nat := if s.Break? then brk else cont;
    var b1 := AddJump(b, l);
    AddJumpGrows(b, l);
    forall F {:trigger LaidFor(L, b1, F, s, |b.ins|, brk, cont)} | Extends(b1, F)
      ensures LaidFor(L, b1, F, s, |b.ins|, brk, cont)
    {
      JumpPlaced(b1, F, |b.ins|, l);
    }
    SameButNone(b, b1, s, cl);
  }

  // ----- sequences -----

  lemma SeqEmitted(L: ExprLang, b: Buf, b1: Buf, b2: Buf, s: Stmt, cl: CaseIds, brk: int, cont: int)
    requires s.Seq? && BufOk(b1) && StmtEmitted(L, b, b1, s.fst, cl, brk, cont)
    requires StmtEmitted(L, b1, b2, s.snd, cl, brk, cont)
    ensures StmtEmitted(L, b, b2, s, cl, brk, cont)
  {
    var here, mid := |b.ins|, |b1.ins|;
    GrowsTrans(b, b1, b2);
    StmtKept(L, b1, b2, s.fst, here, brk, cont);
    SeqHas(L, b2, s, here, mid, brk, cont);
    PlacedKept(L, b1, b2, s.fst, cl, here);
    SeqLabels(L, b, b1, b2, s, cl, mid);
  }

  lemma SeqHas(L: ExprLang, b: Buf, s: Stmt, here: nat, mid: nat, brk: int, cont: int)
    requires s.Seq? && mid == here + Len(L, s.fst) && HasStmt(L, b, s.fst, here, brk, cont)
    requires HasStmt(L, b, s.snd, mid, brk, cont)
    ensures HasStmt(L, b, s, here, brk, cont)
  {
    forall F {:trigger LaidFor(L, b, F, s, here, brk, cont)} | Extends(b, F)
      ensures LaidFor(L, b, F, s, here, brk, cont)
    {
      assert LaidFor(L, b, F, s.fst, here, brk, cont) && LaidFor(L, b, F, s.snd, mid, brk, cont);
    }
  }

  lemma SeqLabels(L: ExprLang, b: Buf, b1: Buf, b2: Buf, s: Stmt, cl: CaseIds, mid: nat)
    requires s.Seq? && mid == |b.ins| + Len(L, s.fst) && SameBut(b, b1, s.fst, cl) && SameBut(b1, b2, s.snd, cl)
    requires AllPlaced(L, b2, s.fst, cl, |b.ins|) && AllPlaced(L, b2, s.snd, cl, mid)
    ensures AllPlaced(L, b2, s, cl, |b.ins|) && SameBut(b, b2, s, cl)
  {
    var here := |b.ins|;
    forall l {:trigger PlacedAt(L, b2, s, cl, here, l)} ensures PlacedAt(L, b2, s, cl, here, l) {
      assert PlacedAt(L, b2, s.fst, cl, here, l) && PlacedAt(L, b2, s.snd, cl, mid, l);
    }
    forall k: nat {:trigger SameLabel(b, b2, k)} | k < |b.pos| && !Owns(s, cl, k) ensures SameLabel(b, b2, k) {
      OwnsLess(s.fst, s, cl, k);
      OwnsLess(s.snd, s, cl, k);
      assert SameLabel(b, b1, k) && SameLabel(b1, b2, k);
    }
  }

  /** a part owns no more than the whole */
  lemma OwnsLess(t: Stmt, s: Stmt, cl: CaseIds, k: nat)
    requires !Owns(s, cl, k) && forall l :: Bears(t, l) ==> Bears(s, l)
    ensures !Owns(t, cl, k)
  {
    forall l {:trigger IsId(t, cl, k, l)} ensures !IsId(t, cl, k, l) { assert !IsId(s, cl, k, l); }
  }

  // ----- a statement around another -----

  ghost predicate KeepsBelow(b: Buf, b1: Buf, n: nat) {
    n <= |b.pos| <= |b1.pos| && forall k: nat {:trigger SameLabel(b, b1, k)} | k < n :: SameLabel(b, b1, k)
  }

  lemma InnerSame(b: Buf, b1: Buf, bm: Buf, bf: Buf, t: Stmt, s: Stmt, cl: CaseIds)
    requires SameLabels(b, b1) && SameBut(b1, bm, t, cl) && KeepsBelow(bm, bf, |b.pos|)
    requires forall l :: Bears(t, l) ==> Bears(s, l)
    ensures SameBut(b, bf, s, cl)
  {
    forall k: nat {:trigger SameLabel(b, bf, k)} | k < |b.pos| && !Owns(s, cl, k) ensures SameLabel(b, bf, k) {
      OwnsLess(t, s, cl, k);
      LabelSame(b, b1, k);
      assert SameLabel(b1, bm, k) && SameLabel(bm, bf, k);
    }
  }

  lemma InnerPlaced(L: ExprLang, b: Buf, t: Stmt, s: Stmt, cl: CaseIds, here: nat, at: nat)
    requires AllPlaced(L, b, t, cl, at) && forall l :: Bears(s, l) ==>
      Bears(t, l) && here + Pos(L, s, l) == at + Pos(L, t, l)
    ensures AllPlaced(L, b, s, cl, here)
  {
    forall l {:trigger PlacedAt(L, b, s, cl, here, l)}
      ensures PlacedAt(L, b, s, cl, here, l)
    {
      assert PlacedAt(L, b, t, cl, at, l);
    }
  }

  /** a condition and its jump, seen from a later buffer in which the label is placed */
  lemma TestSettled(b1: Buf, b2: Buf, b3: Buf, bf: Buf, cc: seq<Instr>, zero: bool, lbl: nat, p: int)
    requires Emitted(b1, b2, cc) && Jumped(b2, b3, zero, lbl) && Grows(b3, bf) && lbl < |bf.pos|
    requires bf.pos[lbl] == p >= 0
    ensures HasCode(bf, |b1.ins|, cc + JumpIf(zero, p - (|b2.ins| + 1)))
  {
    var w, br := |b2.ins|, [Branch(zero, A0, X0, 8)];
    CodeKept(b3, bf, w, br);
    JumpKept(b3, bf, w + 1, lbl);
    JumpIfSettled(bf, w, zero, lbl, p);
    CodeKept(b2, b3, |b1.ins|, cc);
    CodeKept(b3, bf, |b1.ins|, cc);
    CodeJoin(bf, |b1.ins|, cc, JumpIf(zero, p - (w + 1)));
  }

  lemma SetLabelKeeps(b: Buf, l: nat, n: nat)
    requires n <= l < |b.pos|
    ensures KeepsBelow(b, SetLabel(b, l), n)
  {
    var b1 := SetLabel(b, l);
    forall k: nat {:trigger SameLabel(b, b1, k)} | k < n ensures SameLabel(b, b1, k) {}
  }

  // ----- if -----

  lemma IfThenHas(L: ExprLang, b: Buf, s: Stmt, here: nat, brk: int, cont: int)
    requires s.IfThen? && BufOk(b) && HasCode(b, here, L.comp(s.c) + JumpIf(true, Len(L, s.thn) + 1))
    requires HasStmt(L, b, s.thn, here + |L.comp(s.c)| + 2, brk, cont)
    ensures HasStmt(L, b, s, here, brk, cont)
  {
    var then0 := here + |L.comp(s.c)| + 2;
    forall F {:trigger LaidFor(L, b, F, s, here, brk, cont)} | Extends(b, F)
      ensures LaidFor(L, b, F, s, here, brk, cont)
    {
      assert LaidFor(L, b, F, s.thn, then0, brk, cont);
      CodePlaced(b, F, here, L.comp(s.c) + JumpIf(true, Len(L, s.thn) + 1));
    }
  }

  lemma IfThenEmitted(L: ExprLang, b: Buf, b1: Buf, b2: Buf, b3: Buf, b4: Buf, s: Stmt, cl: CaseIds, brk: int,
        cont: int, els: nat)
    requires s.IfThen? && BufOk(b) && Grows(b, b1) && SameLabels(b, b1) && b1.ins == b.ins
    requires Emitted(b1, b2, L.comp(s.c)) && Jumped(b2, b3, true, els) && StmtEmitted(L, b3, b4, s.thn, cl, brk, cont)
    requires |b.pos| <= els < |b4.pos| && b4.pos[els] < 0
    ensures StmtEmitted(L, b, SetLabel(b4, els), s, cl, brk, cont)
  {
    var bf, then0 := SetLabel(b4, els), |b3.ins|;
    SetLabelGrows(b4, els);
    SetLabelKeeps(b4, els, |b.pos|);
    GrowsTrans(b3, b4, bf);
    TestSettled(b1, b2, b3, bf, L.comp(s.c), true, els, |b4.ins|);
    StmtKept(L, b4, bf, s.thn, then0, brk, cont);
    IfThenHas(L, bf, s, |b.ins|, brk, cont);
    PlacedKept(L, b4, bf, s.thn, cl, then0);
    InnerPlaced(L, bf, s.thn, s, cl, |b.ins|, then0);
    SameLabelsTrans(b1, b2, b3);
    SameLabelsTrans(b, b1, b3);
    InnerSame(b, b3, b4, bf, s.thn, s, cl);
    GrowsTrans(b2, b3, bf);
    GrowsTrans(b1, b2, bf);
    GrowsTrans(b, b1, bf);
  }

  lemma IfElseHas(L: ExprLang, b: Buf, s: Stmt, here: nat, then0: nat, else0: nat, brk: int, cont: int)
    requires s.IfElse? && BufOk(b) && then0 == here + |L.comp(s.c)| + 2 && else0 == then0 + Len(L, s.thn) + 1
    requires HasCode(b, here, L.comp(s.c) + JumpIf(true, Len(L, s.thn) + 2)) && HasStmt(L, b, s.thn, then0, brk, cont)
    requires HasCode(b, else0 - 1, [Jal(X0, 4 * (Len(L, s.els) + 1))]) && HasStmt(L, b, s.els, else0, brk, cont)
    ensures HasStmt(L, b, s, here, brk, cont)
  {
    forall F {:trigger LaidFor(L, b, F, s, here, brk, cont)} | Extends(b, F)
      ensures LaidFor(L, b, F, s, here, brk, cont)
    {
      assert LaidFor(L, b, F, s.thn, then0, brk, cont) && LaidFor(L, b, F, s.els, else0, brk, cont);
      CodePlaced(b, F, here, L.comp(s.c) + JumpIf(true, Len(L, s.thn) + 2));
      CodePlaced(b, F, else0 - 1, [Jal(X0, 4 * (Len(L, s.els) + 1))]);
    }
  }

  /** between the branches: a jump to the end, then the else label */
  function Middle(b: Buf, els: nat, end: nat): Buf
    requires els < |b.pos|
  {
    SetLabel(AddJump(b, end), els)
  }

  lemma MiddleGrows(b: Buf, els: nat, end: nat, n: nat)
    requires BufOk(b) && n <= els < |b.pos| && end < |b.pos| && b.pos[els] < 0
    ensures
      var bm := Middle(b, els, end);
      BufOk(bm) && Grows(b, bm) && KeepsBelow(b, bm, n) && HasJump(bm, |b.ins|, end) && bm.pos[els] == |b.ins| + 1 &&
        |bm.ins| == |b.ins| + 1
  {
    var b1 := AddJump(b, end);
    AddJumpGrows(b, end);
    SetLabelGrows(b1, els);
    GrowsTrans(b, b1, Middle(b, els, end));
    JumpKept(b1, Middle(b, els, end), |b.ins|, end);
    var bm := Middle(b, els, end);
    forall k: nat {:trigger SameLabel(b, bm, k)} | k < n ensures SameLabel(b, bm, k) {}
  }

  lemma IfElseLabels(L: ExprLang, b: Buf, b3: Buf, b4: Buf, bm: Buf, b6: Buf, bf: Buf, s: Stmt, cl: CaseIds, then0: nat,
        else0: nat)
    requires s.IfElse? && then0 == |b.ins| + |L.comp(s.c)| + 2 && else0 == then0 + Len(L, s.thn) + 1
    requires SameLabels(b, b3) && SameBut(b3, b4, s.thn, cl) && KeepsBelow(b4, bm, |b.pos|)
    requires SameBut(bm, b6, s.els, cl) && KeepsBelow(b6, bf, |b.pos|)
    requires AllPlaced(L, bf, s.thn, cl, then0) && AllPlaced(L, bf, s.els, cl, else0)
    ensures AllPlaced(L, bf, s, cl, |b.ins|) && SameBut(b, bf, s, cl)
  {
    var here := |b.ins|;
    forall l {:trigger PlacedAt(L, bf, s, cl, here, l)} ensures PlacedAt(L, bf, s, cl, here, l) {
      assert PlacedAt(L, bf, s.thn, cl, then0, l) && PlacedAt(L, bf, s.els, cl, else0, l);
    }
    forall k: nat {:trigger SameLabel(b, bf, k)} | k < |b.pos| && !Owns(s, cl, k) ensures SameLabel(b, bf, k) {
      OwnsLess(s.thn, s, cl, k);
      OwnsLess(s.els, s, cl, k);
      LabelSame(b, b3, k);
      assert SameLabel(b3, b4, k) && SameLabel(b4, bm, k) && SameLabel(bm, b6, k) && SameLabel(b6, bf, k);
    }
  }

  lemma IfElseEmitted(L: ExprLang, b: Buf, b1: Buf, b2: Buf, b3: Buf, b4: Buf, b6: Buf, s: Stmt, cl: CaseIds, brk: int,
        cont: int, els: nat, end: nat)
    requires s.IfElse? && BufOk(b) && Grows(b, b1) && SameLabels(b, b1) && b1.ins == b.ins
    requires Emitted(b1, b2, L.comp(s.c)) && Jumped(b2, b3, true, els) && StmtEmitted(L, b3, b4, s.thn, cl, brk, cont)
    requires |b.pos| <= els < end < |b4.pos| && b4.pos[els] < 0
    requires StmtEmitted(L, Middle(b4, els, end), b6, s.els, cl, brk, cont)
    requires end < |b6.pos| && b6.pos[end] < 0
    ensures StmtEmitted(L, b, SetLabel(b6, end), s, cl, brk, cont)
  {
    var bm, bf, then0 := Middle(b4, els, end), SetLabel(b6, end), |b3.ins|;
    MiddleGrows(b4, els, end, |b.pos|);
    SetLabelGrows(b6, end);
    SetLabelKeeps(b6, end, |b.pos|);
    GrowsTrans(bm, b6, bf);
    GrowsTrans(b4, bm, bf);
    GrowsTrans(b3, b4, bf);
    JumpKept(bm, bf, |b4.ins|, end);
    JumpSettled(bf, |b4.ins|, end, |b6.ins|);
    assert KeptLabel(bm, bf, els);
    TestSettled(b1, b2, b3, bf, L.comp(s.c), true, els, |b4.ins| + 1);
    StmtKept(L, b4, bf, s.thn, then0, brk, cont);
    StmtKept(L, b6, bf, s.els, |bm.ins|, brk, cont);
    IfElseHas(L, bf, s, |b.ins|, then0, |bm.ins|, brk, cont);
    PlacedKept(L, b4, bf, s.thn, cl, then0);
    PlacedKept(L, b6, bf, s.els, cl, |bm.ins|);
    SameLabelsTrans(b1, b2, b3);
    SameLabelsTrans(b, b1, b3);
    IfElseLabels(L, b, b3, b4, bm, b6, bf, s, cl, then0, |bm.ins|);
    GrowsTrans(b2, b3, bf);
    GrowsTrans(b1, b2, bf);
    GrowsTrans(b, b1, bf);
  }

  // ----- the generator -----

  /** break and continue labels exist, or are -1 */
  ghost predicate HasTargets(g: Emitter)
    reads g
  {
    -1 <= g.curBreak < |g.b.pos| && -1 <= g.curCont < |g.b.pos|
  }

  /** gen_stmt; false is the fatal error for a stray break or continue */
  method GenStmt(g: Emitter, ghost L: ExprLang, s: Stmt, cl: CaseIds) returns (ok: bool)
    requires g.Valid() && Matches(L) && Unique(s) && Inj(cl) && Ready(g.b, s, cl) && HasTargets(g)
    modifies g
    ensures ok == Targets(s, old(g.curBreak) >= 0, old(g.curCont) >= 0)
    ensures ok ==> g.Valid() && StmtEmitted(L, old(g.b), g.b, s, cl, old(g.curBreak), old(g.curCont))
    ensures ok ==> g.curBreak == old(g.curBreak) && g.curCont == old(g.curCont)
    decreases s, 1
  {
    ghost var b0, brk, cont := g.b, g.curBreak, g.curCont;
    ok := true;
    match s
    case Seq(a, b) => ok := GenSeq(g, L, s, cl);
    case IfThen(c, t) => ok := GenIfThen(g, L, s, cl);
    case IfElse(c, t, f) => ok := GenIfElse(g, L, s, cl);
    case Break =>
      if g.curBreak < 0 { ok := false; } else {
        g.JumpTo(g.curBreak);
        JumpEmitted(L, b0, s, cl, brk, cont);
      }
    case Continue =>
      if g.curCont < 0 { ok := false; } else {
        g.JumpTo(g.curCont);
        JumpEmitted(L, b0, s, cl, brk, cont);
      }
    case Loop(_, _, _, _) => ok := GenLoop(g, L, s, cl);
    case Do(_, _) => ok := GenDo(g, L, s, cl);
    case Switch(_, _) => ok := GenSwitch(g, L, s, cl);
    case Labelled(_, _) => ok := GenLabelled(g, L, s, cl);
    case _ =>
      GenLeaf(g, L, s);
      LeafEmitted(L, b0, g.b, s, cl, brk, cont);
  }

  method GenSeq(g: Emitter, ghost L: ExprLang, s: Stmt, cl: CaseIds) returns (ok: bool)
    requires s.Seq? && g.Valid() && Matches(L) && Unique(s) && Inj(cl) && Ready(g.b, s, cl) && HasTargets(g)
    modifies g
    ensures ok == Targets(s, old(g.curBreak) >= 0, old(g.curCont) >= 0)
    ensures ok ==> g.Valid() && StmtEmitted(L, old(g.b), g.b, s, cl, old(g.curBreak), old(g.curCont))
    ensures ok ==> g.curBreak == old(g.curBreak) && g.curCont == old(g.curCont)
    decreases s, 0
  {
    ghost var b0, brk, cont := g.b, g.curBreak, g.curCont;
    ReadyPart(b0, s, s.fst, cl);
    ReadyPart(b0, s, s.snd, cl);
    ok := GenStmt(g, L, s.fst, cl);
    if ok {
      ghost var b1 := g.b;
      ReadyAfter(b0, b1, s.fst, s.snd, cl);
      ok := GenStmt(g, L, s.snd, cl);
      if ok { SeqEmitted(L, b0, b1, g.b, s, cl, brk, cont); }
    }
  }

  lemma ReadyPart(b: Buf, s: Stmt, t: Stmt, cl: CaseIds)
    requires Ready(b, s, cl) && forall l :: Bears(t, l) ==> Bears(s, l)
    ensures Ready(b, t, cl)
  {
    forall l {:trigger LabelReady(b, t, cl, l)} ensures LabelReady(b, t, cl, l) { assert LabelReady(b, s, cl, l); }
  }

  /** a condition and a jump past it */
  method GenTest(g: Emitter, ghost L: ExprLang, c: Expr, zero: bool, lbl: nat) returns (ghost b2: Buf)
    requires Matches(L) && g.Valid() && lbl < |g.b.pos|
    modifies g
    ensures g.Valid() && Emitted(old(g.b), b2, L.comp(c)) && Jumped(b2, g.b, zero, lbl) && SameLabels(old(g.b), g.b)
    ensures g.curBreak == old(g.curBreak) && g.curCont == old(g.curCont)
  {
    ghost var b1 := g.b;
    GenExpr(g, L, c);
    b2 := g.b;
    PutJumpIf(g, zero, lbl);
    SameLabelsTrans(b1, b2, g.b);
  }

  method TwoLabels(g: Emitter) returns (l1: nat, l2: nat)
    requires g.Valid()
    modifies g
    ensures g.Valid() && l1 == |old(g.b).pos| && l2 == l1 + 1 && Grows(old(g.b), g.b) && SameLabels(old(g.b), g.b)
    ensures g.b.ins == old(g.b).ins && g.b.pos == old(g.b).pos + [-1, -1]
    ensures g.curBreak == old(g.curBreak) && g.curCont == old(g.curCont)
  {
    ghost var b0 := g.b;
    l1 := g.NewLabel();
    ghost var b1 := g.b;
    l2 := g.NewLabel();
    GrowsTrans(b0, b1, g.b);
    SameLabelsTrans(b0, b1, g.b);
  }

  method GenIfThen(g: Emitter, ghost L: ExprLang, s: Stmt, cl: CaseIds) returns (ok: bool)
    requires s.IfThen? && g.Valid() && Matches(L) && Unique(s) && Inj(cl) && Ready(g.b, s, cl) && HasTargets(g)
    modifies g
    ensures ok == Targets(s, old(g.curBreak) >= 0, old(g.curCont) >= 0)
    ensures ok ==> g.Valid() && StmtEmitted(L, old(g.b), g.b, s, cl, old(g.curBreak), old(g.curCont))
    ensures ok ==> g.curBreak == old(g.curBreak) && g.curCont == old(g.curCont)
    decreases s, 0
  {
    ghost var b0, brk, cont := g.b, g.curBreak, g.curCont;
    var els, end := TwoLabels(g);
    ghost var b1 := g.b;
    ghost var b2 := GenTest(g, L, s.c, true, els);
    ghost var b3 := g.b;
    SameLabelsTrans(b0, b1, b3);
    ReadySame(b0, b3, s, cl);
    ReadyPart(b3, s, s.thn, cl);
    ReadyPart(b0, s, s.thn, cl);
    LabelSame(b1, b3, els);
    ok := GenStmt(g, L, s.thn, cl);
    if ok {
      ghost var b4 := g.b;
      NotOwned(b0, s.thn, cl, els);
      assert SameLabel(b3, b4, els);
      g.PlaceLabel(els);
      IfThenEmitted(L, b0, b1, b2, b3, b4, s, cl, brk, cont, els);
    }
  }

  method GenIfElse(g: Emitter, ghost L: ExprLang, s: Stmt, cl: CaseIds) returns (ok: bool)
    requires s.IfElse? && g.Valid() && Matches(L) && Unique(s) && Inj(cl) && Ready(g.b, s, cl) && HasTargets(g)
    modifies g
    ensures ok == Targets(s, old(g.curBreak) >= 0, old(g.curCont) >= 0)
    ensures ok ==> g.Valid() && StmtEmitted(L, old(g.b), g.b, s, cl, old(g.curBreak), old(g.curCont))
    ensures ok ==> g.curBreak == old(g.curBreak) && g.curCont == old(g.curCont)
    decreases s, 0, 1
  {
    ghost var b0, brk, cont := g.b, g.curBreak, g.curCont;
    var els, end := TwoLabels(g);
    ghost var b1 := g.b;
    ghost var b2 := GenTest(g, L, s.c, true, els);
    ghost var b3 := g.b;
    SameLabelsTrans(b0, b1, b3);
    ReadySame(b0, b3, s, cl);
    ReadyPart(b3, s, s.thn, cl);
    ReadyPart(b3, s, s.els, cl);
    LabelSame(b1, b3, els);
    LabelSame(b1, b3, end);
    ok := GenStmt(g, L, s.thn, cl);
    if ok { ok := GenElse(g, L, s, cl, els, end, b0, b1, b2, b3); }
  }

  /** jump over the second branch, the branch, and the end label */
  method GenElse(g: Emitter, ghost L: ExprLang, s: Stmt, cl: CaseIds, els: nat, end: nat, ghost b0: Buf, ghost b1: Buf,
        ghost b2: Buf, ghost b3: Buf)
    returns (ok: bool)
    requires s.IfElse? && g.Valid() && Matches(L) && Unique(s) && Inj(cl) && Ready(b0, s, cl) && Ready(b3, s.els, cl)
    requires HasTargets(g)
    requires BufOk(b0) && Grows(b0, b1) && SameLabels(b0, b1) && b1.ins == b0.ins && |b0.pos| <= els < end < |b3.pos|
    requires b3.pos[els] < 0 && b3.pos[end] < 0
    requires Emitted(b1, b2, L.comp(s.c)) && Jumped(b2, b3, true, els)
    requires StmtEmitted(L, b3, g.b, s.thn, cl, g.curBreak, g.curCont)
    modifies g
    ensures ok == Targets(s.els, old(g.curBreak) >= 0, old(g.curCont) >= 0)
    ensures ok ==> g.Valid() && StmtEmitted(L, b0, g.b, s, cl, old(g.curBreak), old(g.curCont))
    ensures ok ==> g.curBreak == old(g.curBreak) && g.curCont == old(g.curCont)
    decreases s, 0, 0
  {
    ghost var b4, brk, cont := g.b, g.curBreak, g.curCont;
    IfElseStill(b0, b3, b4, s, cl, els, end);
    g.JumpTo(end);
    g.PlaceLabel(els);
    ghost var bm := g.b;
    MiddleGrows(b4, els, end, els);
    IfElseReady(b0, b3, b4, bm, s, cl, els);
    ok := GenStmt(g, L, s.els, cl);
    if ok {
      ghost var b6 := g.b;
      LoopStill(b0, bm, b6, s, s.els, cl, end);
      g.PlaceLabel(end);
      IfElseEmitted(L, b0, b1, b2, b3, b4, b6, s, cl, brk, cont, els, end);
    }
  }

  /** the first branch leaves both labels open */
  lemma IfElseStill(b0: Buf, b3: Buf, b4: Buf, s: Stmt, cl: CaseIds, els: nat, end: nat)
    requires s.IfElse? && Ready(b0, s, cl) && |b0.pos| <= els < end < |b3.pos| && SameBut(b3, b4, s.thn, cl)
    ensures b4.pos[els] == b3.pos[els] && b4.pos[end] == b3.pos[end]
  {
    ReadyPart(b0, s, s.thn, cl);
    NotOwned(b0, s.thn, cl, els);
    NotOwned(b0, s.thn, cl, end);
    assert SameLabel(b3, b4, els) && SameLabel(b3, b4, end);
  }

  lemma IfElseReady(b0: Buf, b3: Buf, b4: Buf, bm: Buf, s: Stmt, cl: CaseIds, els: nat)
    requires s.IfElse? && Unique(s) && Inj(cl) && Ready(b0, s, cl) && Ready(b3, s.els, cl) && SameBut(b3, b4, s.thn, cl)
    requires |b0.pos| <= els < |b4.pos| && bm.pos == b4.pos[els := |b4.ins| + 1]
    ensures Ready(bm, s.els, cl)
  {
    ReadyAfter(b3, b4, s.thn, s.els, cl);
    forall l {:trigger LabelReady(bm, s.els, cl, l)} ensures LabelReady(bm, s.els, cl, l) {
      assert LabelReady(b4, s.els, cl, l) && LabelReady(b0, s, cl, l);
    }
  }

  /** skip, an expression, or return */
  method GenLeaf(g: Emitter, ghost L: ExprLang, s: Stmt)
    requires Leaf(s) && g.Valid() && Matches(L)
    modifies g
    ensures g.Valid() && Emitted(old(g.b), g.b, LeafCode(L, s)) && g.curBreak == old(g.curBreak)
    ensures g.curCont == old(g.curCont)
  {
    EmittedNothing(g.b);
    match s
    case Skip =>
    case ExprS(e) => GenExpr(g, L, e);
    case Return(v) =>
      if v.Some? { GenExpr(g, L, v.value); } else { g.PutLi(A0, 0); }
      ghost var b1 := g.b;
      PutEpilogue(g);
      EmittedTrans(old(g.b), b1, g.b, ReturnValueCode(L, v), EpilogueCode());
  }

  method PutEpilogue(g: Emitter)
    requires g.Valid()
    modifies g
    ensures g.Valid() && Emitted(old(g.b), g.b, EpilogueCode()) && g.curBreak == old(g.curBreak)
    ensures g.curCont == old(g.curCont)
  {
    var rest := [Load(Double, RA, SP, -8), Load(Double, S0, SP, -16), Jalr(X0, RA, 0)];
    g.PutAddi(SP, S0, 0);
    ghost var b1 := g.b;
    g.PutAll(rest);
    EmittedTrans(old(g.b), b1, g.b, Mv(SP, S0), rest);
  }

  // ----- loops -----

  /** the test of a loop, its jump to the end still open */
  ghost predicate HeadAt(L: ExprLang, b: Buf, here: nat, c: Option<Expr>, end: nat) {
    c.Some? ==>
      HasCode(b, here, L.comp(c.value) + [Branch(true, A0, X0, 8)]) && HasJump(b, here + |L.comp(c.value)| + 1, end)
  }

  lemma HeadSettled(L: ExprLang, b: Buf, b1: Buf, here: nat, c: Expr, end: nat, p: int)
    requires BufOk(b) && Grows(b, b1) && HeadAt(L, b, here, Some(c), end) && end < |b1.pos| && b1.pos[end] == p >= 0
    ensures HasCode(b1, here, L.comp(c) + JumpIf(true, p - (here + |L.comp(c)| + 1)))
  {
    var cc, br, k := L.comp(c), [Branch(true, A0, X0, 8)], here + |L.comp(c)| + 1;
    CodeKept(b, b1, here, cc + br);
    JumpKept(b, b1, k, end);
    JumpSettled(b1, k, end, p);
    CodeJoin(b1, here, cc + br, [Jal(X0, 4 * (p - k))]);
    assert cc + JumpIf(true, p - k) == (cc + br) + [Jal(X0, 4 * (p - k))];
  }

  lemma LoopHas(L: ExprLang, b: Buf, s: Stmt, here: nat, body0: nat, step0: nat, end: nat, lend: nat, lcont: nat,
        brk: int, cont: int)
    requires s.Loop? && BufOk(b) && body0 == here + TestLen(L, s.cond) && step0 == body0 + Len(L, s.body)
    requires end == here + Len(L, s)
    requires s.cond.Some? ==> HasCode(b, here, L.comp(s.cond.value) + JumpIf(true, end - body0 + 1))
    requires HasStmt(L, b, s.body, body0, lend, lcont) && lend < |b.pos| && b.pos[lend] == end
    requires lcont < |b.pos| && b.pos[lcont] == if s.top then here else step0
    requires HasCode(b, step0, OptCode(L, s.inc)) && HasCode(b, end - 1, [Jal(X0, 4 * (here - (end - 1)))])
    ensures HasStmt(L, b, s, here, brk, cont)
  {
    forall F {:trigger LaidFor(L, b, F, s, here, brk, cont)} | Extends(b, F)
      ensures LaidFor(L, b, F, s, here, brk, cont)
    {
      assert AgreesAt(b, F, lend) && AgreesAt(b, F, lcont);
      assert LaidFor(L, b, F, s.body, body0, lend, lcont);
      if s.cond.Some? { CodePlaced(b, F, here, L.comp(s.cond.value) + JumpIf(true, end - body0 + 1)); }
      CodePlaced(b, F, step0, OptCode(L, s.inc));
      CodePlaced(b, F, end - 1, [Jal(X0, 4 * (here - (end - 1)))]);
      LoopLaid(L, Image(b, F), s, here, body0, step0, end, Target(F, brk), Target(F, cont));
    }
  }

  lemma LoopLaid(L: ExprLang, code: Code, s: Stmt, here: int, body0: int, step0: int, end: int, brk: int, cont: int)
    requires s.Loop? && body0 == here + TestLen(L, s.cond) && step0 == body0 + Len(L, s.body) && end == here + Len(L, s)
    requires s.cond.Some? ==> Place(code, here, L.comp(s.cond.value) + JumpIf(true, end - body0 + 1))
    requires Laid(L, code, s.body, body0, end, if s.top then here else step0)
    requires Place(code, step0, OptCode(L, s.inc)) && Place(code, end - 1, [Jal(X0, 4 * (here - (end - 1)))])
    ensures Laid(L, code, s, here, brk, cont)
  {
  }

  /** labels, targets and test of a loop */
  method LoopOpen(g: Emitter, ghost L: ExprLang, top: bool, c: Option<Expr>)
    returns (lbegin: nat, lend: nat, lcont: nat)
    requires Matches(L) && g.Valid()
    modifies g
    ensures g.Valid() && Grows(old(g.b), g.b) && SameLabels(old(g.b), g.b) && g.curBreak == lend && g.curCont == lcont
    ensures |old(g.b).pos| <= lbegin < lend < |g.b.pos| && lcont < |g.b.pos| && lcont != lend
    ensures g.b.pos[lbegin] == |old(g.b).ins| && g.b.pos[lend] < 0
    ensures if top then lcont == lbegin else lcont > lend && g.b.pos[lcont] < 0
    ensures HeadAt(L, g.b, |old(g.b).ins|, c, lend)
    ensures |g.b.ins| == |old(g.b).ins| + if c.Some? then |L.comp(c.value)| + 2 else 0
  {
    ghost var b0 := g.b;
    lbegin, lend := TwoLabels(g);
    ghost var b1 := g.b;
    lcont := lbegin;
    if !top { lcont := g.NewLabel(); }
    ghost var b2 := g.b;
    g.SetTargets(lend, lcont);
    g.PlaceLabel(lbegin);
    ghost var b3 := g.b;
    GrowsTrans(b0, b1, b2);
    GrowsTrans(b0, b2, b3);
    if c.Some? {
      ghost var b4 := GenTest(g, L, c.value, true, lend);
      LabelSame(b3, g.b, lbegin);
      LabelSame(b3, g.b, lend);
      LabelSame(b3, g.b, lcont);
      HeadOpen(L, b3, b4, g.b, c.value, lend);
      GrowsTrans(b0, b3, g.b);
      assert g.b.pos[..|b0.pos|] == g.b.pos[..|b3.pos|][..|b0.pos|] == b0.pos;
    }
  }

  lemma HeadOpen(L: ExprLang, b3: Buf, b4: Buf, b5: Buf, c: Expr, end: nat)
    requires Emitted(b3, b4, L.comp(c)) && Jumped(b4, b5, true, end)
    ensures HeadAt(L, b5, |b3.ins|, Some(c), end) && Grows(b3, b5)
  {
    HeadParts(b3, b4, b5, L.comp(c), end);
  }

  lemma HeadParts(b3: Buf, b4: Buf, b5: Buf, cc: seq<Instr>, end: nat)
    requires Emitted(b3, b4, cc) && Jumped(b4, b5, true, end)
    ensures HasCode(b5, |b3.ins|, cc + [Branch(true, A0, X0, 8)]) && HasJump(b5, |b3.ins| + |cc| + 1, end)
    ensures Grows(b3, b5)
  {
    GrowsTrans(b3, b4, b5);
    CodeKept(b4, b5, |b3.ins|, cc);
    CodeJoin(b5, |b3.ins|, cc, [Branch(true, A0, X0, 8)]);
  }

  /** an expression that may be missing */
  method GenOpt(g: Emitter, ghost L: ExprLang, e: Option<Expr>)
    requires Matches(L) && g.Valid()
    modifies g
    ensures g.Valid() && Emitted(old(g.b), g.b, OptCode(L, e)) && g.curBreak == old(g.curBreak)
    ensures g.curCont == old(g.curCont)
  {
    EmittedNothing(g.b);
    if e.Some? { GenExpr(g, L, e.value); }
  }

  /** step, jump back and end label of a loop */
  method LoopClose(g: Emitter, ghost L: ExprLang, top: bool, inc: Option<Expr>, lbegin: nat, lend: nat, lcont: nat,
        ghost n: nat)
    requires Matches(L) && g.Valid() && n <= lbegin < lend < |g.b.pos| && g.b.pos[lend] < 0
    requires if top then lcont == lbegin else lend < lcont < |g.b.pos| && g.b.pos[lcont] < 0
    modifies g
    ensures g.Valid() && Grows(old(g.b), g.b) && KeepsBelow(old(g.b), g.b, n)
    ensures g.curBreak == old(g.curBreak) && g.curCont == old(g.curCont)
    ensures |g.b.ins| == |old(g.b).ins| + |OptCode(L, inc)| + 1 && HasCode(g.b, |old(g.b).ins|, OptCode(L, inc))
    ensures HasJump(g.b, |g.b.ins| - 1, lbegin) && g.b.pos[lend] == |g.b.ins|
    ensures (!top ==> g.b.pos[lcont] == |old(g.b).ins|)
  {
    ghost var b0 := g.b;
    if !top { g.PlaceLabel(lcont); }
    ghost var b1 := g.b;
    GenOpt(g, L, inc);
    ghost var b2 := g.b;
    LabelSame(b1, b2, lend);
    g.JumpTo(lbegin);
    ghost var b3 := g.b;
    g.PlaceLabel(lend);
    LoopCloseGrows(b0, b1, b2, b3, g.b, n);
    CodeKept(b2, g.b, |b0.ins|, OptCode(L, inc));
    JumpKept(b3, g.b, |b2.ins|, lbegin);
    if !top { LabelSame(b1, b2, lcont); }
  }

  lemma LoopCloseGrows(b0: Buf, b1: Buf, b2: Buf, b3: Buf, b4: Buf, n: nat)
    requires Grows(b0, b1) && Grows(b1, b2) && Grows(b2, b3) && Grows(b3, b4) && |b0.pos| == |b1.pos|
    requires SameLabels(b1, b2) && b3.pos == b2.pos
    requires n <= |b0.pos| && |b4.pos| == |b3.pos| && (forall k: nat | k < n :: b1.pos[k] == b0.pos[k])
    requires (forall k: nat | k < n :: b4.pos[k] == b3.pos[k])
    ensures Grows(b0, b4) && Grows(b2, b4) && KeepsBelow(b0, b4, n)
  {
    GrowsTrans(b2, b3, b4);
    GrowsTrans(b1, b2, b4);
    GrowsTrans(b0, b1, b4);
    forall k: nat {:trigger SameLabel(b0, b4, k)} | k < n ensures SameLabel(b0, b4, k) { LabelSame(b1, b2, k); }
  }

  lemma LoopEmitted(L: ExprLang, b0: Buf, b3: Buf, b4: Buf, bf: Buf, s: Stmt, cl: CaseIds, lbegin: nat, lend: nat,
        lcont: nat, brk: int, cont: int)
    requires s.Loop? && Matches(L) && BufOk(b3) && Grows(b0, b3) && SameLabels(b0, b3)
    requires HeadAt(L, b3, |b0.ins|, s.cond, lend)
    requires |b3.ins| == |b0.ins| + TestLen(L, s.cond) && StmtEmitted(L, b3, b4, s.body, cl, lend, lcont)
    requires BufOk(bf) && Grows(b4, bf) && KeepsBelow(b4, bf, |b0.pos|)
    requires |bf.ins| == |b4.ins| + |OptCode(L, s.inc)| + 1 && HasCode(bf, |b4.ins|, OptCode(L, s.inc))
    requires HasJump(bf, |bf.ins| - 1, lbegin)
    requires lbegin < |bf.pos| && bf.pos[lbegin] == |b0.ins| && lend < |bf.pos| && bf.pos[lend] == |bf.ins|
    requires lcont < |bf.pos| && bf.pos[lcont] == if s.top then |b0.ins| else |b4.ins|
    ensures StmtEmitted(L, b0, bf, s, cl, brk, cont)
  {
    var here, body0, end := |b0.ins|, |b3.ins|, |bf.ins|;
    GrowsTrans(b3, b4, bf);
    GrowsTrans(b0, b3, bf);
    if s.cond.Some? { HeadSettled(L, b3, bf, here, s.cond.value, lend, end); }
    StmtKept(L, b4, bf, s.body, body0, lend, lcont);
    JumpSettled(bf, end - 1, lbegin, here);
    LoopHas(L, bf, s, here, body0, |b4.ins|, end, lend, lcont, brk, cont);
    PlacedKept(L, b4, bf, s.body, cl, body0);
    InnerPlaced(L, bf, s.body, s, cl, here, body0);
    InnerSame(b0, b3, b4, bf, s.body, s, cl);
  }

  method GenLoop(g: Emitter, ghost L: ExprLang, s: Stmt, cl: CaseIds) returns (ok: bool)
    requires s.Loop? && g.Valid() && Matches(L) && Unique(s) && Inj(cl) && Ready(g.b, s, cl) && HasTargets(g)
    modifies g
    ensures ok == Targets(s, old(g.curBreak) >= 0, old(g.curCont) >= 0)
    ensures ok ==> g.Valid() && StmtEmitted(L, old(g.b), g.b, s, cl, old(g.curBreak), old(g.curCont))
    ensures ok ==> g.curBreak == old(g.curBreak) && g.curCont == old(g.curCont)
    decreases s, 0
  {
    ghost var b0 := g.b;
    var brk, cont := g.curBreak, g.curCont;
    var lbegin, lend, lcont := LoopOpen(g, L, s.top, s.cond);
    ghost var b3 := g.b;
    ReadySame(b0, b3, s, cl);
    ReadyPart(b3, s, s.body, cl);
    ok := GenStmt(g, L, s.body, cl);
    if ok {
      ghost var b4 := g.b;
      LoopStill(b0, b3, b4, s, s.body, cl, lbegin);
      LoopStill(b0, b3, b4, s, s.body, cl, lend);
      LoopStill(b0, b3, b4, s, s.body, cl, lcont);
      LoopClose(g, L, s.top, s.inc, lbegin, lend, lcont, |b0.pos|);
      assert KeptLabel(b4, g.b, lbegin);
      LoopEmitted(L, b0, b3, b4, g.b, s, cl, lbegin, lend, lcont, brk, cont);
      g.SetTargets(brk, cont);
    }
  }

  /** the body leaves labels younger than the statement alone */
  lemma LoopStill(b0: Buf, b3: Buf, b4: Buf, s: Stmt, t: Stmt, cl: CaseIds, k: nat)
    requires Ready(b0, s, cl) && (forall l :: Bears(t, l) ==> Bears(s, l)) && |b0.pos| <= k < |b3.pos|
    requires SameBut(b3, b4, t, cl)
    ensures b4.pos[k] == b3.pos[k]
  {
    ReadyPart(b0, s, t, cl);
    NotOwned(b0, t, cl, k);
    assert SameLabel(b3, b4, k);
  }

  // ----- do -----

  lemma DoHas(L: ExprLang, b: Buf, s: Stmt, here: nat, test0: nat, end: nat, lend: nat, lcont: nat, brk: int, cont: int)
    requires s.Do? && BufOk(b) && test0 == here + Len(L, s.body) && end == here + Len(L, s)
    requires HasStmt(L, b, s.body, here, lend, lcont) && lend < |b.pos| && b.pos[lend] == end && lcont < |b.pos|
    requires b.pos[lcont] == test0
    requires HasCode(b, test0, L.comp(s.c) + JumpIf(false, here - (end - 1)))
    ensures HasStmt(L, b, s, here, brk, cont)
  {
    forall F {:trigger LaidFor(L, b, F, s, here, brk, cont)} | Extends(b, F)
      ensures LaidFor(L, b, F, s, here, brk, cont)
    {
      assert AgreesAt(b, F, lend) && AgreesAt(b, F, lcont);
      assert LaidFor(L, b, F, s.body, here, lend, lcont);
      CodePlaced(b, F, test0, L.comp(s.c) + JumpIf(false, here - (end - 1)));
    }
  }

  method DoClose(g: Emitter, ghost L: ExprLang, c: Expr, lbegin: nat, lend: nat, lcont: nat, ghost n: nat)
    returns (ghost b5: Buf, ghost b6: Buf, ghost b7: Buf)
    requires Matches(L) && g.Valid() && n <= lbegin < lend < lcont < |g.b.pos| && g.b.pos[lend] < 0
    requires g.b.pos[lcont] < 0
    modifies g
    ensures g.Valid() && Grows(old(g.b), g.b) && KeepsBelow(old(g.b), g.b, n)
    ensures g.curBreak == old(g.curBreak) && g.curCont == old(g.curCont)
    ensures Grows(old(g.b), b5) && b5.ins == old(g.b).ins && Emitted(b5, b6, L.comp(c)) && Jumped(b6, b7, false, lbegin)
    ensures Grows(b7, g.b) && |g.b.ins| == |b7.ins|
    ensures g.b.pos[lend] == |g.b.ins| && g.b.pos[lcont] == |old(g.b).ins|
  {
    ghost var b4 := g.b;
    g.PlaceLabel(lcont);
    b5 := g.b;
    b6 := GenTest(g, L, c, false, lbegin);
    b7 := g.b;
    LabelSame(b5, b7, lend);
    LabelSame(b5, b7, lcont);
    g.PlaceLabel(lend);
    GrowsTrans(b5, b6, b7);
    GrowsTrans(b5, b7, g.b);
    GrowsTrans(b4, b5, g.b);
    ghost var bf := g.b;
    forall k: nat {:trigger SameLabel(b4, bf, k)} | k < n ensures SameLabel(b4, bf, k) { LabelSame(b5, b7, k); }
  }

  lemma DoEmitted(L: ExprLang, b0: Buf, b3: Buf, b4: Buf, b5: Buf, b6: Buf, b7: Buf, bf: Buf, s: Stmt, cl: CaseIds,
        lbegin: nat, lend: nat, lcont: nat, brk: int, cont: int)
    requires s.Do? && Grows(b0, b3) && SameLabels(b0, b3) && |b3.ins| == |b0.ins|
    requires StmtEmitted(L, b3, b4, s.body, cl, lend, lcont)
    requires b5.ins == b4.ins && Emitted(b5, b6, L.comp(s.c)) && Jumped(b6, b7, false, lbegin) && Grows(b7, bf)
    requires |bf.ins| == |b7.ins|
    requires BufOk(bf) && Grows(b4, bf) && KeepsBelow(b4, bf, |b0.pos|)
    requires lbegin < |bf.pos| && bf.pos[lbegin] == |b0.ins| && lend < |bf.pos| && bf.pos[lend] == |bf.ins|
    requires lcont < |bf.pos| && bf.pos[lcont] == |b4.ins|
    ensures StmtEmitted(L, b0, bf, s, cl, brk, cont)
  {
    var here, end := |b0.ins|, |bf.ins|;
    TestSettled(b5, b6, b7, bf, L.comp(s.c), false, lbegin, here);
    StmtKept(L, b4, bf, s.body, here, lend, lcont);
    DoHas(L, bf, s, here, |b4.ins|, end, lend, lcont, brk, cont);
    PlacedKept(L, b4, bf, s.body, cl, here);
    InnerPlaced(L, bf, s.body, s, cl, here, here);
    InnerSame(b0, b3, b4, bf, s.body, s, cl);
    GrowsTrans(b3, b4, bf);
    GrowsTrans(b0, b3, bf);
  }

  method GenDo(g: Emitter, ghost L: ExprLang, s: Stmt, cl: CaseIds) returns (ok: bool)
    requires s.Do? && g.Valid() && Matches(L) && Unique(s) && Inj(cl) && Ready(g.b, s, cl) && HasTargets(g)
    modifies g
    ensures ok == Targets(s, old(g.curBreak) >= 0, old(g.curCont) >= 0)
    ensures ok ==> g.Valid() && StmtEmitted(L, old(g.b), g.b, s, cl, old(g.curBreak), old(g.curCont))
    ensures ok ==> g.curBreak == old(g.curBreak) && g.curCont == old(g.curCont)
    decreases s, 0
  {
    ghost var b0 := g.b;
    var brk, cont := g.curBreak, g.curCont;
    var lbegin, lend, lcont := LoopOpen(g, L, false, None);
    ghost var b3 := g.b;
    ReadySame(b0, b3, s, cl);
    ReadyPart(b3, s, s.body, cl);
    ok := GenStmt(g, L, s.body, cl);
    if ok {
      ghost var b4 := g.b;
      LoopStill(b0, b3, b4, s, s.body, cl, lbegin);
      LoopStill(b0, b3, b4, s, s.body, cl, lend);
      LoopStill(b0, b3, b4, s, s.body, cl, lcont);
      ghost var b5, b6, b7 := DoClose(g, L, s.c, lbegin, lend, lcont, |b0.pos|);
      assert KeptLabel(b4, g.b, lbegin);
      DoEmitted(L, b0, b3, b4, b5, b6, b7, g.b, s, cl, lbegin, lend, lcont, brk, cont);
      g.SetTargets(brk, cont);
    }
  }

  // ----- labels -----

  lemma LabelledReady(b: Buf, b1: Buf, s: Stmt, cl: CaseIds)
    requires s.Labelled? && Unique(s) && Inj(cl) && Ready(b, s, cl) && s.l in cl && cl[s.l] < |b.pos|
    requires b1.pos == b.pos[cl[s.l] := |b.ins|]
    ensures Ready(b1, s.body, cl)
  {
    forall l {:trigger LabelReady(b1, s.body, cl, l)}
      ensures LabelReady(b1, s.body, cl, l)
    {
      assert LabelReady(b, s, cl, l);
    }
  }

  lemma LabelledEmitted(L: ExprLang, b: Buf, b2: Buf, s: Stmt, cl: CaseIds, brk: int, cont: int)
    requires s.Labelled? && !Bears(s.body, s.l) && BufOk(b) && Inj(cl) && s.l in cl && cl[s.l] < |b.pos|
    requires b.pos[cl[s.l]] < 0
    requires StmtEmitted(L, SetLabel(b, cl[s.l]), b2, s.body, cl, brk, cont)
    ensures StmtEmitted(L, b, b2, s, cl, brk, cont)
  {
    var b1, here, id := SetLabel(b, cl[s.l]), |b.ins|, cl[s.l];
    SetLabelGrows(b, id);
    GrowsTrans(b, b1, b2);
    forall F {:trigger LaidFor(L, b2, F, s, here, brk, cont)} | Extends(b2, F)
      ensures LaidFor(L, b2, F, s, here, brk, cont)
    {
      assert LaidFor(L, b2, F, s.body, here, brk, cont);
    }
    assert KeptLabel(b1, b2, id);
    forall l {:trigger PlacedAt(L, b2, s, cl, here, l)}
      ensures PlacedAt(L, b2, s, cl, here, l)
    {
      assert PlacedAt(L, b2, s.body, cl, here, l);
    }
    forall k: nat {:trigger SameLabel(b, b2, k)} | k < |b.pos| && !Owns(s, cl, k) ensures SameLabel(b, b2, k) {
      OwnsLess(s.body, s, cl, k);
      assert !IsId(s, cl, k, s.l);
      assert SameLabel(b1, b2, k);
    }
  }

  method GenLabelled(g: Emitter, ghost L: ExprLang, s: Stmt, cl: CaseIds) returns (ok: bool)
    requires s.Labelled? && g.Valid() && Matches(L) && Unique(s) && Inj(cl) && Ready(g.b, s, cl) && HasTargets(g)
    modifies g
    ensures ok == Targets(s, old(g.curBreak) >= 0, old(g.curCont) >= 0)
    ensures ok ==> g.Valid() && StmtEmitted(L, old(g.b), g.b, s, cl, old(g.curBreak), old(g.curCont))
    ensures ok ==> g.curBreak == old(g.curBreak) && g.curCont == old(g.curCont)
    decreases s, 0
  {
    ghost var b0, brk, cont := g.b, g.curBreak, g.curCont;
    assert LabelReady(b0, s, cl, s.l);
    g.PlaceLabel(cl[s.l]);
    LabelledReady(b0, g.b, s, cl);
    ok := GenStmt(g, L, s.body, cl);
    if ok { LabelledEmitted(L, b0, g.b, s, cl, brk, cont); }
  }

  // ----- switch -----

  /** where the comparison for label i of ls stands: after those for later labels */
  function CasePos(ls: seq<Label>, i: nat, list0: nat): int
    requires i < |ls|
  {
    list0 + DispatchLen(ls) - DispatchLen(ls[..i + 1])
  }

  /** the comparison for one case, its jump still open */
  ghost predicate CaseAt(b: Buf, ls: seq<Label>, i: nat, list0: nat, ids: CaseIds)
    requires i < |ls|
  {
    ls[i].CaseL? && ls[i] in ids ==>
      var w := CasePos(ls, i, list0);
      w >= 0 && HasCode(b, w, Li(T0, ls[i].v) + [Branch(true, A1, T0, 8)]) &&
        HasJump(b, w + |Li(T0, ls[i].v)| + 1, ids[ls[i]])
  }

  ghost predicate CasesAt(b: Buf, ls: seq<Label>, list0: nat, ids: CaseIds) {
    forall i: nat {:trigger CaseAt(b, ls, i, list0, ids)} | i < |ls| :: CaseAt(b, ls, i, list0, ids)
  }

  lemma CaseKept(b: Buf, b1: Buf, ls: seq<Label>, i: nat, list0: nat, ids: CaseIds)
    requires BufOk(b) && Grows(b, b1) && i < |ls| && CaseAt(b, ls, i, list0, ids)
    ensures CaseAt(b1, ls, i, list0, ids)
  {
    if ls[i].CaseL? && ls[i] in ids {
      var w := CasePos(ls, i, list0);
      CodeKept(b, b1, w, Li(T0, ls[i].v) + [Branch(true, A1, T0, 8)]);
      JumpKept(b, b1, w + |Li(T0, ls[i].v)| + 1, ids[ls[i]]);
    }
  }

  /** the labels the parser allocates for the cases of a switch */
  method CaseLabels(g: Emitter, ls: seq<Label>) returns (ids: CaseIds)
    requires g.Valid()
    modifies g
    ensures g.Valid() && Grows(old(g.b), g.b) && SameLabels(old(g.b), g.b) && g.b.ins == old(g.b).ins
    ensures Inj(ids) && (forall l :: l in ids <==> l in ls)
    ensures forall l | l in ids :: |old(g.b).pos| <= ids[l] < |g.b.pos| && g.b.pos[ids[l]] < 0
    ensures g.curBreak == old(g.curBreak) && g.curCont == old(g.curCont)
  {
    ghost var b0 := g.b;
    ids := map[];
    for k := 0 to |ls|
      invariant g.Valid() && Grows(b0, g.b) && SameLabels(b0, g.b) && g.b.ins == b0.ins
      invariant Inj(ids) && (forall l :: l in ids <==> l in ls[..k])
      invariant forall l | l in ids :: |b0.pos| <= ids[l] < |g.b.pos| && g.b.pos[ids[l]] < 0
      invariant g.curBreak == old(g.curBreak) && g.curCont == old(g.curCont)
    {
      ghost var b1 := g.b;
      var id := g.NewLabel();
      GrowsTrans(b0, b1, g.b);
      SameLabelsTrans(b0, b1, g.b);
      assert ls[..k + 1] == ls[..k] + [ls[k]];
      ids := ids[ls[k] := id];
    }
    assert ls[..|ls|] == ls;
  }

  method GenCase(g: Emitter, v: int, id: nat)
    requires g.Valid() && id < |g.b.pos|
    modifies g
    ensures g.Valid() && Grows(old(g.b), g.b) && SameLabels(old(g.b), g.b) && g.b.pos == old(g.b).pos
    ensures |g.b.ins| == |old(g.b).ins| + |Li(T0, v)| + 2
    ensures HasCode(g.b, |old(g.b).ins|, Li(T0, v) + [Branch(true, A1, T0, 8)])
    ensures HasJump(g.b, |old(g.b).ins| + |Li(T0, v)| + 1, id)
    ensures g.curBreak == old(g.curBreak) && g.curCont == old(g.curCont)
  {
    ghost var b0, li, br := g.b, Li(T0, v), [Branch(true, A1, T0, 8)];
    g.PutLi(T0, v);
    ghost var b1 := g.b;
    g.Put(Branch(true, A1, T0, 8));
    ghost var b2 := g.b;
    EmittedTrans(b0, b1, b2, li, br);
    g.JumpTo(id);
    GrowsTrans(b0, b2, g.b);
    SameLabelsTrans(b0, b2, g.b);
    CodeKept(b2, g.b, |b0.ins|, li + br);
  }

  /** the comparisons, last label first, and the jump when none holds */
  method GenDispatch(g: Emitter, ls: seq<Label>, ids: CaseIds, lend: nat)
    requires g.Valid() && lend < |g.b.pos| && (forall l | l in ls :: l in ids)
    requires (forall l | l in ids :: ids[l] < |g.b.pos|)
    modifies g
    ensures g.Valid() && Grows(old(g.b), g.b) && SameLabels(old(g.b), g.b) && g.b.pos == old(g.b).pos
    ensures |g.b.ins| == |old(g.b).ins| + DispatchLen(ls) + 1
    ensures CasesAt(g.b, ls, |old(g.b).ins|, ids)
    ensures HasJump(g.b, |g.b.ins| - 1, if DefaultL in ls then ids[DefaultL] else lend)
    ensures g.curBreak == old(g.curBreak) && g.curCont == old(g.curCont)
  {
    ghost var b0 := g.b;
    ghost var list0 := |b0.ins|;
    var other := lend;
    var k := |ls|;
    assert ls[..|ls|] == ls;
    while k > 0
      invariant 0 <= k <= |ls| && g.Valid() && Grows(b0, g.b) && SameLabels(b0, g.b) && g.b.pos == b0.pos
      invariant |g.b.ins| == list0 + DispatchLen(ls) - DispatchLen(ls[..k])
      invariant forall i: nat {:trigger CaseAt(g.b, ls, i, list0, ids)} | k <= i < |ls| ::
        CaseAt(g.b, ls, i, list0, ids)
      invariant other == if DefaultL in ls[k..] then ids[DefaultL] else lend
      invariant g.curBreak == old(g.curBreak) && g.curCont == old(g.curCont)
    {
      k := k - 1;
      DispatchStep(ls, k);
      assert ls[k..] == [ls[k]] + ls[k + 1..];
      if ls[k].DefaultL? {
        other := ids[ls[k]];
      } else {
        GenOneCase(g, ls, ids, k, b0, list0);
      }
    }
    ghost var b2 := g.b;
    assert ls[0..] == ls;
    g.JumpTo(other);
    CasesKept(b2, g.b, ls, 0, list0, ids);
    GrowsTrans(b0, b2, g.b);
    SameLabelsTrans(b0, b2, g.b);
  }

  /** the comparison for label k, those for later labels already emitted */
  method GenOneCase(g: Emitter, ls: seq<Label>, ids: CaseIds, k: nat, ghost b0: Buf, ghost list0: nat)
    requires g.Valid() && k < |ls| && ls[k].CaseL? && ls[k] in ids && ids[ls[k]] < |g.b.pos| && Grows(b0, g.b)
    requires SameLabels(b0, g.b) && g.b.pos == b0.pos
    requires |g.b.ins| == list0 + DispatchLen(ls) - DispatchLen(ls[..k + 1])
    requires forall i: nat {:trigger CaseAt(g.b, ls, i, list0, ids)} | k < i < |ls| :: CaseAt(g.b, ls, i, list0, ids)
    modifies g
    ensures g.Valid() && Grows(b0, g.b) && SameLabels(b0, g.b) && g.b.pos == b0.pos
    ensures |g.b.ins| == |old(g.b).ins| + |Li(T0, ls[k].v)| + 2
    ensures forall i: nat {:trigger CaseAt(g.b, ls, i, list0, ids)} | k <= i < |ls| :: CaseAt(g.b, ls, i, list0, ids)
    ensures g.curBreak == old(g.curBreak) && g.curCont == old(g.curCont)
  {
    ghost var b1 := g.b;
    GenCase(g, ls[k].v, ids[ls[k]]);
    CasesKept(b1, g.b, ls, k + 1, list0, ids);
    assert CaseAt(g.b, ls, k, list0, ids);
    GrowsTrans(b0, b1, g.b);
    SameLabelsTrans(b0, b1, g.b);
  }

  lemma DispatchStep(ls: seq<Label>, k: nat)
    requires k < |ls|
    ensures DispatchLen(ls[..k + 1]) == DispatchLen(ls[..k]) + if ls[k].CaseL? then |Li(T0, ls[k].v)| + 2 else 0
  {
    var p := ls[..k + 1];
    assert p[..|p| - 1] == ls[..k] && p[|p| - 1] == ls[k];
  }

  lemma CasesKept(b: Buf, b1: Buf, ls: seq<Label>, k: nat, list0: nat, ids: CaseIds)
    requires BufOk(b) && Grows(b, b1)
    requires forall i: nat {:trigger CaseAt(b, ls, i, list0, ids)} | k <= i < |ls| :: CaseAt(b, ls, i, list0, ids)
    ensures forall i: nat {:trigger CaseAt(b1, ls, i, list0, ids)} | k <= i < |ls| :: CaseAt(b1, ls, i, list0, ids)
  {
    forall i: nat {:trigger CaseAt(b1, ls, i, list0, ids)} | k <= i < |ls| ensures CaseAt(b1, ls, i, list0, ids) {
      CaseKept(b, b1, ls, i, list0, ids);
    }
  }

  /** once the body is placed, the comparison is CaseCode */
  lemma CaseSettled(L: ExprLang, b: Buf, body: Stmt, ls: seq<Label>, i: nat, list0: nat, body0: nat, ids: CaseIds)
    requires i < |ls| && ls[i].CaseL? && Bears(body, ls[i]) && CaseAt(b, ls, i, list0, ids)
    requires AllPlaced(L, b, body, ids, body0)
    ensures var w := CasePos(ls, i, list0); w >= 0 && HasCode(b, w, CaseCode(ls[i].v, body0 + Pos(L, body, ls[i]), w))
  {
    var l := ls[i];
    assert PlacedAt(L, b, body, ids, body0, l);
    var w, p := CasePos(ls, i, list0), body0 + Pos(L, body, l);
    var k := w + |Li(T0, l.v)| + 1;
    var front := Li(T0, l.v) + [Branch(true, A1, T0, 8)];
    JumpSettled(b, k, ids[l], p);
    CodeJoin(b, w, front, [Jal(X0, 4 * (p - k))]);
    assert CaseCode(l.v, p, w) == front + [Jal(X0, 4 * (p - k))];
  }

  lemma {:induction false} CasesLaid(L: ExprLang, b: Buf, F: seq<int>, body: Stmt, ls: seq<Label>, k: nat, list0: nat,
        body0: nat, ids: CaseIds)
    requires BufOk(b) && Extends(b, F) && k <= |ls| && CasesAt(b, ls, list0, ids) && AllPlaced(L, b, body, ids, body0)
    requires forall l | l in ls :: Bears(body, l)
    ensures LaidCases(L, Image(b, F), body, ls[..k], list0 + DispatchLen(ls) - DispatchLen(ls[..k]), body0)
    decreases k
  {
    if k > 0 {
      CasesLaid(L, b, F, body, ls, k - 1, list0, body0, ids);
      CasesMore(L, b, F, body, ls, k - 1, list0, body0, ids);
    }
  }

  /** one more comparison in front of those for ls[..k] */
  lemma CasesMore(L: ExprLang, b: Buf, F: seq<int>, body: Stmt, ls: seq<Label>, k: nat, list0: nat, body0: nat,
        ids: CaseIds)
    requires BufOk(b) && Extends(b, F) && k < |ls| && CasesAt(b, ls, list0, ids) && AllPlaced(L, b, body, ids, body0)
    requires Bears(body, ls[k])
    requires LaidCases(L, Image(b, F), body, ls[..k], list0 + DispatchLen(ls) - DispatchLen(ls[..k]), body0)
    ensures LaidCases(L, Image(b, F), body, ls[..k + 1], list0 + DispatchLen(ls) - DispatchLen(ls[..k + 1]), body0)
  {
    var p, l := ls[..k + 1], ls[k];
    var here := list0 + DispatchLen(ls) - DispatchLen(p);
    assert p[..|p| - 1] == ls[..k] && p[|p| - 1] == l;
    DispatchStep(ls, k);
    if l.CaseL? {
      CasePlaced(L, b, F, body, ls, k, list0, body0, ids, here);
    }
    ConsCase(L, Image(b, F), body, p, here, body0);
  }

  lemma CasePlaced(L: ExprLang, b: Buf, F: seq<int>, body: Stmt, ls: seq<Label>, i: nat, list0: nat, body0: nat,
        ids: CaseIds, here: int)
    requires BufOk(b) && Extends(b, F) && i < |ls| && ls[i].CaseL? && Bears(body, ls[i])
    requires here == CasePos(ls, i, list0)
    requires CasesAt(b, ls, list0, ids) && AllPlaced(L, b, body, ids, body0)
    ensures Place(Image(b, F), here, CaseCode(ls[i].v, body0 + Pos(L, body, ls[i]), here))
  {
    assert CaseAt(b, ls, i, list0, ids);
    CaseSettled(L, b, body, ls, i, list0, body0, ids);
    CodePlaced(b, F, here, CaseCode(ls[i].v, body0 + Pos(L, body, ls[i]), here));
  }

  lemma ConsCase(L: ExprLang, code: Code, body: Stmt, p: seq<Label>, here: int, body0: int)
    requires |p| > 0
    requires
      var l, rest := p[|p| - 1], p[..|p| - 1];
      if l.DefaultL? then LaidCases(L, code, body, rest, here, body0)
      else Bears(body, l) && Place(code, here, CaseCode(l.v, body0 + Pos(L, body, l), here)) &&
           LaidCases(L, code, body, rest, here + |Li(T0, l.v)| + 2, body0)
    ensures LaidCases(L, code, body, p, here, body0)
  {
  }

  lemma SwitchHas(L: ExprLang, b: Buf, s: Stmt, here: nat, body0: nat, end: nat, ids: CaseIds, lend: nat, brk: int,
        cont: int)
    requires s.Switch? && BufOk(b) && body0 == here + Len(L, s) - Len(L, s.body) && end == here + Len(L, s)
    requires SwitchHeadHas(L, b, s.c, s.body, Labels(s.body), here, body0, ids)
    requires lend < |b.pos| && b.pos[lend] == end && HasStmt(L, b, s.body, body0, lend, cont)
    ensures HasStmt(L, b, s, here, brk, cont)
  {
    var body, ls := s.body, Labels(s.body);
    forall l | l in ls ensures Bears(body, l) { BearsLabels(body, l); }
    forall F {:trigger LaidFor(L, b, F, s, here, brk, cont)} | Extends(b, F)
      ensures LaidFor(L, b, F, s, here, brk, cont)
    {
      assert AgreesAt(b, F, lend);
      assert LaidFor(L, b, F, body, body0, lend, cont);
      SwitchHeadLaid(L, b, F, s.c, body, ls, here, body0, ids);
    }
  }

  /** the dispatch code with its jumps settled */
  ghost predicate SwitchHeadHas(L: ExprLang, b: Buf, c: Expr, body: Stmt, ls: seq<Label>, here: nat, body0: nat,
        ids: CaseIds)
  {
    var list0 := here + |L.comp(c)| + 1;
    && body0 == list0 + DispatchLen(ls) + 1 && HasCode(b, here, L.comp(c) + Mv(A1, A0)) && CasesAt(b, ls, list0, ids)
    && AllPlaced(L, b, body, ids, body0) &&
      HasCode(b, body0 - 1, [Jal(X0, 4 * (Otherwise(L, body, body0) - (body0 - 1)))])
  }

  lemma SwitchHeadLaid(L: ExprLang, b: Buf, F: seq<int>, c: Expr, body: Stmt, ls: seq<Label>, here: nat, body0: nat,
        ids: CaseIds)
    requires BufOk(b) && Extends(b, F) && SwitchHeadHas(L, b, c, body, ls, here, body0, ids)
    requires forall l | l in ls :: Bears(body, l)
    ensures SwitchHeadAt(L, Image(b, F), c, body, ls, here, body0)
  {
    assert ls[..|ls|] == ls;
    CodePlaced(b, F, here, L.comp(c) + Mv(A1, A0));
    CasesLaid(L, b, F, body, ls, |ls|, here + |L.comp(c)| + 1, body0, ids);
    CodePlaced(b, F, body0 - 1, [Jal(X0, 4 * (Otherwise(L, body, body0) - (body0 - 1)))]);
  }

  lemma OtherwiseSettled(L: ExprLang, b: Buf, body: Stmt, ls: seq<Label>, other0: nat, body0: nat, ids: CaseIds,
        lend: nat)
    requires (Bears(body, DefaultL) <==> DefaultL in ls) && (DefaultL in ls ==> DefaultL in ids)
    requires HasJump(b, other0, if DefaultL in ls then ids[DefaultL] else lend)
    requires AllPlaced(L, b, body, ids, body0) && lend < |b.pos| && b.pos[lend] == body0 + Len(L, body)
    ensures HasCode(b, other0, [Jal(X0, 4 * (Otherwise(L, body, body0) - other0))])
  {
    assert PlacedAt(L, b, body, ids, body0, DefaultL);
    JumpSettled(b, other0, if DefaultL in ls then ids[DefaultL] else lend, Otherwise(L, body, body0));
  }

  lemma SwitchReady(b: Buf, body: Stmt, ids: CaseIds)
    requires forall l | l in Labels(body) :: l in ids
    requires forall l | l in ids :: ids[l] < |b.pos| && b.pos[ids[l]] < 0
    ensures Ready(b, body, ids)
  {
    forall l {:trigger LabelReady(b, body, ids, l)} ensures LabelReady(b, body, ids, l) { BearsLabels(body, l); }
  }

  /** the value in a1, the comparisons, the final jump */
  method GenSelect(g: Emitter, ghost L: ExprLang, c: Expr, ls: seq<Label>, ids: CaseIds, lend: nat)
    requires Matches(L) && g.Valid() && lend < |g.b.pos| && (forall l | l in ls :: l in ids)
    requires (forall l | l in ids :: ids[l] < |g.b.pos|)
    modifies g
    ensures g.Valid() && Grows(old(g.b), g.b) && SameLabels(old(g.b), g.b)
    ensures g.curBreak == old(g.curBreak) && g.curCont == old(g.curCont)
    ensures
      var here := |old(g.b).ins|;
      var list0 := here + |L.comp(c)| + 1;
      && |g.b.ins| == list0 + DispatchLen(ls) + 1 && HasCode(g.b, here, L.comp(c) + Mv(A1, A0)) &&
        CasesAt(g.b, ls, list0, ids)
      && HasJump(g.b, |g.b.ins| - 1, if DefaultL in ls then ids[DefaultL] else lend)
  {
    ghost var b0 := g.b;
    GenExpr(g, L, c);
    ghost var b1 := g.b;
    g.PutAddi(A1, A0, 0);
    ghost var b2 := g.b;
    EmittedTrans(b0, b1, b2, L.comp(c), Mv(A1, A0));
    assert |b2.ins| == |b0.ins| + |L.comp(c)| + 1;
    GenDispatch(g, ls, ids, lend);
    GrowsTrans(b0, b2, g.b);
    SameLabelsTrans(b0, b2, g.b);
    CodeKept(b2, g.b, |b0.ins|, L.comp(c) + Mv(A1, A0));
  }

  /** everything up to the body of a switch has been emitted, from b0 to b3 */
  ghost predicate SwitchOpened(L: ExprLang, b0: Buf, b1: Buf, b3: Buf, c: Expr, body: Stmt, ls: seq<Label>,
        ids: CaseIds, lend: nat)
  {
    && BufOk(b0) && Grows(b0, b1) && SameLabels(b0, b1) && b1.ins == b0.ins && Grows(b1, b3) && SameLabels(b1, b3) &&
      BufOk(b3)
    && |b0.pos| <= lend < |b1.pos| && b1.pos[lend] < 0 && Inj(ids) && Ready(b3, body, ids)
    && (forall l | l in ids :: ids[l] >= |b0.pos| && ids[l] != lend) && (forall l | l in ls :: l in ids)
    && var list0 := |b0.ins| + |L.comp(c)| + 1;
    && |b3.ins| == list0 + DispatchLen(ls) + 1 && HasCode(b3, |b0.ins|, L.comp(c) + Mv(A1, A0)) &&
      CasesAt(b3, ls, list0, ids)
    && HasJump(b3, |b3.ins| - 1, if DefaultL in ls then ids[DefaultL] else lend)
  }

  lemma SwitchEmitted(L: ExprLang, b0: Buf, b1: Buf, b3: Buf, b4: Buf, s: Stmt, ids: CaseIds, lend: nat, cl: CaseIds,
        brk: int, cont: int)
    requires s.Switch? && SwitchOpened(L, b0, b1, b3, s.c, s.body, Labels(s.body), ids, lend)
    requires StmtEmitted(L, b3, b4, s.body, ids, lend, cont) && lend < |b4.pos| && b4.pos[lend] < 0
    ensures StmtEmitted(L, b0, SetLabel(b4, lend), s, cl, brk, cont)
  {
    var bf, here, body0 := SetLabel(b4, lend), |b0.ins|, |b3.ins|;
    SetLabelGrows(b4, lend);
    GrowsTrans(b3, b4, bf);
    GrowsTrans(b1, b3, bf);
    GrowsTrans(b0, b1, bf);
    BearsLabels(s.body, DefaultL);
    PlacedKept(L, b4, bf, s.body, ids, body0);
    SwitchHeadEmitted(L, b0, b1, b3, bf, s.c, s.body, Labels(s.body), ids, lend);
    StmtKept(L, b4, bf, s.body, body0, lend, cont);
    SwitchHas(L, bf, s, here, body0, |b4.ins|, ids, lend, brk, cont);
    SwitchSame(b0, b1, b3, b4, bf, s, ids, lend, cl);
    forall l {:trigger PlacedAt(L, bf, s, cl, here, l)} ensures PlacedAt(L, bf, s, cl, here, l) {}
  }

  lemma SwitchHeadEmitted(L: ExprLang, b0: Buf, b1: Buf, b3: Buf, bf: Buf, c: Expr, body: Stmt, ls: seq<Label>,
        ids: CaseIds, lend: nat)
    requires SwitchOpened(L, b0, b1, b3, c, body, ls, ids, lend) && Grows(b3, bf)
    requires AllPlaced(L, bf, body, ids, |b3.ins|)
    requires lend < |bf.pos| && bf.pos[lend] == |b3.ins| + Len(L, body) && (Bears(body, DefaultL) <==> DefaultL in ls)
    ensures SwitchHeadHas(L, bf, c, body, ls, |b0.ins|, |b3.ins|, ids)
  {
    var here, body0, list0 := |b0.ins|, |b3.ins|, |b0.ins| + |L.comp(c)| + 1;
    CodeKept(b3, bf, here, L.comp(c) + Mv(A1, A0));
    CasesKept(b3, bf, ls, 0, list0, ids);
    JumpKept(b3, bf, body0 - 1, if DefaultL in ls then ids[DefaultL] else lend);
    OtherwiseSettled(L, bf, body, ls, body0 - 1, body0, ids, lend);
  }

  /** a switch leaves every older label alone */
  lemma SwitchSame(b0: Buf, b1: Buf, b3: Buf, b4: Buf, bf: Buf, s: Stmt, ids: CaseIds, lend: nat, cl: CaseIds)
    requires s.Switch? && SameLabels(b0, b1) && SameLabels(b1, b3) && SameBut(b3, b4, s.body, ids)
    requires |b0.pos| <= lend < |b4.pos|
    requires bf == SetLabel(b4, lend) && forall l | l in ids :: ids[l] >= |b0.pos|
    ensures SameBut(b0, bf, s, cl)
  {
    SameLabelsTrans(b0, b1, b3);
    forall k: nat {:trigger SameLabel(b0, bf, k)} | k < |b0.pos| ensures SameLabel(b0, bf, k) {
      LabelSame(b0, b3, k);
      forall l {:trigger IsId(s.body, ids, k, l)} ensures !IsId(s.body, ids, k, l) {}
      assert SameLabel(b3, b4, k);
    }
  }

  method GenSwitch(g: Emitter, ghost L: ExprLang, s: Stmt, cl: CaseIds) returns (ok: bool)
    requires s.Switch? && g.Valid() && Matches(L) && Unique(s) && Inj(cl) && Ready(g.b, s, cl) && HasTargets(g)
    modifies g
    ensures ok == Targets(s, old(g.curBreak) >= 0, old(g.curCont) >= 0)
    ensures ok ==> g.Valid() && StmtEmitted(L, old(g.b), g.b, s, cl, old(g.curBreak), old(g.curCont))
    ensures ok ==> g.curBreak == old(g.curBreak) && g.curCont == old(g.curCont)
    decreases s, 0, 1
  {
    ghost var b0 := g.b;
    var brk, cont := g.curBreak, g.curCont;
    var ids, lend;
    ghost var b2;
    ids, lend, b2 := GenSwitchHead(g, L, s);
    ok := GenSwitchBody(g, L, s, ids, lend, cl, b0, b2, brk);
    if ok { g.SetTargets(brk, cont); }
  }

  method GenSwitchHead(g: Emitter, ghost L: ExprLang, s: Stmt) returns (ids: CaseIds, lend: nat, ghost b2: Buf)
    requires s.Switch? && g.Valid() && Matches(L) && HasTargets(g)
    modifies g
    ensures g.Valid() && SwitchOpened(L, old(g.b), b2, g.b, s.c, s.body, Labels(s.body), ids, lend)
    ensures g.curBreak == lend && g.curCont == old(g.curCont) && HasTargets(g)
  {
    ghost var b0 := g.b;
    var c, ls := s.c, Labels(s.body);
    ids, lend := SwitchLabels(g, s.body);
    b2 := g.b;
    GenSelect(g, L, c, ls, ids, lend);
    SwitchOpens(L, b0, b2, g.b, c, s.body, ls, ids, lend);
    g.SetTargets(lend, g.curCont);
  }

  lemma SwitchOpens(L: ExprLang, b0: Buf, b2: Buf, b3: Buf, c: Expr, body: Stmt, ls: seq<Label>, ids: CaseIds,
        lend: nat)
    requires BufOk(b0) && Grows(b0, b2) && SameLabels(b0, b2) && b2.ins == b0.ins && Grows(b2, b3) && SameLabels(b2, b3)
    requires BufOk(b3)
    requires |b0.pos| <= lend < |b2.pos| && b2.pos[lend] < 0 && Inj(ids) && Ready(b2, body, ids)
    requires (forall l | l in ids :: ids[l] >= |b0.pos| && ids[l] != lend) && (forall l | l in ls :: l in ids)
    requires |b3.ins| == |b2.ins| + |L.comp(c)| + 1 + DispatchLen(ls) + 1
    requires HasCode(b3, |b2.ins|, L.comp(c) + Mv(A1, A0)) && CasesAt(b3, ls, |b2.ins| + |L.comp(c)| + 1, ids)
    requires HasJump(b3, |b3.ins| - 1, if DefaultL in ls then ids[DefaultL] else lend)
    ensures SwitchOpened(L, b0, b2, b3, c, body, ls, ids, lend)
  {
    ReadySame(b2, b3, body, ids);
  }

  method GenSwitchBody(g: Emitter, ghost L: ExprLang, s: Stmt, ids: CaseIds, lend: nat, ghost cl: CaseIds,
        ghost b0: Buf, ghost b2: Buf, ghost brk: int)
    returns (ok: bool)
    requires s.Switch? && g.Valid() && Matches(L) && Unique(s)
    requires SwitchOpened(L, b0, b2, g.b, s.c, s.body, Labels(s.body), ids, lend)
    requires g.curBreak == lend && HasTargets(g)
    modifies g
    ensures ok == Targets(s.body, true, old(g.curCont) >= 0)
    ensures ok ==> g.Valid() && StmtEmitted(L, b0, g.b, s, cl, brk, old(g.curCont))
    decreases s, 0, 0
  {
    ghost var b3, cont := g.b, g.curCont;
    ok := GenStmt(g, L, s.body, ids);
    if ok {
      ghost var b4 := g.b;
      SwitchStill(b2, b3, b4, s.body, ids, lend);
      g.PlaceLabel(lend);
      SwitchEmitted(L, b0, b2, b3, b4, s, ids, lend, cl, brk, cont);
    }
  }

  /** a label for each case and one for the end */
  method SwitchLabels(g: Emitter, body: Stmt) returns (ids: CaseIds, lend: nat)
    requires g.Valid()
    modifies g
    ensures g.Valid() && Grows(old(g.b), g.b) && SameLabels(old(g.b), g.b) && g.b.ins == old(g.b).ins
    ensures Inj(ids) && (forall l | l in Labels(body) :: l in ids)
    ensures (forall l | l in ids :: |old(g.b).pos| <= ids[l] < |g.b.pos| && ids[l] != lend)
    ensures |old(g.b).pos| <= lend < |g.b.pos| && g.b.pos[lend] < 0 && Ready(g.b, body, ids)
    ensures g.curBreak == old(g.curBreak) && g.curCont == old(g.curCont)
  {
    ghost var b0 := g.b;
    ids := CaseLabels(g, Labels(body));
    ghost var b1 := g.b;
    lend := g.NewLabel();
    GrowsTrans(b0, b1, g.b);
    SameLabelsTrans(b0, b1, g.b);
    SwitchReady(g.b, body, ids);
  }

  lemma SwitchStill(b2: Buf, b3: Buf, b4: Buf, t: Stmt, ids: CaseIds, lend: nat)
    requires SameLabels(b2, b3) && lend < |b2.pos| && (forall l | l in ids :: ids[l] != lend) && SameBut(b3, b4, t, ids)
    ensures lend < |b4.pos| && b4.pos[lend] == b2.pos[lend]
  {
    LabelSame(b2, b3, lend);
    forall l {:trigger IsId(t, ids, lend, l)} ensures !IsId(t, ids, lend, l) {}
    assert SameLabel(b3, b4, lend);
  }
}
