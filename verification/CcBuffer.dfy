/** The emitter's code buffer as a value: instructions, jumps still waiting for
    their label, and label positions. Positions count 32-bit words. */
module CcBuffer {
  import opened Options
  import opened RvMachine

  /** jump maps the position of a pending jal to its label; pos is -1 for a label
      not placed yet */
  datatype Buf = Buf(ins: seq<Instr>, jump: map<nat, nat>, pos: seq<int>)

  ghost predicate BufOk(b: Buf) {
    && (forall k | k in b.jump :: k < |b.ins| && b.jump[k] < |b.pos|)
    && (forall l | 0 <= l < |b.pos| :: -1 <= b.pos[l] <= |b.ins|)
  }

  /** the instruction at word k once its label, if it needs one, is placed */
  function Settled(b: Buf, k: nat): Option<Instr>
    requires k < |b.ins|
  {
    if k !in b.jump then Some(b.ins[k])
    else if b.jump[k] < |b.pos| && b.pos[b.jump[k]] >= 0 then Some(Jal(X0, 4 * (b.pos[b.jump[k]] - k)))
    else None
  }

  ghost predicate SettledAs(b: Buf, w: nat, seg: seq<Instr>, i: nat)
    requires i < |seg| && w + |seg| <= |b.ins|
  {
    Settled(b, w + i) == Some(seg[i])
  }

  /** the finished instructions seg stand at word w */
  ghost predicate HasCode(b: Buf, w: nat, seg: seq<Instr>) {
    w + |seg| <= |b.ins| && forall i: nat {:trigger SettledAs(b, w, seg, i)} | i < |seg| :: SettledAs(b, w, seg, i)
  }

  /** a jump to label l stands at word k */
  ghost predicate HasJump(b: Buf, k: nat, l: nat) { k < |b.ins| && k in b.jump && b.jump[k] == l }

  ghost predicate KeptWord(b: Buf, b1: Buf, k: nat)
    requires k < |b.ins| <= |b1.ins|
  {
    b1.ins[k] == b.ins[k] && (k in b1.jump <==> k in b.jump) && (k in b.jump ==> b1.jump[k] == b.jump[k])
  }

  ghost predicate KeptLabel(b: Buf, b1: Buf, l: nat)
    requires l < |b.pos| <= |b1.pos|
  {
    b.pos[l] >= 0 ==> b1.pos[l] == b.pos[l]
  }

  /** more code and more labels; nothing emitted or placed has changed */
  ghost predicate Grows(b: Buf, b1: Buf) {
    && |b.ins| <= |b1.ins| && |b.pos| <= |b1.pos|
    && (forall k: nat {:trigger KeptWord(b, b1, k)} | k < |b.ins| :: KeptWord(b, b1, k))
    && (forall l: nat {:trigger KeptLabel(b, b1, l)} | l < |b.pos| :: KeptLabel(b, b1, l))
  }

  /** labels that existed before are where they were */
  ghost predicate SameLabels(b: Buf, b1: Buf) { |b.pos| <= |b1.pos| && b1.pos[..|b.pos|] == b.pos }

  lemma GrowsTrans(b: Buf, b1: Buf, b2: Buf)
    requires Grows(b, b1) && Grows(b1, b2)
    ensures Grows(b, b2)
  {
    forall k: nat {:trigger KeptWord(b, b2, k)} | k < |b.ins|
      ensures KeptWord(b, b2, k)
    {
      assert KeptWord(b, b1, k) && KeptWord(b1, b2, k);
    }
    forall l: nat {:trigger KeptLabel(b, b2, l)} | l < |b.pos|
      ensures KeptLabel(b, b2, l)
    {
      assert KeptLabel(b, b1, l) && KeptLabel(b1, b2, l);
    }
  }

  lemma SameLabelsTrans(b: Buf, b1: Buf, b2: Buf)
    requires SameLabels(b, b1) && SameLabels(b1, b2)
    ensures SameLabels(b, b2)
  {
    forall l | 0 <= l < |b.pos| ensures b2.pos[l] == b.pos[l] {
      assert b1.pos[..|b.pos|][l] == b.pos[l];
      assert b2.pos[..|b1.pos|][l] == b1.pos[l];
    }
  }

  lemma CodeKept(b: Buf, b1: Buf, w: nat, seg: seq<Instr>)
    requires BufOk(b) && Grows(b, b1) && HasCode(b, w, seg)
    ensures HasCode(b1, w, seg)
  {
    forall i: nat {:trigger SettledAs(b1, w, seg, i)} | i < |seg| ensures SettledAs(b1, w, seg, i) {
      assert SettledAs(b, w, seg, i);
      assert KeptWord(b, b1, w + i);
      if w + i in b.jump { assert KeptLabel(b, b1, b.jump[w + i]); }
    }
  }

  lemma JumpKept(b: Buf, b1: Buf, k: nat, l: nat)
    requires Grows(b, b1) && HasJump(b, k, l)
    ensures HasJump(b1, k, l)
  {
    assert KeptWord(b, b1, k);
  }

  lemma CodeJoin(b: Buf, w: nat, s1: seq<Instr>, s2: seq<Instr>)
    requires HasCode(b, w, s1) && HasCode(b, w + |s1|, s2)
    ensures HasCode(b, w, s1 + s2)
  {
    var v, s := w + |s1|, s1 + s2;
    forall i: nat {:trigger SettledAs(b, w, s, i)} | i < |s| ensures SettledAs(b, w, s, i) {
      if i < |s1| { assert SettledAs(b, w, s1, i); } else { assert SettledAs(b, v, s2, i - |s1|); }
    }
  }

  /** a jump whose label is placed is finished code */
  lemma JumpSettled(b: Buf, k: nat, l: nat, p: int)
    requires HasJump(b, k, l) && l < |b.pos| && b.pos[l] == p >= 0
    ensures HasCode(b, k, [Jal(X0, 4 * (p - k))])
  {
    var seg := [Jal(X0, 4 * (p - k))];
    forall i: nat {:trigger SettledAs(b, k, seg, i)} | i < |seg| ensures SettledAs(b, k, seg, i) {}
  }

  /** seg has been appended, with all its own labels placed */
  ghost predicate Emitted(b: Buf, b1: Buf, seg: seq<Instr>) {
    BufOk(b1) && Grows(b, b1) && SameLabels(b, b1) && |b1.ins| == |b.ins| + |seg| && HasCode(b1, |b.ins|, seg)
  }

  lemma EmittedTrans(b: Buf, b1: Buf, b2: Buf, s1: seq<Instr>, s2: seq<Instr>)
    requires Emitted(b, b1, s1) && Emitted(b1, b2, s2)
    ensures Emitted(b, b2, s1 + s2)
  {
    GrowsTrans(b, b1, b2);
    SameLabelsTrans(b, b1, b2);
    CodeKept(b1, b2, |b.ins|, s1);
    CodeJoin(b2, |b.ins|, s1, s2);
  }

  // ----- the steps -----

  function Append(b: Buf, i: Instr): Buf { b.(ins := b.ins + [i]) }

  lemma AppendEmits(b: Buf, i: Instr)
    requires BufOk(b)
    ensures Emitted(b, Append(b, i), [i])
  {
    var b1, w := Append(b, i), |b.ins|;
    forall j: nat {:trigger SettledAs(b1, w, [i], j)} | j < 1 ensures SettledAs(b1, w, [i], j) {}
    forall k: nat {:trigger KeptWord(b, b1, k)} | k < |b.ins| ensures KeptWord(b, b1, k) {}
    forall l: nat {:trigger KeptLabel(b, b1, l)} | l < |b.pos| ensures KeptLabel(b, b1, l) {}
  }

  function AddLabel(b: Buf): Buf { b.(pos := b.pos + [-1]) }

  lemma AddLabelGrows(b: Buf)
    requires BufOk(b)
    ensures BufOk(AddLabel(b)) && Grows(b, AddLabel(b)) && SameLabels(b, AddLabel(b))
  {
    var b1 := AddLabel(b);
    forall k: nat {:trigger KeptWord(b, b1, k)} | k < |b.ins| ensures KeptWord(b, b1, k) {}
    forall l: nat {:trigger KeptLabel(b, b1, l)} | l < |b.pos| ensures KeptLabel(b, b1, l) {}
  }

  function AddJump(b: Buf, l: nat): Buf { Buf(b.ins + [Jal(X0, 0)], b.jump[|b.ins| := l], b.pos) }

  lemma AddJumpGrows(b: Buf, l: nat)
    requires BufOk(b) && l < |b.pos|
    ensures BufOk(AddJump(b, l)) && Grows(b, AddJump(b, l)) && SameLabels(b, AddJump(b, l))
    ensures HasJump(AddJump(b, l), |b.ins|, l)
  {
    var b1 := AddJump(b, l);
    forall k: nat {:trigger KeptWord(b, b1, k)} | k < |b.ins| ensures KeptWord(b, b1, k) {}
    forall l: nat {:trigger KeptLabel(b, b1, l)} | l < |b.pos| ensures KeptLabel(b, b1, l) {}
  }

  function SetLabel(b: Buf, l: nat): Buf
    requires l < |b.pos|
  {
    b.(pos := b.pos[l := |b.ins|])
  }

  lemma SetLabelGrows(b: Buf, l: nat)
    requires BufOk(b) && l < |b.pos| && b.pos[l] < 0
    ensures BufOk(SetLabel(b, l)) && Grows(b, SetLabel(b, l)) && SetLabel(b, l).pos[l] == |b.ins|
  {
    var b1 := SetLabel(b, l);
    forall k: nat {:trigger KeptWord(b, b1, k)} | k < |b.ins| ensures KeptWord(b, b1, k) {}
    forall l: nat {:trigger KeptLabel(b, b1, l)} | l < |b.pos| ensures KeptLabel(b, b1, l) {}
  }
}
