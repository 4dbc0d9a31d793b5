/** The emitter: instruction words appended to a growing buffer, labels, and
    jumps recorded as fixups until their label is known. */
module CcEmitter {
  import opened RvArith
  import opened RvMachine
  import opened RvEncode
  import opened CcMacros
  import opened CcBuffer
  import opened CcLaid

  datatype Fixup = Fixup(at: nat, lbl: nat)

  predicate AllLegal(s: seq<Instr>) { forall i | 0 <= i < |s| :: Legal(s[i]) }

  /** the jump at word k has a placed label within reach of a jal */
  predicate Reaches(b: Buf, k: nat)
    requires k in b.jump
  {
    b.jump[k] < |b.pos| && b.pos[b.jump[k]] >= 0 && -0x10_0000 <= 4 * (b.pos[b.jump[k]] - k) < 0x10_0000
  }

  ghost predicate Patchable(b: Buf) { forall k {:trigger Reaches(b, k)} | k in b.jump :: Reaches(b, k) }

  class Emitter {
    /** the code buffer as 32-bit words */
    var words: seq<nat>
    /** -1 for a label not placed yet */
    var labelPos: seq<int>
    /** newest first */
    var fixups: seq<Fixup>
    var curBreak: int
    var curCont: int
    ghost var b: Buf

    ghost predicate WordOk(k: nat)
      reads this
      requires k < |words| == |b.ins|
    {
      words[k] == Encode(b.ins[k]) && Legal(b.ins[k])
    }

    ghost predicate FixupOk(i: nat)
      reads this
      requires i < |fixups|
    {
      HasJump(b, fixups[i].at, fixups[i].lbl)
    }

    ghost predicate Pending(k: nat)
      reads this
      requires k in b.jump
    {
      Fixup(k, b.jump[k]) in fixups
    }

    /** b is what the words, labels and fixups say */
    ghost predicate Valid()
      reads this
    {
      && BufOk(b) && b.pos == labelPos && |words| == |b.ins|
      && (forall k: nat {:trigger WordOk(k)} | k < |words| :: WordOk(k))
      && (forall i: nat {:trigger FixupOk(i)} | i < |fixups| :: FixupOk(i))
      && (forall k {:trigger Pending(k)} | k in b.jump :: Pending(k))
    }

    constructor ()
      ensures Valid() && b == Buf([], map[], []) && curBreak == curCont == -1
    {
      words, labelPos, fixups := [], [], [];
      curBreak, curCont := -1, -1;
      b := Buf([], map[], []);
    }

    /** emit32 of an encoded instruction */
    method Put(i: Instr)
      requires Valid() && Legal(i)
      modifies this
      ensures Valid() && b == Append(old(b), i) && Emitted(old(b), b, [i])
      ensures curBreak == old(curBreak) && curCont == old(curCont) && fixups == old(fixups)
    {
      ghost var b0 := b;
      words := words + [Encode(i)];
      b := Append(b, i);
      AppendEmits(b0, i);
      forall k: nat {:trigger WordOk(k)} | k < |words| ensures WordOk(k) { if k < |b0.ins| { assert old(WordOk(k)); } }
      forall j: nat {:trigger FixupOk(j)} | j < |fixups| ensures FixupOk(j) { assert old(FixupOk(j)); }
      forall k {:trigger Pending(k)} | k in b.jump ensures Pending(k) { assert old(Pending(k)); }
    }

    method NewLabel() returns (id: nat)
      requires Valid()
      modifies this
      ensures Valid() && id == |old(b).pos| && b == AddLabel(old(b)) && Grows(old(b), b) && SameLabels(old(b), b)
      ensures curBreak == old(curBreak) && curCont == old(curCont)
    {
      ghost var b0 := b;
      id := |labelPos|;
      labelPos := labelPos + [-1];
      b := AddLabel(b);
      AddLabelGrows(b0);
      forall k: nat {:trigger WordOk(k)} | k < |words| ensures WordOk(k) { assert old(WordOk(k)); }
      forall j: nat {:trigger FixupOk(j)} | j < |fixups| ensures FixupOk(j) { assert old(FixupOk(j)); }
      forall k {:trigger Pending(k)} | k in b.jump ensures Pending(k) { assert old(Pending(k)); }
    }

    method PlaceLabel(id: nat)
      requires Valid() && id < |b.pos| && b.pos[id] < 0
      modifies this
      ensures Valid() && b == SetLabel(old(b), id) && Grows(old(b), b)
      ensures curBreak == old(curBreak) && curCont == old(curCont)
    {
      ghost var b0 := b;
      labelPos := labelPos[id := |words|];
      b := SetLabel(b, id);
      SetLabelGrows(b0, id);
      forall k: nat {:trigger WordOk(k)} | k < |words| ensures WordOk(k) { assert old(WordOk(k)); }
      forall j: nat {:trigger FixupOk(j)} | j < |fixups| ensures FixupOk(j) { assert old(FixupOk(j)); }
      forall k {:trigger Pending(k)} | k in b.jump ensures Pending(k) { assert old(Pending(k)); }
    }

    /** cur_break and cur_cont */
    method SetTargets(brk: int, cont: int)
      requires Valid()
      modifies this`curBreak, this`curCont
      ensures Valid() && b == old(b) && curBreak == brk && curCont == cont
    {
      curBreak, curCont := brk, cont;
      forall k: nat {:trigger WordOk(k)} | k < |words| ensures WordOk(k) { assert old(WordOk(k)); }
      forall j: nat {:trigger FixupOk(j)} | j < |fixups| ensures FixupOk(j) { assert old(FixupOk(j)); }
      forall k {:trigger Pending(k)} | k in b.jump ensures Pending(k) { assert old(Pending(k)); }
    }

    /** add_fixup, jump_to: a jal with its distance left open */
    method JumpTo(lbl: nat)
      requires Valid() && lbl < |b.pos|
      modifies this
      ensures Valid() && b == AddJump(old(b), lbl) && Grows(old(b), b) && SameLabels(old(b), b)
      ensures HasJump(b, |old(b).ins|, lbl)
      ensures curBreak == old(curBreak) && curCont == old(curCont)
    {
      ghost var b0 := b;
      Put(Jal(X0, 0));
      var at := |words| - 1;
      label filled:
      fixups := [Fixup(at, lbl)] + fixups;
      b := AddJump(b0, lbl);
      AddJumpGrows(b0, lbl);
      forall k: nat {:trigger WordOk(k)} | k < |words| ensures WordOk(k) { assert old@filled(WordOk(k)); }
      forall j: nat {:trigger FixupOk(j)} | j < |fixups| ensures FixupOk(j) { if j > 0 { assert old(FixupOk(j - 1)); } }
      forall k {:trigger Pending(k)} | k in b.jump ensures Pending(k) {
        if k == |b0.ins| { assert fixups[0] == Fixup(k, b.jump[k]); } else { assert old(Pending(k)); }
      }
    }

    /** a straight-line sequence, one instruction after the other */
    method PutAll(s: seq<Instr>)
      requires Valid() && AllLegal(s)
      modifies this
      ensures Valid() && Emitted(old(b), b, s) && b.pos == old(b).pos
      ensures curBreak == old(curBreak) && curCont == old(curCont)
    {
      ghost var b0 := b;
      EmittedNothing(b);
      for k := 0 to |s|
        invariant Valid() && Emitted(b0, b, s[..k]) && b.pos == b0.pos
        invariant curBreak == old(curBreak) && curCont == old(curCont)
      {
        ghost var b1 := b;
        Put(s[k]);
        EmittedTrans(b0, b1, b, s[..k], [s[k]]);
        assert s[..k + 1] == s[..k] + [s[k]];
      }
      assert s[..|s|] == s;
    }

    /** one shift and one or */
    method PutByte(rd: nat, v: nat)
      requires Valid() && rd < 32 && v < 256
      modifies this
      ensures Valid() && Emitted(old(b), b, [OpImm(SLLI, rd, rd, 8), OpImm(ORI, rd, rd, v)]) && b.pos == old(b).pos
      ensures curBreak == old(curBreak) && curCont == old(curCont)
    {
      ghost var b0 := b;
      var i1, i2 := OpImm(SLLI, rd, rd, 8), OpImm(ORI, rd, rd, v);
      Put(i1);
      ghost var b1 := b;
      Put(i2);
      EmittedTrans(b0, b1, b, [i1], [i2]);
      assert [i1, i2] == [i1] + [i2];
    }

    /** the byte-by-byte constant of i_li and i_addi, for the low n bytes */
    method PutBytes(rd: nat, u: nat, n: nat)
      requires Valid() && rd < 32
      modifies this
      ensures Valid() && Emitted(old(b), b, LoadBytes(rd, u, n)) && b.pos == old(b).pos
      ensures curBreak == old(curBreak) && curCont == old(curCont)
    {
      ghost var b0 := b;
      ghost var done: seq<Instr> := [];
      EmittedNothing(b);
      var k := n;
      while k > 0
        invariant 0 <= k <= n && Valid() && Emitted(b0, b, done) && b.pos == b0.pos
        invariant done + LoadBytes(rd, u, k) == LoadBytes(rd, u, n)
        invariant curBreak == old(curBreak) && curCont == old(curCont)
      {
        k := k - 1;
        ghost var b1, pair := b, [OpImm(SLLI, rd, rd, 8), OpImm(ORI, rd, rd, ShiftBytes(u, k) % 256)];
        PutByte(rd, ShiftBytes(u, k) % 256);
        EmittedTrans(b0, b1, b, done, pair);
        done := done + pair;
      }
      assert done + [] == done;
    }

    method PutLi(rd: nat, v: int)
      requires Valid() && rd < 32
      modifies this
      ensures Valid() && Emitted(old(b), b, Li(rd, v)) && b.pos == old(b).pos
      ensures curBreak == old(curBreak) && curCont == old(curCont)
    {
      if -2048 <= v <= 2047 {
        Put(OpImm(ADDI, rd, X0, v));
      } else if InS32(v) {
        var hi := (v + 0x800) / 4096;
        var i1, i2 := Lui(rd, Sext20(hi)), OpImm(ADDIW, rd, rd, v - hi * 4096);
        Put(i1);
        ghost var b1 := b;
        Put(i2);
        EmittedTrans(old(b), b1, b, [i1], [i2]);
      } else {
        var i1 := OpImm(ADDI, rd, X0, 0);
        Put(i1);
        ghost var b1 := b;
        PutBytes(rd, Unsigned(Wrap64(v)), 8);
        EmittedTrans(old(b), b1, b, [i1], LoadBytes(rd, Unsigned(Wrap64(v)), 8));
      }
    }

    method PutAddi(rd: nat, rs: nat, imm: int)
      requires Valid() && rd < 32 && rs < 32
      modifies this
      ensures Valid() && Emitted(old(b), b, Addi(rd, rs, imm)) && b.pos == old(b).pos
      ensures curBreak == old(curBreak) && curCont == old(curCont)
    {
      if -2048 <= imm <= 2047 {
        Put(OpImm(ADDI, rd, rs, imm));
      } else {
        var i1, i2 := OpImm(ADDI, T6, X0, 0), Op(Arith(Add), rd, rs, T6);
        ghost var seg := LoadBytes(T6, Unsigned(Wrap64(imm)), 8);
        Put(i1);
        ghost var b1 := b;
        PutBytes(T6, Unsigned(Wrap64(imm)), 8);
        EmittedTrans(old(b), b1, b, [i1], seg);
        ghost var b2 := b;
        Put(i2);
        EmittedTrans(old(b), b2, b, [i1] + seg, [i2]);
      }
    }

    /** patch_fixups: fills in the distance of every recorded jump; false is the
        fatal error for an unplaced label or a jump out of range */
    method PatchFixups() returns (ok: bool)
      requires Valid()
      modifies this
      ensures ok <==> Patchable(old(b))
      ensures ok ==> Valid() && fixups == [] && b.pos == old(b).pos && b.jump == map[] && |b.ins| == |old(b).ins|
      ensures ok ==> forall k: nat {:trigger b.ins[k]} | k < |b.ins| :: b.ins[k] == Final(old(b), old(b).pos, k)
      ensures curBreak == old(curBreak) && curCont == old(curCont)
    {
      ghost var b0 := b;
      forall k: nat {:trigger EncodedAt(words, b0.ins, k)} | k < |words|
        ensures EncodedAt(words, b0.ins, k)
      {
        assert WordOk(k);
      }
      forall k {:trigger Recorded(fixups, b0, k)} | k in b0.jump ensures Recorded(fixups, b0, k) { assert Pending(k); }
      forall i: nat {:trigger IsJump(fixups, b0, i)} | i < |fixups| ensures IsJump(fixups, b0, i) { assert FixupOk(i); }
      var out;
      ghost var ins;
      ok, out, ins := PatchWords(words, fixups, labelPos, b0);
      if ok {
        words := out;
        fixups := [];
        b := Buf(ins, map[], b0.pos);
        forall k: nat {:trigger WordOk(k)} | k < |words| ensures WordOk(k) { assert EncodedAt(out, ins, k); }
      }
    }
  }

  ghost predicate IsJump(fs: seq<Fixup>, b: Buf, i: nat)
    requires i < |fs|
  {
    HasJump(b, fs[i].at, fs[i].lbl)
  }

  ghost predicate InReach(fs: seq<Fixup>, b: Buf, i: nat)
    requires i < |fs|
  {
    fs[i].at in b.jump && Reaches(b, fs[i].at)
  }

  ghost predicate Recorded(fs: seq<Fixup>, b: Buf, k: nat)
    requires k in b.jump
  {
    Fixup(k, b.jump[k]) in fs
  }

  ghost predicate EncodedAt(words: seq<nat>, ins: seq<Instr>, k: nat)
    requires k < |words| == |ins|
  {
    words[k] == Encode(ins[k]) && Legal(ins[k])
  }

  /** the words encode the instructions */
  ghost predicate Encoded(words: seq<nat>, ins: seq<Instr>) {
    |words| == |ins| && forall k: nat {:trigger EncodedAt(words, ins, k)} | k < |words| :: EncodedAt(words, ins, k)
  }

  /** word k is final, or still waits for one of the fixups in rest */
  ghost predicate PatchedSoFar(ins: seq<Instr>, b: Buf, k: nat, rest: seq<Fixup>)
    requires k < |ins| == |b.ins|
  {
    ins[k] == Final(b, b.pos, k) || (ins[k] == b.ins[k] && k in b.jump && Fixup(k, b.jump[k]) in rest)
  }

  /** overwriting one word with a jump */
  method PutJump(words: seq<nat>, ghost ins: seq<Instr>, at: nat, i: Instr) returns (out: seq<nat>)
    requires Encoded(words, ins) && at < |words| && Legal(i)
    ensures Encoded(out, ins[at := i])
  {
    out := words[at := Encode(i)];
    ghost var ins' := ins[at := i];
    forall k: nat {:trigger EncodedAt(out, ins', k)} | k < |out| ensures EncodedAt(out, ins', k) {
      if k != at { assert EncodedAt(words, ins, k); }
    }
  }

  /** the loop of patch_fixups */
  method PatchWords(words: seq<nat>, fs: seq<Fixup>, pos: seq<int>, ghost b: Buf)
    returns (ok: bool, out: seq<nat>, ghost ins: seq<Instr>)
    requires BufOk(b) && Encoded(words, b.ins) && pos == b.pos
    requires forall k {:trigger Recorded(fs, b, k)} | k in b.jump :: Recorded(fs, b, k)
    requires forall i: nat {:trigger IsJump(fs, b, i)} | i < |fs| :: IsJump(fs, b, i)
    ensures ok <==> Patchable(b)
    ensures ok ==> Encoded(out, ins) && |ins| == |b.ins| && forall k: nat {:trigger ins[k]} | k < |ins| ::
      ins[k] == Final(b, b.pos, k)
  {
    ok, out, ins := true, words, b.ins;
    var i := 0;
    PatchStart(b, fs);
    while i < |fs|
      invariant 0 <= i <= |fs| && ok && Encoded(out, ins)
      invariant forall j: nat {:trigger InReach(fs, b, j)} | j < i :: InReach(fs, b, j)
      invariant AllSoFar(ins, b, fs[i..])
    {
      var f := fs[i];
      assert IsJump(fs, b, i);
      var off := 4 * (pos[f.lbl] - f.at);
      if pos[f.lbl] < 0 || off < -0x10_0000 || off >= 0x10_0000 {
        ok := false;
        assert !Reaches(b, f.at);
        return;
      }
      assert InReach(fs, b, i);
      var jal := Jal(X0, off);
      JalLegal(pos[f.lbl] - f.at);
      assert fs[i..] == [f] + fs[i + 1..];
      PatchStep(ins, b, f, off, fs[i + 1..]);
      out := PutJump(out, ins, f.at, jal);
      ins := ins[f.at := jal];
      i := i + 1;
    }
    PatchEnd(ins, b, fs);
  }

  lemma JalLegal(d: int)
    requires -0x10_0000 <= 4 * d < 0x10_0000
    ensures Legal(Jal(X0, 4 * d))
  {
    ModIs(4 * d, 2, 2 * d, 0);
  }

  ghost predicate AllSoFar(ins: seq<Instr>, b: Buf, rest: seq<Fixup>) {
    |ins| == |b.ins| && forall k: nat {:trigger PatchedSoFar(ins, b, k, rest)} | k < |ins| ::
      PatchedSoFar(ins, b, k, rest)
  }

  lemma PatchStart(b: Buf, fs: seq<Fixup>)
    requires forall k {:trigger Recorded(fs, b, k)} | k in b.jump :: Recorded(fs, b, k)
    ensures AllSoFar(b.ins, b, fs[0..])
  {
    assert fs[0..] == fs;
    forall k: nat {:trigger PatchedSoFar(b.ins, b, k, fs)} | k < |b.ins| ensures PatchedSoFar(b.ins, b, k, fs) {
      if k in b.jump { assert Recorded(fs, b, k); }
    }
  }

  lemma PatchStep(ins: seq<Instr>, b: Buf, f: Fixup, off: int, next: seq<Fixup>)
    requires BufOk(b) && AllSoFar(ins, b, [f] + next) && HasJump(b, f.at, f.lbl) && off == 4 * (b.pos[f.lbl] - f.at)
    ensures AllSoFar(ins[f.at := Jal(X0, off)], b, next)
  {
    var ins', rest := ins[f.at := Jal(X0, off)], [f] + next;
    forall k: nat {:trigger PatchedSoFar(ins', b, k, next)} | k < |ins'| ensures PatchedSoFar(ins', b, k, next) {
      assert PatchedSoFar(ins, b, k, rest);
    }
  }

  lemma PatchEnd(ins: seq<Instr>, b: Buf, fs: seq<Fixup>)
    requires AllSoFar(ins, b, fs[|fs|..])
    requires forall k {:trigger Recorded(fs, b, k)} | k in b.jump :: Recorded(fs, b, k)
    requires forall j: nat {:trigger InReach(fs, b, j)} | j < |fs| :: InReach(fs, b, j)
    ensures Patchable(b) && forall k: nat {:trigger ins[k]} | k < |ins| :: ins[k] == Final(b, b.pos, k)
  {
    forall k: nat {:trigger ins[k]} | k < |ins|
      ensures ins[k] == Final(b, b.pos, k)
    {
      assert PatchedSoFar(ins, b, k, fs[|fs|..]);
    }
    forall k {:trigger Reaches(b, k)} | k in b.jump ensures Reaches(b, k) {
      assert Recorded(fs, b, k);
      var j: nat :| j < |fs| && fs[j] == Fixup(k, b.jump[k]);
      assert InReach(fs, b, j);
    }
  }

  lemma EmittedNothing(b: Buf)
    requires BufOk(b)
    ensures Emitted(b, b, [])
  {
  }
}
