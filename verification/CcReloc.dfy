/** Addresses from emission to link: i_la and i_call_sym leave blank words and
    relocations behind, each at a site of its own; after patching every pair loads
    its symbol's address and every call lands on its symbol. */
module CcReloc {
  import opened Options
  import opened RvArith
  import opened RvMachine
  import opened RvEncode
  import opened CcUnit
  import opened CcMacros
  import opened CcLink

  /** what the code was emitted for; at is a byte position, addends are patterns */
  datatype Use = AddressOf(at: nat, rd: nat, sym: nat, addend: nat) | CallTo(at: nat, rd: nat, sym: nat)

  function Count(u: Use): nat { if u.AddressOf? then 2 else 1 }

  /** an unlinked word names the registers that patching keeps */
  predicate Blank(u: Use, k: nat, w: nat) { RdOf(w) == u.rd && (u.AddressOf? && k > 0 ==> Rs1Of(w) == u.rd) }

  function AddendOf(u: Use): nat { if u.CallTo? then 0 else u.addend }

  /** the relocation for the k-th word of a use */
  function SiteOf(u: Use, k: nat): Reloc {
    Reloc(u.at + 4 * k, if u.CallTo? then R_JAL else if k == 0 then R_HI20 else R_LO12I, u.sym, AddendOf(u))
  }

  ghost predicate UseAt(code: bytes, rs: seq<Reloc>, u: Use, k: nat) {
    u.at + 4 * k + 4 <= |code| && Blank(u, k, WordAt(code, u.at + 4 * k)) && SiteOf(u, k) in rs
  }

  /** the blank words and their relocations are in place */
  ghost predicate UseOk(code: bytes, rs: seq<Reloc>, u: Use) {
    u.rd < 32 && forall k: nat {:trigger UseAt(code, rs, u, k)} | k < Count(u) :: UseAt(code, rs, u, k)
  }

  class CodeBuffer {
    var code: bytes
    /** newest first */
    var relocs: seq<Reloc>
    ghost var uses: seq<Use>

    /** sites lie in the code, no two share a byte, and every use has its own */
    ghost predicate Valid()
      reads this
    {
      && RelocsOk(relocs, |code|) && SitesApart(relocs)
      && forall i | 0 <= i < |uses| :: UseOk(code, relocs, uses[i])
    }

    constructor ()
      ensures Valid() && code == [] && relocs == [] && uses == []
    {
      code, relocs, uses := [], [], [];
    }

    /** emit32 */
    method Emit(w: nat)
      requires Valid() && w < M32
      modifies this`code
      ensures Valid() && code == old(code) + U32(w)
    {
      ghost var was := code;
      code := code + U32(w);
      forall i | 0 <= i < |uses| ensures UseOk(code, relocs, uses[i]) { UseKept(was, relocs, code, relocs, uses[i]); }
    }

    /** add_reloc followed by the word it is for */
    method EmitFor(kind: nat, sym: nat, addend: nat, w: nat)
      requires Valid() && w < M32
      modifies this`code, this`relocs
      ensures Valid() && code == old(code) + U32(w)
      ensures relocs == [Reloc(|old(code)|, kind, sym, addend)] + old(relocs)
    {
      ghost var was, rs := code, relocs;
      relocs := [Reloc(|code|, kind, sym, addend)] + relocs;
      code := code + U32(w);
      forall i | 0 <= i < |uses| ensures UseOk(code, relocs, uses[i]) { UseKept(was, rs, code, relocs, uses[i]); }
    }

    /** i_la */
    method La(rd: nat, sym: nat, addend: nat)
      requires Valid() && rd < 32
      modifies this
      ensures Valid() && uses == old(uses) + [AddressOf(|old(code)|, rd, sym, addend)]
      ensures LaWords(rd).0 < M32 && LaWords(rd).1 < M32
      ensures code == old(code) + U32(LaWords(rd).0) + U32(LaWords(rd).1)
    {
      ghost var u, was, rs := AddressOf(|code|, rd, sym, addend), code, relocs;
      LaFields(rd);
      var (w1, w2) := LaWords(rd);
      EmitFor(R_HI20, sym, addend, w1);
      EmitFor(R_LO12I, sym, addend, w2);
      PairAdded(was, rs, code, relocs, u, w1, w2);
      uses := uses + [u];
    }

    /** i_call_sym */
    method CallSym(sym: nat)
      requires Valid()
      modifies this
      ensures Valid() && uses == old(uses) + [CallTo(|old(code)|, RA, sym)]
      ensures EncJ(0x6f, RA, 0) < M32 && code == old(code) + U32(EncJ(0x6f, RA, 0))
    {
      var rd := RA;
      ghost var u, was, rs := CallTo(|code|, rd, sym), code, relocs;
      var w := EncJ(0x6f, rd, 0);
      CallFields(rd);
      EmitFor(R_JAL, sym, 0, w);
      CallAdded(was, rs, code, relocs, u, w);
      uses := uses + [u];
    }
  }

  lemma CallFields(rd: nat)
    requires rd < 32
    ensures RdOf(EncJ(0x6f, rd, 0)) == rd && EncJ(0x6f, rd, 0) < M32
  {
    JRead(0x6f, rd, 0);
    JSum(0x6f, rd, 0);
  }

  /** a word at the end of the code reads back */
  lemma LastWord(code: bytes, w: nat, more: bytes)
    requires w < M32
    ensures WordAt(code + U32(w) + more, |code|) == w
  {
    Digits(w);
  }

  lemma PairAdded(code: bytes, rs: seq<Reloc>, code': bytes, rs': seq<Reloc>, u: Use, w1: nat, w2: nat)
    requires u.AddressOf? && u.rd < 32 && u.at == |code| && Blank(u, 0, w1) && Blank(u, 1, w2) && w1 < M32 && w2 < M32
    requires code' == code + U32(w1) + U32(w2)
    requires rs' == [Reloc(|code| + 4, R_LO12I, u.sym, u.addend)] + ([Reloc(|code|, R_HI20, u.sym, u.addend)] + rs)
    ensures UseOk(code', rs', u)
  {
    assert rs'[1] == SiteOf(u, 0) && rs'[0] == SiteOf(u, 1);
    LastWord(code, w1, U32(w2));
    LastWord(code + U32(w1), w2, []);
    assert code' == (code + U32(w1)) + U32(w2) + [];
    forall k: nat {:trigger UseAt(code', rs', u, k)} | k < Count(u) ensures UseAt(code', rs', u, k) {}
  }

  lemma CallAdded(code: bytes, rs: seq<Reloc>, code': bytes, rs': seq<Reloc>, u: Use, w: nat)
    requires u.CallTo? && u.rd < 32 && u.at == |code| && Blank(u, 0, w) && w < M32 && code' == code + U32(w)
    requires rs' == [Reloc(|code|, R_JAL, u.sym, 0)] + rs
    ensures UseOk(code', rs', u)
  {
    assert rs'[0] == SiteOf(u, 0);
    LastWord(code, w, []);
    assert code' == code + U32(w) + [];
    forall k: nat {:trigger UseAt(code', rs', u, k)} | k < Count(u) ensures UseAt(code', rs', u, k) {}
  }

  lemma UseKept(code: bytes, rs: seq<Reloc>, code': bytes, rs': seq<Reloc>, u: Use)
    requires UseOk(code, rs, u) && code <= code' && forall r | r in rs :: r in rs'
    ensures UseOk(code', rs', u)
  {
    forall k: nat {:trigger UseAt(code', rs', u, k)} | k < Count(u) ensures UseAt(code', rs', u, k) {
      assert UseAt(code, rs, u, k);
    }
  }

  // ----- linking -----

  /** A link as the words see it: how relocations change them, how they decode,
      which symbols have an address, sym + addend, and where a position ends up. */
  datatype Linker = Linker(
    fix: Fixer, dec: nat -> Option<Instr>, known: nat -> bool, target: (nat, nat) -> nat, pc: nat -> nat)

  ghost predicate FixAt(K: Linker, r: Reloc, was: nat) {
    K.fix(r, was) == if K.known(r.sym) then PatchWord(r.kind, was, K.target(r.sym, r.addend), K.pc(r.pos)) else None
  }

  ghost predicate DecAt(K: Linker, w: nat) { K.dec(w) == Decode(w) }

  /** fix is patch_unit_relocs's switch, dec the machine's decoder */
  ghost predicate Links(K: Linker) {
    && (forall r, was {:trigger FixAt(K, r, was)} :: FixAt(K, r, was))
    && (forall w {:trigger DecAt(K, w)} :: DecAt(K, w))
  }

  function LinkerFor(addrs: Addrs, base: nat): Linker {
    Linker(
      FixerFor(addrs, base), (w: nat) => Decode(w), (sym: nat) => Known(addrs, sym),
      (sym: nat, addend: nat) => if Known(addrs, sym) then Target(addrs, sym, addend) else 0,
      (pos: nat) => (base + pos) % M64)
  }

  lemma LinkerLinks(addrs: Addrs, base: nat)
    ensures Links(LinkerFor(addrs, base))
  {
    var K := LinkerFor(addrs, base);
    forall r, was {:trigger FixAt(K, r, was)} ensures FixAt(K, r, was) {}
    forall w {:trigger DecAt(K, w)} ensures DecAt(K, w) {}
  }

  /** the k-th instruction of a linked use: the pair builds the address t, the jal
      at pc goes there */
  function LinkedIns(u: Use, k: nat, t: nat, pc: nat): Instr {
    if u.CallTo? then Jal(u.rd, Wrap64(t) - Wrap64(pc))
    else if k == 0 then Lui(u.rd, Sext20(Upper(t)))
    else OpImm(ADDI, u.rd, u.rd, Lower(t))
  }

  function InsOf(K: Linker, u: Use, k: nat): Instr {
    var r := SiteOf(u, k);
    LinkedIns(u, k, K.target(r.sym, r.addend), K.pc(r.pos))
  }

  ghost predicate LinkedAt(K: Linker, out: bytes, u: Use, k: nat) {
    var r := SiteOf(u, k);
    r.pos + 4 <= |out| && K.known(r.sym) && K.dec(WordAt(out, r.pos)) == Some(InsOf(K, u, k))
  }

  ghost predicate Linked(K: Linker, out: bytes, u: Use) {
    forall k: nat {:trigger LinkedAt(K, out, u, k)} | k < Count(u) :: LinkedAt(K, out, u, k)
  }

  /** the word at each site is the patch of the word emitted there */
  lemma SiteFixed(code: bytes, rs: seq<Reloc>, f: Fixer, out: bytes, r: Reloc)
    requires RelocsOk(rs, |code|) && SitesApart(rs) && PatchAll(code, rs, f) == Some(out) && r in rs
    ensures |out| == |code| && r.pos + 4 <= |code| && f(r, WordAt(code, r.pos)).Some?
    ensures WordAt(out, r.pos) == f(r, WordAt(code, r.pos)).value % M32
  {
    PatchPointwise(code, rs, f);
    var i: nat :| i < |rs| && rs[i] == r;
    assert FixedBy(code, out, rs, i, f);
  }

  lemma UpperDecodes(rd: nat, was: nat, t: nat, pc: nat, w: nat)
    requires rd < 32 && RdOf(was) == rd && PatchWord(R_HI20, was, t, pc) == Some(w)
    ensures w < M32 && Decode(w) == Some(Lui(rd, Sext20(Upper(t))))
  {
    LaFields(rd);
    LaDecodes(rd, t, pc);
  }

  lemma LowerDecodes(rd: nat, was: nat, t: nat, pc: nat, w: nat)
    requires rd < 32 && RdOf(was) == Rs1Of(was) == rd && PatchWord(R_LO12I, was, t, pc) == Some(w)
    ensures w < M32 && Decode(w) == Some(OpImm(ADDI, rd, rd, Lower(t)))
  {
    LaFields(rd);
    LaDecodes(rd, t, pc);
  }

  lemma CallDecodes(rd: nat, was: nat, t: nat, pc: nat, w: nat)
    requires rd < 32 && RdOf(was) == rd && PatchWord(R_JAL, was, t, pc) == Some(w)
    ensures w < M32 && Decode(w) == Some(Jal(rd, Wrap64(t) - Wrap64(pc)))
  {
    CallFields(rd);
    CallLands(rd, t, pc);
  }

  /** what patching makes of the k-th word of a use decodes as it should */
  lemma UseDecodes(u: Use, k: nat, t: nat, pc: nat, was: nat, w: nat)
    requires u.rd < 32 && k < Count(u) && Blank(u, k, was) && PatchWord(SiteOf(u, k).kind, was, t, pc) == Some(w)
    ensures w < M32 && Decode(w) == Some(LinkedIns(u, k, t, pc))
  {
    if u.CallTo? {
      CallDecodes(u.rd, was, t, pc, w);
    } else if k == 0 {
      UpperDecodes(u.rd, was, t, pc, w);
    } else {
      LowerDecodes(u.rd, was, t, pc, w);
    }
  }

  lemma FixedIs(K: Linker, r: Reloc, was: nat, w: nat)
    requires Links(K) && K.fix(r, was) == Some(w)
    ensures K.known(r.sym) && PatchWord(r.kind, was, K.target(r.sym, r.addend), K.pc(r.pos)) == Some(w)
  {
    assert FixAt(K, r, was);
  }

  lemma DecodedIs(K: Linker, w: nat, i: Instr)
    requires Links(K) && Decode(w) == Some(i)
    ensures K.dec(w) == Some(i)
  {
    assert DecAt(K, w);
  }

  lemma FixedDecodes(K: Linker, u: Use, k: nat, was: nat, w: nat)
    requires Links(K) && u.rd < 32 && k < Count(u) && Blank(u, k, was) && K.fix(SiteOf(u, k), was) == Some(w)
    ensures K.known(SiteOf(u, k).sym) && w < M32 && K.dec(w) == Some(InsOf(K, u, k))
  {
    var r := SiteOf(u, k);
    FixedIs(K, r, was, w);
    UseDecodes(u, k, K.target(r.sym, r.addend), K.pc(r.pos), was, w);
    DecodedIs(K, w, InsOf(K, u, k));
  }

  lemma WordLinked(K: Linker, u: Use, k: nat, out: bytes, was: nat, w: nat)
    requires Links(K) && u.rd < 32 && k < Count(u) && Blank(u, k, was) && K.fix(SiteOf(u, k), was) == Some(w)
    requires SiteOf(u, k).pos + 4 <= |out| && WordAt(out, SiteOf(u, k).pos) == w % M32
    ensures LinkedAt(K, out, u, k)
  {
    FixedDecodes(K, u, k, was, w);
  }

  lemma UseFixed(code: bytes, rs: seq<Reloc>, f: Fixer, out: bytes, u: Use, k: nat) returns (was: nat, w: nat)
    requires RelocsOk(rs, |code|) && SitesApart(rs) && UseAt(code, rs, u, k) && PatchAll(code, rs, f) == Some(out)
    ensures SiteOf(u, k).pos + 4 <= |code| == |out| && Blank(u, k, was) && f(SiteOf(u, k), was) == Some(w)
    ensures WordAt(out, SiteOf(u, k).pos) == w % M32
  {
    SiteFixed(code, rs, f, out, SiteOf(u, k));
    was := WordAt(code, u.at + 4 * k);
    w := f(SiteOf(u, k), was).value;
  }

  lemma UseLinked(code: bytes, rs: seq<Reloc>, u: Use, K: Linker, out: bytes)
    requires RelocsOk(rs, |code|) && SitesApart(rs) && UseOk(code, rs, u) && Links(K)
    requires PatchAll(code, rs, K.fix) == Some(out)
    ensures Linked(K, out, u)
  {
    forall k: nat {:trigger LinkedAt(K, out, u, k)} | k < Count(u) ensures LinkedAt(K, out, u, k) {
      assert UseAt(code, rs, u, k);
      var was, w := UseFixed(code, rs, K.fix, out, u, k);
      WordLinked(K, u, k, out, was, w);
    }
  }

  /** After a successful link every use emitted is right, for any symbol addresses
      and any text base. */
  lemma UsesLinked(code: bytes, rs: seq<Reloc>, u: Use, addrs: Addrs, base: nat, out: bytes)
    requires RelocsOk(rs, |code|) && SitesApart(rs) && UseOk(code, rs, u)
    requires PatchAll(code, rs, FixerFor(addrs, base)) == Some(out)
    ensures Linked(LinkerFor(addrs, base), out, u)
  {
    LinkerLinks(addrs, base);
    UseLinked(code, rs, u, LinkerFor(addrs, base), out);
  }

  /** A linked pair leaves symbol plus addend in rd exactly when that address is
      within the reach of a sign-extended lui and addi; it changes nothing else. */
  lemma LinkedLoads(code: Code, m: Machine, K: Linker, out: bytes, u: Use) returns (m': Machine)
    requires u.AddressOf? && LinkedAt(K, out, u, 0) && LinkedAt(K, out, u, 1) && K.target(u.sym, u.addend) < M64
    requires Ok(m) && 0 < u.rd < 32
    requires At(code, m.pc, [K.dec(WordAt(out, u.at)).value, K.dec(WordAt(out, u.at + 4)).value])
    ensures
      var t := K.target(u.sym, u.addend);
      && Goes(code, m, m') && |m'.regs| == 32 && m' == With(m, 2, u.rd, m'.regs[u.rd])
      && (m'.regs[u.rd] == Wrap64(t) <==> t < 0x7fff_f800 || t >= M64 - 0x8000_0800)
  {
    var t := K.target(u.sym, u.addend);
    LaRuns(code, m, u.rd, t);
    LaExact(t);
    m' := With(m, 2, u.rd, LaValue(t));
  }
}
