/** Whole functions: frame layout, prologue, body, return. */
module CcFunction {
  import opened Options
  import opened RvArith
  import opened Bytes
  import opened RvMachine
  import opened CcMacros
  import opened CcSource
  import opened CcCode
  import opened CcFrame
  import opened CcStmt
  import opened CcStmtProof

  // ----- frame layout -----

  /** bytes set aside for an object of the given size */
  function Alloc(size: nat): (r: nat)
    ensures r % 8 == 0 && r >= 8 && r >= size
  {
    if size > 8 then AlignTo(size, 8) else 8
  }

  /** an object at frame offset `off` (below s0) taking `len` bytes: its bytes are
      those between s0 - off and s0 - off + len */
  datatype Slot = Slot(off: nat, len: nat)

  predicate Apart(p: Slot, q: Slot) { p.off - p.len >= q.off || q.off - q.len >= p.off }

  /** new_local and the frame bookkeeping of parse_function */
  class FrameLayout {
    var localsSize: nat
    var slots: seq<Slot>

    /** Every slot is aligned, avoids the two saved words, ends at or above the
        eventual stack pointer, and is disjoint from every other slot. */
    ghost predicate Valid()
      reads this
    {
      && localsSize >= 16 && localsSize % 8 == 0
      && (forall i | 0 <= i < |slots| :: slots[i].off % 8 == 0 && 16 + slots[i].len <= slots[i].off <= localsSize)
      && (forall i, j | 0 <= i < j < |slots| :: Apart(slots[i], slots[j]))
    }

    constructor ()
      ensures Valid() && slots == [] && localsSize == 16
    {
      localsSize := 16;
      slots := [];
    }

    method NewLocal(size: nat) returns (off: nat)
      requires Valid() && size > 0
      modifies this
      ensures Valid() && off == localsSize == old(localsSize) + Alloc(size)
      ensures slots == old(slots) + [Slot(off, Alloc(size))]
    {
      localsSize := localsSize + Alloc(size);
      off := localsSize;
      slots := slots + [Slot(off, Alloc(size))];
    }

    /** the frame size: sp stays 16-byte aligned and every slot lies at or above it */
    method FrameSize() returns (f: nat)
      requires Valid()
      ensures f == AlignTo(localsSize, 16)
      ensures f % 16 == 0 && 16 <= f && forall i | 0 <= i < |slots| :: slots[i].off <= f
    {
      f := AlignTo(localsSize, 16);
    }
  }

  /** parameters come first among the locals, at most eight, in a0 to a7; a variadic
      function has a va area of eight words between them and the others */
  datatype Function = Function(params: nat, variadic: bool, locals: seq<Ty>, body: Stmt)

  /** where the i-th of consecutive 8-byte slots ends up */
  function Offset(i: nat): nat { 24 + 8 * i }

  function VaLen(fn: Function): nat { if fn.variadic then 64 else 0 }

  /** the frame offset of the i-th local */
  function LocalOff(fn: Function, i: nat): nat { Offset(i) + if i >= fn.params then VaLen(fn) else 0 }

  /** the frame offset of the va area */
  function VaOff(fn: Function): nat { Offset(fn.params) + 56 }

  function FrameOf(fn: Function): nat { AlignTo(16 + 8 * |fn.locals| + VaLen(fn), 16) }

  /** declaring the parameters, the va area and the other locals one after the other
      yields those offsets, in slots that are pairwise disjoint */
  method ScalarFrame(fn: Function) returns (offs: seq<nat>, va: nat, f: nat, slots: seq<Slot>)
    requires fn.params <= |fn.locals|
    ensures |offs| == |fn.locals| && forall i | 0 <= i < |offs| :: offs[i] == LocalOff(fn, i)
    ensures f == FrameOf(fn) && (fn.variadic ==> va == VaOff(fn) && Slot(va, 64) in slots)
    ensures forall i | 0 <= i < |offs| :: Slot(offs[i], 8) in slots
    ensures forall i, j | 0 <= i < j < |slots| :: Apart(slots[i], slots[j])
    ensures forall i | 0 <= i < |slots| :: 16 + slots[i].len <= slots[i].off <= f
  {
    var fl := new FrameLayout();
    offs, va := [], 0;
    for k := 0 to |fn.locals|
      invariant fl.Valid() && fresh(fl) && |offs| == k
      invariant fl.localsSize == 16 + 8 * k + (if k > fn.params then VaLen(fn) else 0)
      invariant forall i | 0 <= i < k :: offs[i] == LocalOff(fn, i) && Slot(offs[i], 8) in fl.slots
      invariant fn.variadic && k > fn.params ==> va == VaOff(fn) && Slot(va, 64) in fl.slots
    {
      if k == fn.params && fn.variadic { va := fl.NewLocal(64); }
      var off := fl.NewLocal(match fn.locals[k] case I32 => 4 case I64 => 8);
      assert fl.slots[|fl.slots| - 1] == Slot(off, 8);
      offs := offs + [off];
    }
    if |fn.locals| == fn.params && fn.variadic { va := fl.NewLocal(64); }
    f := fl.FrameSize();
    slots := fl.slots;
  }

  function LayoutOf(fn: Function): Layout {
    map i | 0 <= i < |fn.locals| :: LocalOff(fn, i) := fn.locals[i]
  }

  // ----- code -----

  function ParamCode(k: nat): seq<Instr> { Addi(T0, S0, 0 - Offset(k)) + [Store(Double, A0 + k, T0, 0)] }

  /** the stores of parameters k, k+1, ..., n-1 */
  function ParamsCode(k: nat, n: nat): seq<Instr>
    decreases n - k
  {
    if k >= n then [] else ParamCode(k) + ParamsCode(k + 1, n)
  }

  /** save s0 in t0, move sp and s0, store the saved registers */
  function OpenCode(f: nat): seq<Instr> {
    Mv(T0, S0) +
      (Addi(SP, SP, 0 - f) + (Addi(S0, SP, f) + ([Store(Double, RA, S0, -8)] + [Store(Double, T0, S0, -16)])))
  }

  /** the argument registers a variadic function saves */
  const VA_WORDS: nat := 8

  /** the stores of argument registers k to n - 1 into the va area at t0 */
  function VaStores(k: nat, n: nat): seq<Instr>
    decreases n - k
  {
    if k >= n then [] else [Store(Double, A0 + k, T0, 8 * k)] + VaStores(k + 1, n)
  }

  function VaCode(fn: Function): seq<Instr> {
    if fn.variadic then Addi(T0, S0, 0 - VaOff(fn)) + VaStores(0, VA_WORDS) else []
  }

  function PrologueCode(fn: Function): seq<Instr> {
    OpenCode(FrameOf(fn)) + (ParamsCode(0, fn.params) + VaCode(fn))
  }

  /** a function at word `here` */
  ghost predicate LaidFunction(L: ExprLang, code: Code, fn: Function, here: int) {
    Place(code, here, PrologueCode(fn)) && BodyLaid(L, code, fn, here + |PrologueCode(fn)|)
  }

  /** its body, followed by `return 0` */
  ghost predicate BodyLaid(L: ExprLang, code: Code, fn: Function, body0: int) {
    Laid(L, code, fn.body, body0, 0, 0) && Place(code, body0 + Len(L, fn.body), Li(A0, 0) + EpilogueCode())
  }

  predicate OkFunction(L: ExprLang, fn: Function, n: nat) {
    && fn.params <= |fn.locals| && fn.params <= 8 && FrameOf(fn) < H32
    && OkS(L, fn.body, LayoutOf(fn), n, false, false)
  }

  /** the locals on entry: parameters from the argument registers, truncated to
      their type; the rest is whatever the stack holds */
  ghost function EntryValue(fn: Function, m: Machine, i: nat): int
    requires |m.regs| == 32 && i < |fn.locals| && fn.params <= 8
  {
    if i < fn.params then Wrap(fn.locals[i], m.regs[A0 + i])
    else LoadVar(fn.locals[i], m.mem, m.regs[SP] - LocalOff(fn, i))
  }

  ghost function EntryEnv(fn: Function, m: Machine): Env
    requires |m.regs| == 32 && fn.params <= 8
  {
    map i | 0 <= i < |fn.locals| :: LocalOff(fn, i) := EntryValue(fn, m, i)
  }

  /** what the caller sees when the function has returned: result in a0, sp, s0
      and ra as before, control at the return address, memory at or above sp
      untouched */
  ghost predicate BackInCaller(m: Machine, m': Machine, v: int) {
    && |m.regs| == 32 && Ok(m') && m'.regs[A0] == v
    && m'.regs[SP] == m.regs[SP] && m'.regs[S0] == m.regs[S0] && m'.regs[RA] == m.regs[RA]
    && m'.pc == m.regs[RA] - m.regs[RA] % 2
    && forall a {:trigger KeptAt(m, m', a)} | a >= m.regs[SP] :: KeptAt(m, m', a)
  }

  // ----- prologue -----

  ghost predicate SameArg(m: Machine, m1: Machine, i: nat)
    requires |m.regs| == 32 && |m1.regs| == 32 && i < 8
  {
    m1.regs[A0 + i] == m.regs[A0 + i]
  }

  /** after the first part of the prologue */
  ghost predicate Opened(m: Machine, m1: Machine, f: nat) {
    && |m.regs| == 32 && Ok(m1) && m1.regs[SP] == m.regs[SP] - f && m1.regs[S0] == m.regs[SP]
    && m1.regs[RA] == m.regs[RA] && (forall i: nat {:trigger SameArg(m, m1, i)} | i < 8 :: SameArg(m, m1, i))
    && m1.mem == m.mem[m.regs[SP] - 8 := m.regs[RA]][m.regs[SP] - 16 := m.regs[S0]]
  }

  lemma SdStep(code: Code, m: Machine, r: nat, b: nat, off: int) returns (m': Machine)
    requires Ok(m) && r < 32 && b < 32 && At(code, m.pc, [Store(Double, r, b, off)])
    requires var a := m.regs[b] + off; InS64(a) && a % 8 == 0
    ensures Goes(code, m, m') && Ok(m') && m' == Machine(m.pc + 4, m.regs, m.mem[m.regs[b] + off := m.regs[r]])
  {
    m' := Machine(m.pc + 4, m.regs, m.mem[m.regs[b] + off := m.regs[r]]);
    StepAt(code, m, Store(Double, r, b, off), m');
  }

  lemma OpenAt(code: Code, pc: int, f: nat)
    requires At(code, pc, OpenCode(f))
    ensures
      var n1 := |Addi(SP, SP, 0 - f)|;
      var n2 := n1 + |Addi(S0, SP, f)|;
      && At(code, pc, Mv(T0, S0)) && At(code, pc + 4, Addi(SP, SP, 0 - f)) && At(code, pc + 4 + 4 * n1, Addi(S0, SP, f))
      && At(code, pc + 4 + 4 * n2, [Store(Double, RA, S0, -8)]) &&
        At(code, pc + 8 + 4 * n2, [Store(Double, T0, S0, -16)])
      && |OpenCode(f)| == n2 + 3
  {
    var i0, i1, i2, i3, i4 :=
      Mv(T0, S0), Addi(SP, SP, 0 - f), Addi(S0, SP, f), [Store(Double, RA, S0, -8)], [Store(Double, T0, S0, -16)];
    AtSplit(code, pc, i0, i1 + (i2 + (i3 + i4)));
    AtSplit(code, pc + 4, i1, i2 + (i3 + i4));
    AtSplit(code, pc + 4 + 4 * |i1|, i2, i3 + i4);
    AtSplit(code, pc + 4 + 4 * (|i1| + |i2|), i3, i4);
  }

  /** the moves of the prologue, before anything is stored */
  lemma MovesCorrect(code: Code, m: Machine, f: nat) returns (m': Machine)
    requires Ok(m) && 16 <= f < H32 && f <= m.regs[SP]
    requires var n1 := |Addi(SP, SP, 0 - f)|;
      At(code, m.pc, Mv(T0, S0)) && At(code, m.pc + 4, Addi(SP, SP, 0 - f)) &&
        At(code, m.pc + 4 + 4 * n1, Addi(S0, SP, f))
    ensures Goes(code, m, m') && Ok(m') && m'.pc == m.pc + 4 + 4 * (|Addi(SP, SP, 0 - f)| + |Addi(S0, SP, f)|)
    ensures m'.mem == m.mem
    ensures m'.regs[SP] == m.regs[SP] - f && m'.regs[S0] == m.regs[SP] && m'.regs[T0] == m.regs[S0]
    ensures SameRegs(m, m', {T0, SP, S0, T6})
  {
    var m2 := DownCorrect(code, m, f);
    m' := AddiCorrect(code, m2, S0, SP, f);
    GoesTrans(code, m, m2, m');
  }

  /** s0 into t0, sp down */
  lemma DownCorrect(code: Code, m: Machine, f: nat) returns (m': Machine)
    requires Ok(m) && 16 <= f < H32 && f <= m.regs[SP]
    requires At(code, m.pc, Mv(T0, S0)) && At(code, m.pc + 4, Addi(SP, SP, 0 - f))
    ensures Goes(code, m, m') && Ok(m') && m'.pc == m.pc + 4 + 4 * |Addi(SP, SP, 0 - f)| && m'.mem == m.mem
    ensures m'.regs[SP] == m.regs[SP] - f && m'.regs[T0] == m.regs[S0] && SameRegs(m, m', {T0, SP, T6})
  {
    var m1 := AddiCorrect(code, m, T0, S0, 0);
    m' := AddiCorrect(code, m1, SP, SP, 0 - f);
    GoesTrans(code, m, m1, m');
  }

  lemma OpenCorrect(code: Code, m: Machine, f: nat) returns (m': Machine)
    requires Ok(m) && 16 <= f < H32 && f <= m.regs[SP] && m.regs[SP] % 16 == 0 && At(code, m.pc, OpenCode(f))
    ensures Goes(code, m, m') && m'.pc == m.pc + 4 * |OpenCode(f)| && Opened(m, m', f)
  {
    OpenAt(code, m.pc, f);
    SavedAligned(m.regs[SP]);
    var m1 := MovesCorrect(code, m, f);
    var m2 := SdStep(code, m1, RA, S0, -8);
    m' := SdStep(code, m2, T0, S0, -16);
    GoesTrans(code, m, m1, m2);
    GoesTrans(code, m, m2, m');
    forall i: nat {:trigger SameArg(m, m', i)} | i < 8 ensures SameArg(m, m', i) {}
  }

  // ----- parameters -----

  ghost predicate ParamStored(m: Machine, m': Machine, j: nat)
    requires |m.regs| == 32 && j < 8
  {
    Rd(m'.mem, m.regs[S0] - Offset(j)) == m.regs[A0 + j]
  }

  /** parameters k..n-1 are in their slots, everything else is as it was */
  ghost predicate ParamsStored(m: Machine, m': Machine, k: nat, n: nat)
    requires |m.regs| == 32 && n <= 8
  {
    && Ok(m') && SameRegs(m, m', {T0, T6})
    && (forall j: nat {:trigger ParamStored(m, m', j)} | k <= j < n :: ParamStored(m, m', j))
    && (forall a {:trigger KeptAt(m, m', a)} | a > m.regs[S0] - Offset(k) || a <= m.regs[S0] - Offset(n) ::
      KeptAt(m, m', a))
  }

  /** n slots fit below an aligned frame pointer */
  predicate SlotsFit(fp: int, n: nat) { fp % 16 == 0 && (n > 0 ==> Offset(n - 1) <= fp) }

  lemma SlotAligned(fp: int, k: nat)
    requires fp % 16 == 0
    ensures (fp - Offset(k)) % 8 == 0
  {
    ModIs(fp - Offset(k), 8, 2 * (fp / 16) - 3 - k, 0);
  }

  lemma ParamCorrect(code: Code, m: Machine, fp: int, k: nat) returns (m': Machine)
    requires Ok(m) && k < 8 && m.regs[S0] == fp && fp % 16 == 0 && fp >= Offset(k) && At(code, m.pc, ParamCode(k))
    ensures Goes(code, m, m') && Ok(m') && m'.pc == m.pc + 4 * |ParamCode(k)| && SameRegs(m, m', {T0, T6})
    ensures m'.mem == m.mem[m.regs[S0] - Offset(k) := m.regs[A0 + k]]
  {
    AtSplit(code, m.pc, Addi(T0, S0, 0 - Offset(k)), [Store(Double, A0 + k, T0, 0)]);
    SlotAligned(fp, k);
    var m1 := AddiCorrect(code, m, T0, S0, 0 - Offset(k));
    assert m1.regs[T0] == m.regs[S0] - Offset(k) && m1.regs[A0 + k] == m.regs[A0 + k];
    m' := SdStep(code, m1, A0 + k, T0, 0);
    GoesTrans(code, m, m1, m');
  }

  lemma {:induction false} ParamsCorrect(code: Code, m: Machine, fp: int, k: nat, n: nat) returns (m': Machine)
    requires Ok(m) && k <= n <= 8 && m.regs[S0] == fp && SlotsFit(fp, n)
    requires At(code, m.pc, ParamsCode(k, n))
    ensures Goes(code, m, m') && m'.pc == m.pc + 4 * |ParamsCode(k, n)| && ParamsStored(m, m', k, n)
    decreases n - k
  {
    if k == n {
      m' := m;
      GoesRefl(code, m);
    } else {
      var m1 := OneParam(code, m, fp, k, n);
      m' := ParamsCorrect(code, m1, fp, k + 1, n);
      GoesTrans(code, m, m1, m');
      ParamsJoin(m, m1, m', k, n);
    }
  }

  /** the first of the stores, the rest lies ahead */
  lemma OneParam(code: Code, m: Machine, fp: int, k: nat, n: nat) returns (m': Machine)
    requires Ok(m) && k < n <= 8 && m.regs[S0] == fp && SlotsFit(fp, n)
    requires At(code, m.pc, ParamsCode(k, n))
    ensures Goes(code, m, m') && Ok(m') && SameRegs(m, m', {T0, T6}) && At(code, m'.pc, ParamsCode(k + 1, n))
    ensures m'.pc == m.pc + 4 * |ParamsCode(k, n)| - 4 * |ParamsCode(k + 1, n)|
    ensures m'.mem == m.mem[m.regs[S0] - Offset(k) := m.regs[A0 + k]] && m'.regs[S0] == fp
  {
    AtSplit(code, m.pc, ParamCode(k), ParamsCode(k + 1, n));
    m' := ParamCorrect(code, m, fp, k);
    assert m'.regs[S0] == m.regs[S0];
  }

  lemma ParamsJoin(m: Machine, m1: Machine, m': Machine, k: nat, n: nat)
    requires Ok(m) && Ok(m1) && k < n <= 8 && SameRegs(m, m1, {T0, T6})
    requires m1.mem == m.mem[m.regs[S0] - Offset(k) := m.regs[A0 + k]]
    requires ParamsStored(m1, m', k + 1, n)
    ensures ParamsStored(m, m', k, n)
  {
    forall j: nat {:trigger ParamStored(m, m', j)} | k <= j < n ensures ParamStored(m, m', j) {
      if j == k { assert KeptAt(m1, m', m.regs[S0] - Offset(k)); } else { assert ParamStored(m1, m', j); }
    }
    forall a {:trigger KeptAt(m, m', a)} | a > m.regs[S0] - Offset(k) || a <= m.regs[S0] - Offset(n)
      ensures KeptAt(m, m', a)
    {
      assert KeptAt(m1, m', a);
    }
  }

  // ----- the va area -----

  ghost predicate VaWord(m: Machine, m': Machine, t: int, j: nat)
    requires |m.regs| == 32 && j < 8
  {
    Rd(m'.mem, t + 8 * j) == m.regs[A0 + j]
  }

  /** argument registers k to 7 are in the area at t, everything else is as it was */
  ghost predicate VaStored(m: Machine, m': Machine, t: int, k: nat)
    requires |m.regs| == 32
  {
    && Ok(m') && m'.regs == m.regs
    && (forall j: nat {:trigger VaWord(m, m', t, j)} | k <= j < 8 :: VaWord(m, m', t, j))
    && (forall a {:trigger KeptAt(m, m', a)} | a < t + 8 * k || a > t + 56 :: KeptAt(m, m', a))
  }

  lemma {:induction false} VaStoresCorrect(code: Code, m: Machine, t: int, k: nat) returns (m': Machine)
    requires Ok(m) && k <= VA_WORDS && m.regs[T0] == t && t % 8 == 0 && 0 <= t < H64 - 64
    requires At(code, m.pc, VaStores(k, VA_WORDS))
    ensures Goes(code, m, m') && m'.pc == m.pc + 4 * |VaStores(k, VA_WORDS)| && VaStored(m, m', t, k)
    decreases VA_WORDS - k
  {
    if k == VA_WORDS {
      m' := m;
      GoesRefl(code, m);
    } else {
      AtSplit(code, m.pc, [Store(Double, A0 + k, T0, 8 * k)], VaStores(k + 1, VA_WORDS));
      WordAligned(t, k);
      var m1 := SdStep(code, m, A0 + k, T0, 8 * k);
      m' := VaStoresCorrect(code, m1, t, k + 1);
      GoesTrans(code, m, m1, m');
      VaJoin(m, m1, m', t, k);
    }
  }

  lemma WordAligned(t: int, k: nat)
    requires t % 8 == 0
    ensures (t + 8 * k) % 8 == 0
  {
    ModIs(t + 8 * k, 8, t / 8 + k, 0);
  }

  lemma VaJoin(m: Machine, m1: Machine, m': Machine, t: int, k: nat)
    requires Ok(m) && k < 8 && m1.regs == m.regs && m1.mem == m.mem[t + 8 * k := m.regs[A0 + k]]
    requires VaStored(m1, m', t, k + 1)
    ensures VaStored(m, m', t, k)
  {
    forall j: nat {:trigger VaWord(m, m', t, j)} | k <= j < 8 ensures VaWord(m, m', t, j) {
      if j == k { assert KeptAt(m1, m', t + 8 * k); } else { assert VaWord(m1, m', t, j); }
    }
    forall a {:trigger KeptAt(m, m', a)} | a < t + 8 * k || a > t + 56 ensures KeptAt(m, m', a) {
      assert KeptAt(m1, m', a);
    }
  }

  /** the eight argument registers are in the va area, if there is one; nothing else
      in memory has changed */
  ghost predicate VaDone(fn: Function, m: Machine, m': Machine)
    requires |m.regs| == 32
  {
    && Ok(m') && SameRegs(m, m', {T0, T6}) && (fn.variadic ==> VaSaved(fn, m, m', m.regs[S0]))
    && forall a {:trigger KeptAt(m, m', a)} |
         !fn.variadic || a < m.regs[S0] - VaOff(fn) || a > m.regs[S0] - Offset(fn.params) :: KeptAt(m, m', a)
  }

  /** the va area at t holds the argument registers of m */
  ghost predicate VaArea(m: Machine, m': Machine, t: int)
    requires |m.regs| == 32
  {
    forall j: nat {:trigger VaWord(m, m', t, j)} | j < 8 :: VaWord(m, m', t, j)
  }

  ghost predicate VaSaved(fn: Function, m: Machine, m': Machine, fp: int)
    requires |m.regs| == 32
  {
    VaArea(m, m', fp - VaOff(fn))
  }

  lemma AreaAddress(code: Code, m: Machine, off: nat, t: int) returns (m1: Machine)
    requires Ok(m) && off < H32 && t == m.regs[S0] - off >= 0
    requires At(code, m.pc, Addi(T0, S0, 0 - off) + VaStores(0, VA_WORDS))
    ensures Goes(code, m, m1) && Ok(m1) && m1.pc == m.pc + 4 * |Addi(T0, S0, 0 - off)| && m1.mem == m.mem
    ensures SameRegs(m, m1, {T0, T6}) && m1.regs[T0] == t && At(code, m1.pc, VaStores(0, VA_WORDS))
  {
    AtSplit(code, m.pc, Addi(T0, S0, 0 - off), VaStores(0, VA_WORDS));
    m1 := AddiCorrect(code, m, T0, S0, 0 - off);
  }

  lemma AreaCorrect(code: Code, fn: Function, m: Machine, t: int) returns (m': Machine)
    requires Ok(m) && fn.variadic && fn.params <= 8 && t == m.regs[S0] - VaOff(fn) >= 0 && t % 8 == 0
    requires At(code, m.pc, VaCode(fn))
    ensures Goes(code, m, m') && m'.pc == m.pc + 4 * |VaCode(fn)| && VaDone(fn, m, m')
  {
    var m1 := AreaAddress(code, m, VaOff(fn), t);
    m' := VaStoresCorrect(code, m1, t, 0);
    GoesTrans(code, m, m1, m');
    VaAfter(fn, m, m1, m', t);
  }

  lemma VaCorrect(code: Code, fn: Function, m: Machine, fp: int) returns (m': Machine)
    requires Ok(m) && m.regs[S0] == fp && fp % 16 == 0 && fn.params <= 8 && (fn.variadic ==> fp >= VaOff(fn))
    requires At(code, m.pc, VaCode(fn))
    ensures Goes(code, m, m') && m'.pc == m.pc + 4 * |VaCode(fn)| && VaDone(fn, m, m')
  {
    if fn.variadic {
      SlotAligned(fp, fn.params + 7);
      m' := AreaCorrect(code, fn, m, fp - VaOff(fn));
    } else {
      m' := m;
      GoesRefl(code, m);
    }
  }

  lemma VaAfter(fn: Function, m: Machine, m1: Machine, m': Machine, t: int)
    requires Ok(m) && fn.variadic && t == m.regs[S0] - VaOff(fn) && m1.mem == m.mem && SameRegs(m, m1, {T0, T6})
    requires VaStored(m1, m', t, 0)
    ensures VaDone(fn, m, m')
  {
    forall j: nat {:trigger VaWord(m, m', t, j)} | j < 8 ensures VaWord(m, m', t, j) { assert VaWord(m1, m', t, j); }
    forall a {:trigger KeptAt(m, m', a)} | a < t || a > m.regs[S0] - Offset(fn.params) ensures KeptAt(m, m', a) {
      assert KeptAt(m1, m', a);
    }
  }

  // ----- the body's frame -----

  /** after the prologue */
  ghost predicate InBody(fn: Function, m: Machine, m': Machine, n: nat)
    requires |m.regs| == 32 && fn.params <= 8
  {
    && Live(m', EntryEnv(fn, m), LayoutOf(fn), n) && m'.regs[S0] == m.regs[SP]
    && Rd(m'.mem, m.regs[SP] - 8) == m.regs[RA] && Rd(m'.mem, m.regs[SP] - 16) == m.regs[S0]
    && m'.regs[SP] == m.regs[SP] - FrameOf(fn) && (fn.variadic ==> VaSaved(fn, m, m', m.regs[SP]))
    && forall a {:trigger KeptAt(m, m', a)} | a >= m.regs[SP] :: KeptAt(m, m', a)
  }

  predicate StackOk(fn: Function, m: Machine, n: nat) {
    |m.regs| == 32 && m.regs[SP] % 16 == 0 && FrameOf(fn) + 16 * n <= m.regs[SP] < H64 - 16
  }

  /** the three parts of the prologue have run */
  ghost predicate Prepared(fn: Function, m: Machine, m1: Machine, m2: Machine, m': Machine)
    requires |m.regs| == 32 && fn.params <= 8
  {
    && Opened(m, m1, FrameOf(fn)) && ParamsStored(m1, m2, 0, fn.params) && VaDone(fn, m2, m')
    && m2.regs[S0] == m1.regs[S0]
  }

  lemma LocalValue(fn: Function, m: Machine, m1: Machine, m2: Machine, m': Machine, i: nat)
    requires Ok(m) && fn.params <= |fn.locals| && fn.params <= 8 && i < |fn.locals| && Prepared(fn, m, m1, m2, m')
    ensures LoadVar(fn.locals[i], m'.mem, m.regs[SP] - LocalOff(fn, i)) == EntryValue(fn, m, i)
  {
    assert KeptAt(m2, m', m.regs[SP] - LocalOff(fn, i));
    if i < fn.params {
      assert ParamStored(m1, m2, i);
      assert SameArg(m, m1, i);
    } else {
      assert KeptAt(m1, m2, m.regs[SP] - LocalOff(fn, i));
    }
  }

  lemma SlotBounds(fn: Function, i: nat)
    requires i < |fn.locals|
    ensures LocalOff(fn, i) <= FrameOf(fn) && LocalOff(fn, i) % 8 == 0
  {
  }

  lemma VaBounds(fn: Function)
    requires fn.variadic && fn.params <= |fn.locals|
    ensures VaOff(fn) <= FrameOf(fn)
  {
  }

  lemma LocalReady(fn: Function, m: Machine, m1: Machine, m2: Machine, m': Machine, i: nat)
    requires Ok(m) && fn.params <= |fn.locals| && fn.params <= 8 && i < |fn.locals| && FrameOf(fn) < H32
    requires Prepared(fn, m, m1, m2, m')
    ensures VarAt(m', EntryEnv(fn, m), LayoutOf(fn), LocalOff(fn, i))
  {
    LocalValue(fn, m, m1, m2, m', i);
    SlotBounds(fn, i);
    PreparedRegs(fn, m, m1, m2, m');
    LocalNamed(fn, m, i);
  }

  lemma PreparedRegs(fn: Function, m: Machine, m1: Machine, m2: Machine, m': Machine)
    requires |m.regs| == 32 && fn.params <= 8 && Prepared(fn, m, m1, m2, m')
    ensures |m'.regs| == 32 && m'.regs[S0] == m.regs[SP] && m'.regs[SP] == m.regs[SP] - FrameOf(fn)
  {
  }

  /** the i-th local under its frame offset */
  lemma LocalNamed(fn: Function, m: Machine, i: nat)
    requires |m.regs| == 32 && fn.params <= 8 && i < |fn.locals|
    ensures LocalOff(fn, i) in LayoutOf(fn) && LayoutOf(fn)[LocalOff(fn, i)] == fn.locals[i]
    ensures LocalOff(fn, i) in EntryEnv(fn, m) && EntryEnv(fn, m)[LocalOff(fn, i)] == EntryValue(fn, m, i)
  {
  }

  lemma BodyReady(fn: Function, m: Machine, m1: Machine, m2: Machine, m': Machine, n: nat)
    requires Ok(m) && fn.params <= |fn.locals| && fn.params <= 8 && StackOk(fn, m, n) && FrameOf(fn) < H32
    requires Prepared(fn, m, m1, m2, m')
    ensures InBody(fn, m, m', n)
  {
    var env, lay := EntryEnv(fn, m), LayoutOf(fn);
    forall x {:trigger VarAt(m', env, lay, x)} | x in lay ensures VarAt(m', env, lay, x) {
      var i: nat :| i < |fn.locals| && x == LocalOff(fn, i);
      LocalReady(fn, m, m1, m2, m', i);
    }
    forall a | a >= m.regs[SP] - 16 ensures KeptAt(m1, m', a) { assert KeptAt(m1, m2, a) && KeptAt(m2, m', a); }
    assert KeptAt(m1, m', m.regs[SP] - 8) && KeptAt(m1, m', m.regs[SP] - 16);
    forall a {:trigger KeptAt(m, m', a)} | a >= m.regs[SP] ensures KeptAt(m, m', a) { assert KeptAt(m1, m', a); }
    if fn.variadic { ArgsSaved(fn, m, m1, m2, m'); }
  }

  lemma ArgsSaved(fn: Function, m: Machine, m1: Machine, m2: Machine, m': Machine)
    requires |m.regs| == 32 && fn.params <= 8 && fn.variadic && Prepared(fn, m, m1, m2, m')
    ensures VaSaved(fn, m, m', m.regs[SP])
  {
    var t := m.regs[SP] - VaOff(fn);
    assert m2.regs[S0] == m.regs[SP] && VaArea(m2, m', t);
    forall j: nat {:trigger VaWord(m, m', t, j)} | j < 8 ensures VaWord(m, m', t, j) {
      assert VaWord(m2, m', t, j);
      assert SameArg(m, m1, j);
    }
  }

  lemma PrologueCorrect(code: Code, fn: Function, m: Machine, n: nat) returns (m': Machine)
    requires Ok(m) && fn.params <= |fn.locals| && fn.params <= 8 && StackOk(fn, m, n) && FrameOf(fn) < H32
    requires At(code, m.pc, PrologueCode(fn))
    ensures Goes(code, m, m') && m'.pc == m.pc + 4 * |PrologueCode(fn)| && InBody(fn, m, m', n)
  {
    var m1, m2;
    m1, m2, m' := PrologueRun(code, fn, m);
    BodyReady(fn, m, m1, m2, m', n);
  }

  lemma FrameHolds(fn: Function)
    requires fn.params <= |fn.locals|
    ensures (fn.params > 0 ==> Offset(fn.params - 1) <= FrameOf(fn)) && (fn.variadic ==> VaOff(fn) <= FrameOf(fn))
  {
    if fn.params > 0 { SlotBounds(fn, fn.params - 1); }
    if fn.variadic { VaBounds(fn); }
  }

  lemma OpenRun(code: Code, m: Machine, f: nat, stores: seq<Instr>) returns (m1: Machine)
    requires Ok(m) && 16 <= f < H32 && f <= m.regs[SP] && m.regs[SP] % 16 == 0 && At(code, m.pc, OpenCode(f) + stores)
    ensures Goes(code, m, m1) && m1.pc == m.pc + 4 * |OpenCode(f)| && Opened(m, m1, f) && At(code, m1.pc, stores)
  {
    AtSplit(code, m.pc, OpenCode(f), stores);
    m1 := OpenCorrect(code, m, f);
  }

  lemma PrologueRun(code: Code, fn: Function, m: Machine) returns (m1: Machine, m2: Machine, m': Machine)
    requires Ok(m) && fn.params <= |fn.locals| && fn.params <= 8 && FrameOf(fn) < H32
    requires FrameOf(fn) <= m.regs[SP] && m.regs[SP] % 16 == 0 && At(code, m.pc, PrologueCode(fn))
    ensures Goes(code, m, m') && m'.pc == m.pc + 4 * |PrologueCode(fn)| && Prepared(fn, m, m1, m2, m')
  {
    FrameHolds(fn);
    m1 := OpenRun(code, m, FrameOf(fn), ParamsCode(0, fn.params) + VaCode(fn));
    m2, m' := StoresRun(code, fn, m1, m.regs[SP]);
    GoesTrans(code, m, m1, m');
  }

  /** the stores of the parameters and of the va area */
  lemma StoresRun(code: Code, fn: Function, m: Machine, fp: int) returns (m1: Machine, m': Machine)
    requires Ok(m) && m.regs[S0] == fp && fp % 16 == 0 && fn.params <= 8
    requires SlotsFit(fp, fn.params) && (fn.variadic ==> VaOff(fn) <= fp)
    requires At(code, m.pc, ParamsCode(0, fn.params) + VaCode(fn))
    ensures Goes(code, m, m') && m'.pc == m.pc + 4 * |ParamsCode(0, fn.params) + VaCode(fn)|
    ensures ParamsStored(m, m1, 0, fn.params) && m1.regs[S0] == fp && VaDone(fn, m1, m')
  {
    m1 := ParamsFirst(code, m, fp, fn.params, VaCode(fn));
    m' := VaCorrect(code, fn, m1, fp);
    GoesTrans(code, m, m1, m');
  }

  lemma ParamsFirst(code: Code, m: Machine, fp: int, n: nat, rest: seq<Instr>) returns (m': Machine)
    requires Ok(m) && m.regs[S0] == fp && n <= 8 && SlotsFit(fp, n)
    requires At(code, m.pc, ParamsCode(0, n) + rest)
    ensures Goes(code, m, m') && m'.pc == m.pc + 4 * |ParamsCode(0, n)| && ParamsStored(m, m', 0, n)
    ensures m'.regs[S0] == fp && At(code, m'.pc, rest)
  {
    var len := |ParamsCode(0, n)|;
    AtSplit(code, m.pc, ParamsCode(0, n), rest);
    m' := ParamsCorrect(code, m, fp, 0, n);
    Behind(code, m.pc, len, m', rest);
    StoredFrame(m, m', n);
  }

  lemma Behind(code: Code, pc: int, len: nat, m: Machine, rest: seq<Instr>)
    requires At(code, pc + 4 * len, rest) && m.pc == pc + 4 * len
    ensures At(code, m.pc, rest)
  {
  }

  lemma StoredFrame(m: Machine, m': Machine, n: nat)
    requires |m.regs| == 32 && n <= 8 && ParamsStored(m, m', 0, n)
    ensures m'.regs[S0] == m.regs[S0]
  {
  }

  // ----- the theorem -----

  /** break and continue never leave a well-formed statement unless they may */
  lemma {:induction false} NoEscape(L: ExprLang, s: Stmt, at: Option<Label>, env: Env, lay: Layout, n: nat, brk: bool,
        cont: bool, fuel: nat)
    requires OkS(L, s, lay, n, brk, cont) && Has(s, at)
    ensures var o := ExecS(L, s, at, env, fuel).0; (o.Brk? ==> brk) && (o.Cont? ==> cont)
    decreases fuel, s, 1
  {
    match s
    case Seq(a, b) =>
      if Has(a, at) {
        NoEscape(L, a, at, env, lay, n, brk, cont, fuel);
        NoEscape(L, b, None, ExecS(L, a, at, env, fuel).1, lay, n, brk, cont, fuel);
      } else {
        NoEscape(L, b, at, env, lay, n, brk, cont, fuel);
      }
    case IfThen(c, t) => NoEscape(L, t, at, if at.Some? then env else L.eval(c, env).1, lay, n, brk, cont, fuel);
    case IfElse(c, t, f) =>
      var env1 := if at.Some? then env else L.eval(c, env).1;
      if Has(t, at) { NoEscape(L, t, at, env1, lay, n, brk, cont, fuel); }
      if Has(f, at) { NoEscape(L, f, at, env1, lay, n, brk, cont, fuel); }
    case Loop(_, c, _, b) =>
      var env1 := if at.Some? || c.None? then env else L.eval(c.value, env).1;
      NoEscapeAgain(L, s, ExecS(L, b, at, env1, fuel), lay, n, brk, cont, fuel);
    case Do(b, c) => NoEscapeAgain(L, s, ExecS(L, b, at, env, fuel), lay, n, brk, cont, fuel);
    case Switch(c, b) =>
      var (v, env1) := L.eval(c, env);
      if Select(b, v).Some? { NoEscape(L, b, Select(b, v), env1, lay, n, true, cont, fuel); }
    case Labelled(l, b) => NoEscape(L, b, if at == Some(l) then None else at, env, lay, n, brk, cont, fuel);
    case _ =>
  }

  lemma NoEscapeAgain(L: ExprLang, s: Stmt, r: (Outcome, Env), lay: Layout, n: nat, brk: bool, cont: bool, fuel: nat)
    requires (s.Loop? || s.Do?) && OkS(L, s, lay, n, brk, cont)
    ensures var o := Again(L, s, r, fuel).0; (o.Brk? ==> brk) && (o.Cont? ==> cont)
    decreases fuel, s, 0
  {
    if fuel > 0 {
      var env1 := if s.Do? then L.eval(s.c, r.1).1 else if s.inc.Some? then L.eval(s.inc.value, r.1).1 else r.1;
      NoEscape(L, s, None, env1, lay, n, brk, cont, fuel - 1);
    }
  }

  lemma {:induction false} OkWeaken(L: ExprLang, s: Stmt, lay: Layout, n: nat, brk: bool, cont: bool)
    requires OkS(L, s, lay, n, brk, cont)
    ensures OkS(L, s, lay, n, true, true)
  {
    match s
    case Seq(a, b) => OkWeaken(L, a, lay, n, brk, cont); OkWeaken(L, b, lay, n, brk, cont);
    case IfThen(_, t) => OkWeaken(L, t, lay, n, brk, cont);
    case IfElse(_, t, f) => OkWeaken(L, t, lay, n, brk, cont); OkWeaken(L, f, lay, n, brk, cont);
    case Switch(_, b) => OkWeaken(L, b, lay, n, true, cont);
    case Labelled(_, b) => OkWeaken(L, b, lay, n, brk, cont);
    case _ =>
  }

  lemma ReturnedBack(fn: Function, m: Machine, m1: Machine, m': Machine, v: int, n: nat)
    requires Ok(m) && fn.params <= 8 && InBody(fn, m, m1, n) && Returned(m1, m', v, LayoutOf(fn))
    ensures BackInCaller(m, m', v)
  {
    forall a {:trigger KeptAt(m, m', a)} | a >= m.regs[SP] ensures KeptAt(m, m', a) {
      assert KeptAt(m, m1, a);
      assert KeptAt(m1, m', a);
    }
  }

  /** falling off the end returns 0 */
  lemma FallOff(code: Code, m1: Machine, m2: Machine, w: int, env: Env, env2: Env, lay: Layout, n: nat)
    returns (m': Machine)
    requires Live(m1, env, lay, n) && Arrives(code, m1, m2, w, env2, lay) && Place(code, w, Li(A0, 0) + EpilogueCode())
    ensures Goes(code, m1, m') && Returned(m1, m', 0, lay)
  {
    AtSplit(code, m2.pc, Li(A0, 0), EpilogueCode());
    var m3 := LiStep(code, m2, A0, 0, env2, lay);
    WithinTrans(m1, m2, m3, lay);
    m' := EpilogueCorrect(code, m3, env2, lay);
    ReturnedAfter(m1, m3, m', 0, lay);
    GoesTrans(code, m1, m2, m3);
    GoesTrans(code, m1, m3, m');
  }

  /** how the body of a function ends */
  ghost predicate BodyDone(code: Code, m1: Machine, m': Machine, o: Outcome, lay: Layout, fuel: nat) {
    match o
    case Ret(v) => Goes(code, m1, m') && Returned(m1, m', v, lay)
    case Normal => Goes(code, m1, m') && Returned(m1, m', 0, lay)
    case Timeout => RunsFor(code, m1, fuel)
    case _ => false
  }

  /** how a call of the function ends */
  ghost predicate CallDone(code: Code, m: Machine, m': Machine, o: Outcome, fuel: nat) {
    match o
    case Ret(v) => Goes(code, m, m') && BackInCaller(m, m', v)
    case Normal => Goes(code, m, m') && BackInCaller(m, m', 0)
    case Timeout => RunsFor(code, m, fuel)
    case _ => false
  }

  lemma CallEnds(code: Code, fn: Function, m: Machine, m1: Machine, m': Machine, o: Outcome, n: nat, fuel: nat)
    requires Ok(m) && fn.params <= 8 && Goes(code, m, m1) && InBody(fn, m, m1, n)
    requires BodyDone(code, m1, m', o, LayoutOf(fn), fuel)
    ensures CallDone(code, m, m', o, fuel)
  {
    if o.Timeout? {
      GoesRuns(code, m, m1, fuel);
    } else {
      GoesTrans(code, m, m1, m');
      ReturnedBack(fn, m, m1, m', if o.Normal? then 0 else o.v, n);
    }
  }

  lemma BodyCorrect(L: ExprLang, code: Code, fn: Function, body0: int, m1: Machine, env: Env, n: nat, fuel: nat)
    returns (m': Machine)
    requires Sound(L, code) && OkFunction(L, fn, n) && Live(m1, env, LayoutOf(fn), n)
    requires m1.pc == code.base + 4 * body0
    requires BodyLaid(L, code, fn, body0)
    ensures BodyDone(code, m1, m', ExecS(L, fn.body, None, env, fuel).0, LayoutOf(fn), fuel)
  {
    var lay := LayoutOf(fn);
    var (o, env2) := ExecS(L, fn.body, None, env, fuel);
    OkWeaken(L, fn.body, lay, n, false, false);
    NoEscape(L, fn.body, None, env, lay, n, false, false, fuel);
    m' := StmtCorrect(L, code, fn.body, None, body0, 0, 0, m1, env, lay, n, fuel);
    if o.Normal? {
      m' := FallOff(code, m1, m', body0 + Len(L, fn.body), env, env2, lay, n);
    }
  }

  lemma LaidParts(L: ExprLang, code: Code, fn: Function, here: int) returns (body0: int)
    requires LaidFunction(L, code, fn, here)
    ensures body0 == here + |PrologueCode(fn)| && Place(code, here, PrologueCode(fn)) && BodyLaid(L, code, fn, body0)
  {
    body0 := here + |PrologueCode(fn)|;
  }

  /** run the prologue up to the body */
  lemma Enter(code: Code, fn: Function, here: int, body0: int, m: Machine, n: nat) returns (m1: Machine)
    requires fn.params <= |fn.locals| && fn.params <= 8 && FrameOf(fn) < H32
    requires Ok(m) && StackOk(fn, m, n) && m.pc == code.base + 4 * here && Place(code, here, PrologueCode(fn))
    requires body0 == here + |PrologueCode(fn)|
    ensures Goes(code, m, m1) && InBody(fn, m, m1, n) && m1.pc == code.base + 4 * body0
  {
    m1 := PrologueCorrect(code, fn, m, n);
  }

  /** run the body, from the state the prologue leaves to the return */
  lemma RunBody(L: ExprLang, code: Code, fn: Function, body0: int, m: Machine, m1: Machine, n: nat, fuel: nat)
    returns (m': Machine)
    requires Sound(L, code) && OkFunction(L, fn, n) && Ok(m) && Goes(code, m, m1) && InBody(fn, m, m1, n)
    requires m1.pc == code.base + 4 * body0
    requires BodyLaid(L, code, fn, body0)
    ensures CallDone(code, m, m', ExecS(L, fn.body, None, EntryEnv(fn, m), fuel).0, fuel)
  {
    m' := BodyCorrect(L, code, fn, body0, m1, EntryEnv(fn, m), n, fuel);
    CallEnds(code, fn, m, m1, m', ExecS(L, fn.body, None, EntryEnv(fn, m), fuel).0, n, fuel);
  }

  /** Compiler correctness for functions: called with a 16-byte aligned stack of
      sufficient depth, the code of a function returns to its caller with the
      value the source returns (0 if it falls off the end), having restored sp,
      s0 and ra and left memory at or above the caller's sp alone; while the
      source is still looping, so is the machine. */
  lemma FunctionCorrect(L: ExprLang, code: Code, fn: Function, here: int, m: Machine, n: nat, fuel: nat)
    returns (m': Machine)
    requires Sound(L, code) && OkFunction(L, fn, n) && LaidFunction(L, code, fn, here)
    requires Ok(m) && StackOk(fn, m, n) && m.pc == code.base + 4 * here
    ensures CallDone(code, m, m', ExecS(L, fn.body, None, EntryEnv(fn, m), fuel).0, fuel)
  {
    var body0 := LaidParts(L, code, fn, here);
    var m1 := Enter(code, fn, here, body0, m, n);
    m' := RunBody(L, code, fn, body0, m, m1, n, fuel);
  }
}
