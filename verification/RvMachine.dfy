/** A step semantics for the part of RV64IM the compiler emits. Memory is a map
    of naturally aligned doublewords; values are signed 64-bit integers. */
module RvMachine {
  import opened Options
  import opened RvArith

  const X0: nat := 0
  const RA: nat := 1
  const SP: nat := 2
  const T0: nat := 5
  const T1: nat := 6
  const T2: nat := 7
  const S0: nat := 8
  const A0: nat := 10
  const A1: nat := 11
  const T6: nat := 31

  datatype ImmOp = ADDI | SLTIU | XORI | ORI | ANDI | SLLI | SRLI | SRAI | ADDIW
  /** add, sub, mul, div, rem, and, or, xor, sll, sra; slt; sltu */
  datatype RegOp = Arith(op: ArithOp) | SLT | SLTU
  datatype Width = Word | Double

  datatype Instr =
    | OpImm(fi: ImmOp, rd: nat, rs: nat, imm: int)
    | Op(fr: RegOp, rd: nat, rs: nat, rs2: nat)
    | Lui(rd: nat, imm: int)
    | Load(w: Width, rd: nat, rs: nat, imm: int)
    | Store(w: Width, rs2: nat, rs: nat, imm: int)
    | Branch(ne: bool, rs: nat, rs2: nat, off: int)
    | Jal(rd: nat, off: int)
    | Jalr(rd: nat, rs: nat, imm: int)

  /** register numbers fit their five-bit fields */
  predicate RegsOk(i: Instr) {
    match i
    case OpImm(_, rd, rs, _) => rd < 32 && rs < 32
    case Op(_, rd, rs, rs2) => rd < 32 && rs < 32 && rs2 < 32
    case Lui(rd, _) => rd < 32
    case Load(_, rd, rs, _) => rd < 32 && rs < 32
    case Store(_, rs2, rs, _) => rs2 < 32 && rs < 32
    case Branch(_, rs, rs2, _) => rs < 32 && rs2 < 32
    case Jal(rd, _) => rd < 32
    case Jalr(rd, rs, _) => rd < 32 && rs < 32
  }

  type Mem = map<int, int>

  datatype Machine = Machine(pc: int, regs: seq<int>, mem: Mem)

  /** x0 is zero and every register holds a 64-bit value */
  ghost predicate Ok(m: Machine) {
    |m.regs| == 32 && m.regs[0] == 0 && forall r | 0 <= r < 32 :: InS64(m.regs[r])
  }

  /** the doubleword at an aligned address */
  function Rd(mem: Mem, a: int): (v: int)
    ensures InS64(v)
  {
    if a in mem then Wrap64(mem[a]) else 0
  }

  function SetLow(was: int, v: int): int { Wrap64(was - was % M32 + v % M32) }
  function SetHigh(was: int, v: int): int { Wrap64(v * M32 + was % M32) }

  function Unsigned(a: int): int { if a < 0 then a + M64 else a }

  function ImmValue(f: ImmOp, a: int, imm: int): (v: int)
    ensures InS64(v)
  {
    match f
    case ADDI => Wrap64(a + imm)
    case SLTIU => if Unsigned(a) < Unsigned(imm) then 1 else 0
    case XORI => Bitwise(BXor, a, imm)
    case ORI => Bitwise(BOr, a, imm)
    case ANDI => Bitwise(BAnd, a, imm)
    case SLLI => Wrap64(ShiftLeft(a, imm))
    case SRLI => Wrap64(ShiftRight(Unsigned(a), imm))
    case SRAI => Wrap64(ShiftRight(a, imm))
    case ADDIW => Wrap32(a + imm)
  }

  function RegValue(f: RegOp, a: int, b: int): (v: int)
    ensures InS64(v)
  {
    match f
    case Arith(op) => Wrap64(ArithValue(op, a, b))
    case SLT => if a < b then 1 else 0
    case SLTU => if Unsigned(a) < Unsigned(b) then 1 else 0
  }

  /** writing x0 has no effect */
  function Put(regs: seq<int>, rd: nat, v: int): seq<int>
    requires rd < |regs|
  {
    if rd == 0 then regs else regs[rd := v]
  }

  function LoadValue(w: Width, mem: Mem, a: int): Option<int> {
    match w
    case Double => if a % 8 == 0 then Some(Rd(mem, a)) else None
    case Word =>
      if a % 8 == 0 then Some(Wrap32(Rd(mem, a)))
      else if a % 8 == 4 then Some(Wrap32(Rd(mem, a - 4) / M32))
      else None
  }

  function StoreValue(w: Width, mem: Mem, a: int, v: int): Option<Mem> {
    match w
    case Double => if a % 8 == 0 then Some(mem[a := v]) else None
    case Word =>
      if a % 8 == 0 then Some(mem[a := SetLow(Rd(mem, a), v)])
      else if a % 8 == 4 then Some(mem[a - 4 := SetHigh(Rd(mem, a - 4), v)])
      else None
  }

  /** one instruction; None is a misaligned access */
  function Exec(i: Instr, m: Machine): Option<Machine>
    requires RegsOk(i) && |m.regs| == 32
  {
    match i
    case OpImm(f, rd, rs, imm) => Some(Machine(m.pc + 4, Put(m.regs, rd, ImmValue(f, m.regs[rs], imm)), m.mem))
    case Op(f, rd, rs, rs2) => Some(Machine(m.pc + 4, Put(m.regs, rd, RegValue(f, m.regs[rs], m.regs[rs2])), m.mem))
    case Lui(rd, imm) => Some(Machine(m.pc + 4, Put(m.regs, rd, Wrap64(Wrap32(imm * 4096))), m.mem))
    case Load(w, rd, rs, imm) =>
      (match LoadValue(w, m.mem, Wrap64(m.regs[rs] + imm))
       case None => None
       case Some(v) => Some(Machine(m.pc + 4, Put(m.regs, rd, v), m.mem)))
    case Store(w, rs2, rs, imm) =>
      (match StoreValue(w, m.mem, Wrap64(m.regs[rs] + imm), m.regs[rs2])
       case None => None
       case Some(mem) => Some(Machine(m.pc + 4, m.regs, mem)))
    case Branch(ne, rs, rs2, off) =>
      var taken := if ne then m.regs[rs] != m.regs[rs2] else m.regs[rs] == m.regs[rs2];
      Some(Machine(if taken then m.pc + off else m.pc + 4, m.regs, m.mem))
    case Jal(rd, off) => Some(Machine(m.pc + off, Put(m.regs, rd, m.pc + 4), m.mem))
    case Jalr(rd, rs, imm) =>
      var target := Wrap64(m.regs[rs] + imm);
      Some(Machine(target - target % 2, Put(m.regs, rd, m.pc + 4), m.mem))
  }

  /** code loaded at an address */
  datatype Code = Code(base: int, ins: seq<Instr>)

  function Fetch(code: Code, pc: int): Option<Instr> {
    if code.base <= pc && (pc - code.base) % 4 == 0 && (pc - code.base) / 4 < |code.ins|
    then Some(code.ins[(pc - code.base) / 4]) else None
  }

  function Step(code: Code, m: Machine): Option<Machine> {
    match Fetch(code, m.pc)
    case None => None
    case Some(i) => if RegsOk(i) && |m.regs| == 32 then Exec(i, m) else None
  }

  ghost predicate Linked(code: Code, p: seq<Machine>, i: nat)
    requires i + 1 < |p|
  {
    Step(code, p[i]) == Some(p[i + 1])
  }

  /** a run of the machine: each state steps to the next */
  ghost predicate Trace(code: Code, p: seq<Machine>) {
    |p| > 0 && forall i: nat {:trigger Linked(code, p, i)} | i + 1 < |p| :: Linked(code, p, i)
  }

  /** m reaches m' in some number of steps */
  ghost predicate Goes(code: Code, m: Machine, m': Machine) {
    exists p :: Trace(code, p) && p[0] == m && p[|p| - 1] == m'
  }

  lemma GoesTrans(code: Code, m: Machine, m1: Machine, m2: Machine)
    requires Goes(code, m, m1) && Goes(code, m1, m2)
    ensures Goes(code, m, m2)
  {
    var p :| Trace(code, p) && p[0] == m && p[|p| - 1] == m1;
    var q :| Trace(code, q) && q[0] == m1 && q[|q| - 1] == m2;
    var r := Join(code, p, q);
  }

  lemma GoesRefl(code: Code, m: Machine)
    ensures Goes(code, m, m)
  {
    assert Trace(code, [m]);
  }

  /** m reaches m' in at least one step */
  ghost predicate Plus(code: Code, m: Machine, m': Machine) {
    exists p :: Trace(code, p) && p[0] == m && p[|p| - 1] == m' && |p| >= 2
  }

  /** the machine can take k steps from m */
  ghost predicate RunsFor(code: Code, m: Machine, k: nat) {
    exists p :: Trace(code, p) && p[0] == m && |p| > k
  }

  lemma Join(code: Code, p: seq<Machine>, q: seq<Machine>) returns (r: seq<Machine>)
    requires Trace(code, p) && Trace(code, q) && p[|p| - 1] == q[0]
    ensures Trace(code, r) && r[0] == p[0] && r[|r| - 1] == q[|q| - 1] && |r| == |p| + |q| - 1
  {
    r := p + q[1..];
    forall i: nat {:trigger Linked(code, r, i)} | i + 1 < |r| ensures Linked(code, r, i) {
      if i + 1 < |p| { assert Linked(code, p, i); } else { assert Linked(code, q, i - (|p| - 1)); }
    }
  }

  lemma GoesPlus(code: Code, m: Machine, m1: Machine, m2: Machine)
    requires (Goes(code, m, m1) && Plus(code, m1, m2)) || (Plus(code, m, m1) && Goes(code, m1, m2))
    ensures Plus(code, m, m2) && Goes(code, m, m2)
  {
    if Goes(code, m, m1) && Plus(code, m1, m2) {
      var p :| Trace(code, p) && p[0] == m && p[|p| - 1] == m1;
      var q :| Trace(code, q) && q[0] == m1 && q[|q| - 1] == m2 && |q| >= 2;
      var r := Join(code, p, q);
    } else {
      var p :| Trace(code, p) && p[0] == m && p[|p| - 1] == m1 && |p| >= 2;
      var q :| Trace(code, q) && q[0] == m1 && q[|q| - 1] == m2;
      var r := Join(code, p, q);
    }
  }

  lemma GoesRuns(code: Code, m: Machine, m1: Machine, k: nat)
    requires Goes(code, m, m1) && RunsFor(code, m1, k)
    ensures RunsFor(code, m, k)
  {
    var p :| Trace(code, p) && p[0] == m && p[|p| - 1] == m1;
    var q :| Trace(code, q) && q[0] == m1 && |q| > k;
    var r := Join(code, p, q);
  }

  lemma PlusRuns(code: Code, m: Machine, m1: Machine, k: nat)
    requires Plus(code, m, m1) && RunsFor(code, m1, k)
    ensures RunsFor(code, m, k + 1)
  {
    var p :| Trace(code, p) && p[0] == m && p[|p| - 1] == m1 && |p| >= 2;
    var q :| Trace(code, q) && q[0] == m1 && |q| > k;
    var r := Join(code, p, q);
  }

  lemma RunsZero(code: Code, m: Machine)
    ensures RunsFor(code, m, 0)
  {
    assert Trace(code, [m]);
  }

  ghost predicate InsAt(code: Code, pc: int, seg: seq<Instr>, i: nat)
    requires i < |seg|
  {
    Fetch(code, pc + 4 * i) == Some(seg[i])
  }

  /** the instructions seg lie at address pc */
  ghost predicate At(code: Code, pc: int, seg: seq<Instr>) {
    forall i: nat {:trigger InsAt(code, pc, seg, i)} | i < |seg| :: InsAt(code, pc, seg, i)
  }

  lemma AtSplit(code: Code, pc: int, a: seq<Instr>, b: seq<Instr>)
    requires At(code, pc, a + b)
    ensures At(code, pc, a) && At(code, pc + 4 * |a|, b)
  {
    forall i: nat {:trigger InsAt(code, pc, a, i)} | i < |a| ensures InsAt(code, pc, a, i) {
      assert InsAt(code, pc, a + b, i);
    }
    var q := pc + 4 * |a|;
    forall i: nat {:trigger InsAt(code, q, b, i)} | i < |b| ensures InsAt(code, q, b, i) {
      assert InsAt(code, pc, a + b, |a| + i);
    }
  }

  /** executing the instruction at pc */
  lemma StepAt(code: Code, m: Machine, i: Instr, m': Machine)
    requires At(code, m.pc, [i]) && RegsOk(i) && |m.regs| == 32 && Exec(i, m) == Some(m')
    ensures Goes(code, m, m') && Plus(code, m, m')
  {
    assert InsAt(code, m.pc, [i], 0);
    assert Step(code, m) == Some(m');
    var p := [m, m'];
    assert Linked(code, p, 0);
    assert Trace(code, p);
  }
}
