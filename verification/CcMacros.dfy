/** The emitter's multi-instruction sequences (i_li, i_addi, push and pop) and
    what they do to the machine. */
module CcMacros {
  import opened Options
  import opened Words
  import opened RvArith
  import opened RvMachine

  /** u >> (8 * k) */
  function ShiftBytes(u: nat, k: nat): nat {
    if k == 0 then u else ShiftBytes(u, k - 1) / 256
  }

  /** the slli/ori pairs of i_li and i_addi, for bytes k-1 down to 0 of u */
  function LoadBytes(rd: nat, u: nat, k: nat): (s: seq<Instr>)
    ensures |s| == 2 * k
  {
    if k == 0 then []
    else [OpImm(SLLI, rd, rd, 8), OpImm(ORI, rd, rd, ShiftBytes(u, k - 1) % 256)] + LoadBytes(rd, u, k - 1)
  }

  /** i_addi: large immediates go through t6 */
  function Addi(rd: nat, rs: nat, imm: int): seq<Instr> {
    if -2048 <= imm <= 2047 then [OpImm(ADDI, rd, rs, imm)]
    else [OpImm(ADDI, T6, X0, 0)] + LoadBytes(T6, Unsigned(Wrap64(imm)), 8) + [Op(Arith(Add), rd, rs, T6)]
  }

  function Mv(rd: nat, rs: nat): seq<Instr> { Addi(rd, rs, 0) }

  /** a 20-bit field read back as a signed number */
  function Sext20(v: int): int { (v + 0x8_0000) % 0x10_0000 - 0x8_0000 }

  /** i_li */
  function Li(rd: nat, v: int): seq<Instr> {
    if -2048 <= v <= 2047 then [OpImm(ADDI, rd, X0, v)]
    else if InS32(v) then
      var hi := (v + 0x800) / 4096;
      [Lui(rd, Sext20(hi)), OpImm(ADDIW, rd, rd, v - hi * 4096)]
    else [OpImm(ADDI, rd, X0, 0)] + LoadBytes(rd, Unsigned(Wrap64(v)), 8)
  }

  function Push(r: nat): seq<Instr> { Addi(SP, SP, -16) + [Store(Double, r, SP, 0)] }
  function Pop(r: nat): seq<Instr> { [Load(Double, r, SP, 0)] + Addi(SP, SP, 16) }

  /** m after setting one register and running past n instructions */
  function With(m: Machine, n: nat, rd: nat, v: int): Machine
    requires rd < |m.regs|
  {
    Machine(m.pc + 4 * n, m.regs[rd := v], m.mem)
  }

  lemma WithOk(m: Machine, n: nat, rd: nat, v: int)
    requires Ok(m) && 0 < rd < 32 && InS64(v)
    ensures Ok(With(m, n, rd, v))
  {
  }

  /** one register-writing instruction */
  lemma SetAt(code: Code, m: Machine, i: Instr, rd: nat, v: int)
    requires Ok(m) && At(code, m.pc, [i]) && RegsOk(i) && 0 < rd < 32
    requires Exec(i, m) == Some(With(m, 1, rd, v))
    ensures Goes(code, m, With(m, 1, rd, v))
  {
    StepAt(code, m, i, With(m, 1, rd, v));
  }

  lemma AddiAt(code: Code, m: Machine, rd: nat, rs: nat, imm: int)
    requires Ok(m) && 0 < rd < 32 && rs < 32 && At(code, m.pc, [OpImm(ADDI, rd, rs, imm)])
    ensures Goes(code, m, With(m, 1, rd, Wrap64(m.regs[rs] + imm)))
  {
    SetAt(code, m, OpImm(ADDI, rd, rs, imm), rd, Wrap64(m.regs[rs] + imm));
  }

  lemma AddiwAt(code: Code, m: Machine, rd: nat, rs: nat, imm: int)
    requires Ok(m) && 0 < rd < 32 && rs < 32 && At(code, m.pc, [OpImm(ADDIW, rd, rs, imm)])
    ensures Goes(code, m, With(m, 1, rd, Wrap32(m.regs[rs] + imm)))
  {
    SetAt(code, m, OpImm(ADDIW, rd, rs, imm), rd, Wrap32(m.regs[rs] + imm));
  }

  lemma LuiAt(code: Code, m: Machine, rd: nat, imm: int)
    requires Ok(m) && 0 < rd < 32 && At(code, m.pc, [Lui(rd, imm)])
    ensures Goes(code, m, With(m, 1, rd, Wrap32(imm * 4096)))
  {
    SetAt(code, m, Lui(rd, imm), rd, Wrap32(imm * 4096));
  }

  lemma AddAt(code: Code, m: Machine, rd: nat, rs: nat, rs2: nat)
    requires Ok(m) && 0 < rd < 32 && rs < 32 && rs2 < 32 && At(code, m.pc, [Op(Arith(Add), rd, rs, rs2)])
    ensures Goes(code, m, With(m, 1, rd, Wrap64(m.regs[rs] + m.regs[rs2])))
  {
    SetAt(code, m, Op(Arith(Add), rd, rs, rs2), rd, Wrap64(m.regs[rs] + m.regs[rs2]));
  }

  // ----- materialising a 64-bit constant byte by byte -----

  lemma OrByte(x: int, b: int)
    requires 0 <= b < 256
    ensures Bitwise(BOr, Wrap64(x * 256), b) == Wrap64(x * 256 + b)
  {
    var q := (x * 256 + H64) / M64;
    var x' := x - q * 0x100_0000_0000_0000;
    assert Wrap64(x * 256) == x' * 256;
    Pow2Values();
    assert Pow2(8) == 256 by { Pow2Sum(5, 3); assert Pow2(3) == 8; }
    OrDisjoint(x', b, 8, XLEN);
    Wrap64Mod(x' * 256 + b);
    Wrap64Shift(x * 256 + b, q);
  }

  lemma Wrap64Mod(v: int)
    ensures Wrap64(v % M64) == Wrap64(v)
  {
    var q := v / M64;
    assert v % M64 == v - q * M64;
    Wrap64Shift(v, q);
  }

  lemma Wrap64Shift(v: int, q: int)
    ensures Wrap64(v - q * M64) == Wrap64(v)
  {
    var k := (v + H64) / M64;
    var r := (v + H64) % M64;
    assert v - q * M64 + H64 == (k - q) * M64 + r;
    ModIs(v - q * M64 + H64, M64, k - q, r);
  }

  lemma SlliAt(code: Code, m: Machine, rd: nat, w: int)
    requires Ok(m) && 0 < rd < 32 && At(code, m.pc, [OpImm(SLLI, rd, rd, 8)]) && ImmValue(SLLI, m.regs[rd], 8) == w
    ensures Goes(code, m, With(m, 1, rd, w))
  {
    SetAt(code, m, OpImm(SLLI, rd, rd, 8), rd, w);
  }

  lemma OriAt(code: Code, m: Machine, rd: nat, imm: int, w: int)
    requires Ok(m) && 0 < rd < 32 && At(code, m.pc, [OpImm(ORI, rd, rd, imm)]) && Bitwise(BOr, m.regs[rd], imm) == w
    ensures Goes(code, m, With(m, 1, rd, w))
  {
    SetAt(code, m, OpImm(ORI, rd, rd, imm), rd, w);
  }

  /** one shift and one or: a byte is appended to the value in rd */
  lemma ByteAt(code: Code, m: Machine, rd: nat, x: int, b: int)
    requires Ok(m) && 0 < rd < 32 && At(code, m.pc, [OpImm(SLLI, rd, rd, 8), OpImm(ORI, rd, rd, b)])
    requires 0 <= b < 256 && m.regs[rd] == Wrap64(x)
    ensures Goes(code, m, With(m, 2, rd, Wrap64(x * 256 + b)))
  {
    var i1, i2 := OpImm(SLLI, rd, rd, 8), OpImm(ORI, rd, rd, b);
    var w1, w2 := Wrap64(x * 256), Wrap64(x * 256 + b);
    assert [i1, i2] == [i1] + [i2];
    AtSplit(code, m.pc, [i1], [i2]);
    SlliByte(m.regs[rd], x);
    OrByte(x, b);
    SlliAt(code, m, rd, w1);
    WithOk(m, 1, rd, w1);
    OriAt(code, With(m, 1, rd, w1), rd, b, w2);
    WithTwice(m, 1, 1, rd, w1, w2);
    GoesTrans(code, m, With(m, 1, rd, w1), With(m, 2, rd, w2));
  }

  lemma BytesAt(code: Code, pc: int, rd: nat, u: nat, k: nat)
    requires k > 0 && At(code, pc, LoadBytes(rd, u, k))
    ensures At(code, pc, [OpImm(SLLI, rd, rd, 8), OpImm(ORI, rd, rd, ShiftBytes(u, k - 1) % 256)])
    ensures At(code, pc + 8, LoadBytes(rd, u, k - 1))
  {
    AtSplit(code, pc, [OpImm(SLLI, rd, rd, 8), OpImm(ORI, rd, rd, ShiftBytes(u, k - 1) % 256)],
      LoadBytes(rd, u, k - 1));
  }

  /** one byte is shifted in, the rest of the sequence lies ahead */
  lemma BytesStep(code: Code, m: Machine, rd: nat, u: nat, k: nat) returns (m2: Machine)
    requires k > 0 && Ok(m) && 0 < rd < 32 && At(code, m.pc, LoadBytes(rd, u, k))
    requires m.regs[rd] == Wrap64(ShiftBytes(u, k))
    ensures Goes(code, m, m2) && Ok(m2) && m2 == With(m, 2, rd, Wrap64(ShiftBytes(u, k - 1)))
    ensures At(code, m2.pc, LoadBytes(rd, u, k - 1))
  {
    var x, y := ShiftBytes(u, k), ShiftBytes(u, k - 1);
    assert y == x * 256 + y % 256;
    BytesAt(code, m.pc, rd, u, k);
    ByteAt(code, m, rd, x, y % 256);
    m2 := With(m, 2, rd, Wrap64(y));
    WithOk(m, 2, rd, Wrap64(y));
  }

  lemma WithTwice(m: Machine, n: nat, k: nat, rd: nat, v: int, w: int)
    requires rd < |m.regs|
    ensures With(With(m, n, rd, v), k, rd, w) == With(m, n + k, rd, w)
  {
  }

  lemma {:induction false} BytesCorrect(code: Code, m: Machine, rd: nat, u: nat, k: nat)
    requires Ok(m) && 0 < rd < 32 && At(code, m.pc, LoadBytes(rd, u, k))
    requires m.regs[rd] == Wrap64(ShiftBytes(u, k))
    ensures Goes(code, m, With(m, 2 * k, rd, Wrap64(u)))
    decreases k
  {
    if k == 0 {
      assert m.regs == m.regs[rd := Wrap64(u)];
      GoesRefl(code, m);
    } else {
      var m2 := BytesStep(code, m, rd, u, k);
      BytesCorrect(code, m2, rd, u, k - 1);
      WithTwice(m, 2, 2 * (k - 1), rd, m2.regs[rd], Wrap64(u));
      GoesTrans(code, m, m2, With(m, 2 * k, rd, Wrap64(u)));
    }
  }

  lemma SlliByte(w: int, x: int)
    requires w == Wrap64(x)
    ensures ImmValue(SLLI, w, 8) == Wrap64(x * 256)
  {
    assert Pow2(8) == 256 by { Pow2Sum(5, 3); Pow2Values(); assert Pow2(3) == 8; }
    var q := (x + H64) / M64;
    assert w * 256 == x * 256 - (q * 256) * M64;
    Wrap64Shift(x * 256, q * 256);
  }

  lemma AllShifted(u: nat)
    requires u < M64
    ensures ShiftBytes(u, 8) == 0
  {
    assert ShiftBytes(u, 0) == u;
    assert ShiftBytes(u, 1) == u / 256;
    assert ShiftBytes(u, 3) < 0x100_0000_0000;
    assert ShiftBytes(u, 5) < 0x100_0000;
    assert ShiftBytes(u, 7) < 0x100;
  }

  lemma BytesFromZero(code: Code, m: Machine, rd: nat, v: int)
    requires Ok(m) && 0 < rd < 32 && InS64(v)
    requires At(code, m.pc, [OpImm(ADDI, rd, X0, 0)] + LoadBytes(rd, Unsigned(v), 8))
    ensures Goes(code, m, With(m, 17, rd, v))
  {
    var u := Unsigned(v);
    AtSplit(code, m.pc, [OpImm(ADDI, rd, X0, 0)], LoadBytes(rd, u, 8));
    AddiAt(code, m, rd, X0, 0);
    var m1 := With(m, 1, rd, 0);
    WithOk(m, 1, rd, 0);
    AllShifted(u);
    BytesCorrect(code, m1, rd, u, 8);
    assert Wrap64(u) == v;
    var m2 := With(m1, 2 * 8, rd, v);
    assert m2 == With(m, 17, rd, v);
    GoesTrans(code, m, m1, m2);
  }

  lemma LuiPart(v: int, hi: int)
    requires InS32(v) && hi == (v + 0x800) / 4096
    ensures Wrap32(Wrap32(Sext20(hi) * 4096) + (v - hi * 4096)) == v
    ensures -2048 <= v - hi * 4096 <= 2047
  {
  }

  /** i_li: for every 64-bit value, rd holds exactly that value afterwards and
      nothing else changes. */
  lemma LiCorrect(code: Code, m: Machine, rd: nat, v: int)
    requires Ok(m) && 0 < rd < 32 && InS64(v) && At(code, m.pc, Li(rd, v))
    ensures Goes(code, m, With(m, |Li(rd, v)|, rd, v))
  {
    if -2048 <= v <= 2047 {
      AddiAt(code, m, rd, X0, v);
    } else if InS32(v) {
      LuiAddiw(code, m, rd, v);
    } else {
      BytesFromZero(code, m, rd, v);
    }
  }

  lemma LuiAddiw(code: Code, m: Machine, rd: nat, v: int)
    requires Ok(m) && 0 < rd < 32 && InS32(v)
    requires var hi := (v + 0x800) / 4096; At(code, m.pc, [Lui(rd, Sext20(hi)), OpImm(ADDIW, rd, rd, v - hi * 4096)])
    ensures Goes(code, m, With(m, 2, rd, v))
  {
    var hi := (v + 0x800) / 4096;
    LuiPart(v, hi);
    UpperThenLower(code, m, rd, Sext20(hi), v - hi * 4096, Wrap32(Sext20(hi) * 4096), v);
  }

  lemma UpperThenLower(code: Code, m: Machine, rd: nat, up: int, low: int, w: int, v: int)
    requires Ok(m) && 0 < rd < 32 && At(code, m.pc, [Lui(rd, up), OpImm(ADDIW, rd, rd, low)])
    requires w == Wrap32(up * 4096) && v == Wrap32(w + low)
    ensures Goes(code, m, With(m, 2, rd, v))
  {
    var i1, i2 := Lui(rd, up), OpImm(ADDIW, rd, rd, low);
    assert [i1, i2] == [i1] + [i2];
    AtSplit(code, m.pc, [i1], [i2]);
    LuiAt(code, m, rd, up);
    var m1 := With(m, 1, rd, w);
    WithOk(m, 1, rd, w);
    AddiwAt(code, m1, rd, rd, low);
    WithTwice(m, 1, 1, rd, w, v);
    GoesTrans(code, m, m1, With(m, 2, rd, v));
  }

  /** registers the two machines may disagree on are those in `but` */
  ghost predicate SameRegs(m: Machine, m': Machine, but: set<nat>) {
    |m.regs| == 32 && |m'.regs| == 32 && forall r: nat {:trigger m'.regs[r]} | r < 32 && r !in but ::
      m'.regs[r] == m.regs[r]
  }

  /** i_addi: adds any 32-bit immediate, clobbering at most t6. */
  lemma AddiCorrect(code: Code, m: Machine, rd: nat, rs: nat, imm: int) returns (m': Machine)
    requires Ok(m) && 0 < rd < 32 && rd != T6 && rs < 32 && rs != T6 && InS32(imm) && At(code, m.pc, Addi(rd, rs, imm))
    ensures Goes(code, m, m') && Ok(m') && m'.pc == m.pc + 4 * |Addi(rd, rs, imm)| && m'.mem == m.mem
    ensures m'.regs[rd] == Wrap64(m.regs[rs] + imm) && SameRegs(m, m', {rd, T6})
    ensures -2048 <= imm <= 2047 ==> m' == With(m, 1, rd, Wrap64(m.regs[rs] + imm))
  {
    if -2048 <= imm <= 2047 {
      var v := Wrap64(m.regs[rs] + imm);
      AddiAt(code, m, rd, rs, imm);
      m' := With(m, 1, rd, v);
      WithOk(m, 1, rd, v);
    } else {
      m' := AddiLarge(code, m, rd, rs, imm);
    }
  }

  lemma AddiLarge(code: Code, m: Machine, rd: nat, rs: nat, imm: int) returns (m': Machine)
    requires Ok(m) && 0 < rd < 32 && rd != T6 && rs < 32 && rs != T6 && InS32(imm)
    requires At(code, m.pc, [OpImm(ADDI, T6, X0, 0)] + LoadBytes(T6, Unsigned(Wrap64(imm)), 8) +
      [Op(Arith(Add), rd, rs, T6)])
    ensures Goes(code, m, m') && Ok(m') && m'.pc == m.pc + 4 * 18 && m'.mem == m.mem
    ensures m'.regs[rd] == Wrap64(m.regs[rs] + imm) && SameRegs(m, m', {rd, T6})
  {
    var v := Wrap64(m.regs[rs] + imm);
    var head := [OpImm(ADDI, T6, X0, 0)] + LoadBytes(T6, Unsigned(Wrap64(imm)), 8);
    AtSplit(code, m.pc, head, [Op(Arith(Add), rd, rs, T6)]);
    BytesFromZero(code, m, T6, imm);
    var m1 := With(m, 17, T6, imm);
    WithOk(m, 17, T6, imm);
    AddAt(code, m1, rd, rs, T6);
    m' := With(m1, 1, rd, v);
    WithOk(m1, 1, rd, v);
    GoesTrans(code, m, m1, m');
  }

  lemma PushCorrect(code: Code, m: Machine, r: nat) returns (m': Machine)
    requires Ok(m) && r < 32 && r != SP && m.regs[SP] % 8 == 0 && m.regs[SP] >= 16 && At(code, m.pc, Push(r))
    ensures Goes(code, m, m') && Ok(m')
    ensures m' == Machine(m.pc + 8, m.regs[SP := m.regs[SP] - 16], m.mem[m.regs[SP] - 16 := m.regs[r]])
  {
    var sp := m.regs[SP] - 16;
    AtSplit(code, m.pc, Addi(SP, SP, -16), [Store(Double, r, SP, 0)]);
    var m1 := AddiCorrect(code, m, SP, SP, -16);
    m' := Machine(m.pc + 8, m1.regs, m.mem[sp := m.regs[r]]);
    StepAt(code, m1, Store(Double, r, SP, 0), m');
    GoesTrans(code, m, m1, m');
  }

  lemma PopCorrect(code: Code, m: Machine, r: nat) returns (m': Machine)
    requires Ok(m) && 0 < r < 32 && r != SP && m.regs[SP] % 8 == 0 && 0 <= m.regs[SP] < H64 - 16
    requires At(code, m.pc, Pop(r))
    ensures Goes(code, m, m') && Ok(m')
    ensures m' == Machine(m.pc + 8, m.regs[r := Rd(m.mem, m.regs[SP])][SP := m.regs[SP] + 16], m.mem)
  {
    var v := Rd(m.mem, m.regs[SP]);
    AtSplit(code, m.pc, [Load(Double, r, SP, 0)], Addi(SP, SP, 16));
    SetAt(code, m, Load(Double, r, SP, 0), r, v);
    var m1 := With(m, 1, r, v);
    WithOk(m, 1, r, v);
    m' := AddiCorrect(code, m1, SP, SP, 16);
    GoesTrans(code, m, m1, m');
  }
}
